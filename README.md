# Chemical background and contact endpoint, in Dafny

This project models two parts of a personal portfolio site.

**The interactive chemical background** (`chemical-background.js`). A canvas holds element particles: carbon, hydrogen, oxygen, nitrogen, nickel and copper. Each frame they do the following:
- drift and bounce off the canvas edges;
- light up when a bondable partner is near;
- every twentieth frame, react spontaneously: C+O+O gives CO₂, and H+O+H gives H₂O.

A reaction splices its three reagents out of the particle list. It appends the molecule and leaves a short-lived explosion, whose fragments later join the list as ordinary particles. A click that hits no particle forces a reaction among the particles within 150 units of the click. A click on a particle drags it until the button is released.

**The contact-form endpoint** (`api/send-email.js`). It answers CORS preflights, refuses other methods, validates the four form fields and the address format, builds the outgoing mail, and reports success or a generic failure.

## Layout

The modules, and what each one holds:

- **`Wrappers`**: `Option`.
- **`Particle`** (`particle.dfy`):
  - the element catalogue and the particle value, with its `id` standing for object identity;
  - spawning from random draws and the motion step;
  - squared distance and the bond table.
- **`Removal`** (`removal.dfy`):
  - `splice` and the max/median/min index choice;
  - removal by identity (`filter`) and `filter` in general;
  - the multiset of particle ids.
- **`Explosion`** (`explosion.dfy`):
  - burst sizes and fragment creation;
  - the per-tick ageing of explosions and the release of their fragments.
- **`Activity`** (`activity.dfy`): the proximity pass of `animate` that recomputes the `active` flags, and the invariants of its double loop.
- **`Pointer`** (`pointer.dfy`): the drag hit test, per-particle updates by identity, and content-area rectangles.
- **`Reaction`** (`reaction.dfy`):
  - the store `Store(particles, explosions, nextId)` and its well-formedness: every id occurs once and was handed out;
  - the spontaneous and the forced reaction, as functions on the store.
- **`Frame`** (`frame.dfy`): one frame of `animate` as a function of the store. It composes the flag pass, the reaction scan on every twentieth frame, the ageing of the explosions and the motion step.
- **`Background`** (`background.dfy`): the class `ChemicalBackground`. Its methods update its fields in place, and each method is proved against the functions above. The fields follow the source's, with these differences:
  - `nextId` exists only in the model: it hands out the ids that stand for object identity;
  - `width` and `height` are the canvas size, fixed at construction;
  - `canvas`, `ctx` and `maxDistance` are left out, as they serve only rendering;
  - `particleCount`, `reactionDistance` and `reactionDistanceSq` are module constants.
- **`SendEmail`** (`send_email.dfy`): the request handler as a pure function.

### Modelling choices

- **Randomness.** Every `Math.random()` value is a parameter in `[0, 1)`: `Seed`, `Draws` and `Spark`.
- **Fragment velocities.** The trigonometric velocities of explosion fragments are parameters too.
- **Distances.** Each `Math.sqrt(d) < r` test is written `d < r * r`.
- **Explosion opacity.** It is kept in integer hundredths: it starts at 100 and loses 1 per tick.
- **Identity.** A particle's object identity is its `id`. `draggedParticle` becomes `dragged: Option<nat>`, an id that a reaction may have removed from the store. The handlers then change nothing, as the source's writes to a detached object change nothing visible. That relies on ids never being handed out twice: `Valid()` keeps the dragged id below `nextId`, every step satisfies `Reaction.NoReissue`, and `Frame.ConsumedDragStaysGone` concludes that a consumed dragged particle's id is never carried again.

### Where the code was followed

- **Splice order.** The code splices the largest, then the "median" `min(max(i,j), max(i,k), max(j,k))`, then the smallest index. One might fear that the second or third splice hits an index the earlier splices have shifted. `Removal.SpliceThree` proves the contrary: for three distinct indices it removes exactly those three particles and keeps the rest in order.
- **Molecule before splices.** The molecule is appended before the splices run. It stays last, because every spliced index is below the old length.
- **Forced reaction.** The forced reaction removes by identity, in one `filter`.

## Model

| member | source | states |
|---|---|---|
| Particle.RandomElement | chemical-background.js:22-32 | the element drawn is one of the six catalogue entries, so its symbol is a catalogue symbol |
| Particle.Spawn | chemical-background.js:6-20 | a new particle lies on the canvas, each velocity component is in [−0.1, 0.1), its element is from the catalogue, and it is inactive |
| Particle.Scale | chemical-background.js:14-15 | `Math.random() * extent` lies in [0, extent] |
| Particle.Update | chemical-background.js:34-45 | after a step the particle is inside the canvas; id, element and flag are unchanged; each velocity component keeps its magnitude and is negated only when that coordinate left the canvas; a move that stays inside is exact |
| Particle.BounceTurnsInward | chemical-background.js:38-44 | a particle that crosses an edge is stopped on that edge with its velocity pointing back inside |
| Particle.DistanceSquaredSymmetric | chemical-background.js:74-78 | the squared distance is symmetric and non-negative |
| Particle.CanBondIff | chemical-background.js:80-95 | the table lookup holds exactly for the nine unordered pairs C–O, C–H, N–H, O–H, C–N, Ni–O, Cu–O, C–C and N–O |
| Particle.CanBondSymmetric | chemical-background.js:80-95 | `canBondWith` is symmetric for every pair of symbols |
| Particle.MoleculeNeverBonds | chemical-background.js:93-94 | a symbol outside the catalogue, such as a molecule label, bonds with nothing on either side, because the lookup misses and falls back to false |
| Removal.Splice | chemical-background.js:317-319 | `splice(k, 1)` shortens by one, keeps the elements before `k` and shifts the rest down |
| Removal.OrderOfThree | chemical-background.js:317-319 | for distinct indices the three splice positions are the smallest, the middle and the largest, in strictly increasing order |
| Removal.SpliceThree | chemical-background.js:317-319 | splicing at max, then median, then min removes exactly indices i, j, k and keeps the others in order; each splice index is in range when it is used |
| Removal.DropThreeLength | chemical-background.js:317-319 | dropping three distinct indices leaves three fewer particles |
| Removal.RemoveIdsMembers | chemical-background.js:452 | a particle survives the identity filter exactly when it was present and its id is not removed |
| Removal.RemoveIdsIsSelect | chemical-background.js:452 | removal by identity is the `filter` with the test `!ids.has(p.id)` |
| Removal.RemoveIdsIsDrop | chemical-background.js:452 | filtering by a set of ids equals dropping the positions that hold those ids |
| Removal.RemoveThree | chemical-background.js:452 | removing three distinct members by identity leaves three fewer particles |
| Removal.Select | chemical-background.js:430-435 | `filter` keeps exactly the members that pass the test, never more particles than it started with |
| Removal.SelectOrder | chemical-background.js:430-445 | the t-th particle kept by a filter has exactly t passing particles before it in the original order |
| Explosion.SmallBurstSize | chemical-background.js:376 | `floor(r * 5) + 1` is between 1 and 5 |
| Explosion.BigBurstSize | chemical-background.js:477 | `floor(r * 6) + 7` is between 7 and 12 |
| Explosion.Fragments | chemical-background.js:377-389 | a burst of n fragments all starts at the centre, active, with the given velocities, catalogue elements and consecutive fresh ids |
| Explosion.FreshIds | chemical-background.js:377-389 | the fragments and the molecule created after them have distinct ids in the fresh range |
| Explosion.AdvanceDrifts | chemical-background.js:406-410 | an advanced explosion keeps its fragments in order; each moves by its velocity, which then decays to 95%, and keeps its id, element and flag |
| Explosion.SurvivorsAdvance | chemical-background.js:395-416 | every explosion left after ageing is an original one that survives its tick, advanced by that tick |
| Explosion.ReleasedAreSettled | chemical-background.js:418-423 | every fragment handed to the store comes from an explosion dissolving on this tick; it keeps its id, element and place, keeps a fifth of its velocity and is inactive |
| Explosion.UpdateConservesCount | chemical-background.js:394-427 | ageing neither creates nor loses a fragment: released plus surviving fragments equal the fragments before |
| Explosion.UpdateConservesIds | chemical-background.js:394-427 | the same holds for the multiset of fragment ids |
| Explosion.SurvivorsAreVisible | chemical-background.js:399 | no more explosions survive than existed, and every survivor has positive opacity |
| Explosion.ReleasedAreInactive | chemical-background.js:421 | every fragment handed to the store is inactive |
| Explosion.Lifetime | chemical-background.js:395-399 | after t ticks the opacity has dropped by t hundredths and the radius grown by t/2; the explosion survives its next tick exactly while t < opacity − 1 |
| Activity.BondedSymmetric | chemical-background.js:522 | the lighting test is symmetric |
| Activity.PrefilterSound | chemical-background.js:518 | the `abs(dx) > 120 \|\| abs(dy) > 120` shortcut skips only pairs that could not light up, so it never changes the outcome |
| Activity.ActivePassSpec | chemical-background.js:507-527 | both particles of a bonded pair end active; a particle other than the dragged one is active exactly when some other particle is bondable with it and closer than 120 |
| Activity.MoleculeStaysDark | chemical-background.js:507-527 | a molecule that is not being dragged is never lit by the pass |
| Activity.ScanPairStep | chemical-background.js:514-525 | examining pair (i, j) on the partly updated flags decides as on the original store, and lighting it keeps the scan invariant |
| Activity.ScanFinish | chemical-background.js:507-527 | when the double loop ends, the list equals the specified pass |
| Pointer.FirstHit | chemical-background.js:173-177 | `find` returns the first particle within 30 of the pointer, and nothing exactly when no particle is that close |
| Pointer.ReleaseSpeed | chemical-background.js:215-216 | a release velocity component is in [−0.25, 0.25) |
| Pointer.SetByIdSpec | chemical-background.js:203-209 | with distinct ids, a missing id leaves the store unchanged and a present id updates exactly its one position |
| Pointer.SetByIdKeepsIds | chemical-background.js:203-209 | such writes keep the multiset of ids |
| Pointer.IsOverContent | chemical-background.js:235-242 | the point is over content exactly when some rectangle contains it, edges included |
| Reaction.DriftSpeed | chemical-background.js:361-362 | a molecule velocity component is in [−0.15, 0.15) |
| Reaction.Molecule | chemical-background.js:356-365 | the molecule sits at the given point, is active, has valence 0 and the product's symbol, and drifts slowly |
| Reaction.MoleculeIsInert | chemical-background.js:356-365 | a molecule bonds with no particle in either role, so it never reacts again |
| Reaction.FindThird | chemical-background.js:304-310 | the k loop returns the first other particle of the needed symbol within 120 of both reagents, and nothing when there is none |
| Reaction.ReactionForExists | chemical-background.js:300-354 | a pair reacts exactly when it is C/O with a third O in reach, or H/O with a third H in reach |
| Reaction.ReactionForShape | chemical-background.js:300-354 | a reaction's third particle differs from the pair, the three symbols make up the product's formula, the third is within 120 of both, and it is the first such index |
| Reaction.FirstReactivePairUnique | chemical-background.js:283-298 | there is at most one first reactive pair in scan order |
| Reaction.SmallExplosion | chemical-background.js:367-392 | a spontaneous reaction's explosion has 1 to 5 fragments, full opacity, radius 5 and maximum radius 50 |
| Reaction.BigExplosion | chemical-background.js:468-497 | a forced reaction's explosion has 7 to 12 fragments, full opacity, radius 10 and maximum radius 100 |
| Reaction.BurstKeepsWellFormed | chemical-background.js:367-392 | keeping part of a well-formed store and adding a fresh burst and molecule keeps every id unique and handed out |
| Reaction.BurstNoReissue | chemical-background.js:367-392 | keeping part of the particles and adding a burst and its molecule raises `nextId` and carries no already handed-out id more often than before |
| Reaction.ApplyReactionWellFormed | chemical-background.js:312-319 | a spontaneous reaction keeps the store well formed |
| Reaction.ApplyReactionEffect | chemical-background.js:300-354 | a reaction leaves two fewer particles: the survivors in their order, then one active valence-0 molecule at the centroid; it appends one explosion of 1 to 5 fragments |
| Reaction.SelectTwice | chemical-background.js:430-445 | grouping the nearby particles by symbol equals filtering the store by both tests at once |
| Reaction.OfSymbolPush | chemical-background.js:439-445 | grouping works one particle at a time, in order |
| Reaction.ForcedChoiceSpec | chemical-background.js:429-466 | a forced choice names three distinct particles of the store, all strictly within 150 of the click, whose symbols are the product's formula |
| Reaction.ForcedReagentRank | chemical-background.js:447-462 | the t-th reagent of a symbol is the t-th particle of that symbol within reach, in store order |
| Reaction.RemoveTriple | chemical-background.js:452 | filtering out three distinct members leaves three fewer, exactly the others |
| Reaction.RemoveReagents | chemical-background.js:452-462 | the chosen reagents are removed and every other particle stays |
| Reaction.ApplyForcedWellFormed | chemical-background.js:447-497 | a forced reaction keeps the store well formed |
| Reaction.ApplyForcedNoReissue | chemical-background.js:447-497 | a forced reaction never hands out an id again: only the fresh fragments and molecule gain ids |
| Reaction.ForcedResultNoReissue | chemical-background.js:429-466 | nor does `forceReactionAtPoint` as a whole, in any branch |
| Reaction.ApplyForcedEffect | chemical-background.js:429-497 | a forced reaction leaves two fewer particles; exactly the non-reagents survive, in their order (dropping the reagents' positions), then an active molecule of valence 0 at the click point; it appends one explosion of 7 to 12 fragments after the old ones, which are kept |
| Reaction.ExampleChoice | chemical-background.js:429-451 | near C(10,10), O(15,10), O(20,10), a click at (15,10) picks CO₂ with those three reagents |
| Reaction.ForcedExample | chemical-background.js:429-497 | that click leaves a single CO₂ particle and one explosion |
| Reaction.AgeingKeepsWellFormed | chemical-background.js:394-427 | ageing explosions keeps the store well formed, because fragments move from explosions to the list |
| Frame.ScanFrom | chemical-background.js:283-298 | resumed at a pair with no reactive pair before it, the nested scan returns the first reactive pair, or nothing exactly when no pair reacts |
| Frame.FirstReaction | chemical-background.js:283-298 | the pair `checkChemicalReactions` lets react is the first reactive pair in scan order; there is none exactly when no pair reacts |
| Frame.ReactionStepWellFormed | chemical-background.js:283-298 | the reaction scan keeps the store well formed |
| Frame.FrameWellFormed | chemical-background.js:499-542 | a whole frame keeps every id unique and handed out, and leaves every free particle on the canvas |
| Frame.QuietFrameKeepsIds | chemical-background.js:499-542 | a frame without a reaction keeps the multiset of particle and fragment ids and hands out no id |
| Frame.ReactionStepNoReissue | chemical-background.js:283-298 | the reaction scan never hands out an id again |
| Frame.FrameNoReissue | chemical-background.js:499-542 | nor does a whole frame: the flag pass, ageing and motion keep every id, and a reaction adds only fresh ones |
| Frame.ConsumedDragStaysGone | chemical-background.js:190-219 | once the dragged particle has been consumed, no particle carries its id after any step that reissues no id, so the move and release handlers can never pin or throw a newer particle in its place |
| Background.BuildFragments | chemical-background.js:377-389 | the fragment loop builds exactly the specified burst |
| Background.SpawnAll | chemical-background.js:130-132 | the spawning loop creates particle k from the k-th draws, numbered k |
| Background.SpawnedWellFormed | chemical-background.js:130-132 | the initial store is well formed |
| Background.InitialFrameShape | chemical-background.js:128-155 | after `init` the store holds 30 particles below a width of 768 and 50 otherwise, numbered in order and on the canvas, and no explosion |
| Background.InitStore | chemical-background.js:128-155 | the spawned particles followed by one frame that scans for no reaction give exactly `FrameStore` of the spawned store, which is well formed and has no explosion |
| Background.ChemicalBackground.constructor | chemical-background.js:99-155 | the canvas takes the window size; the store is the spawned particles after `init`'s closing call of `animate`, a quiet first frame; no drag, no pointer, frame 1, the content areas as given |
| Background.ChemicalBackground.CreateExplosion | chemical-background.js:367-392 | appends the small explosion and consumes its fragment ids |
| Background.ChemicalBackground.CreateMolecule | chemical-background.js:356-365 | appends the molecule |
| Background.ChemicalBackground.CreateBigExplosion | chemical-background.js:468-497 | creates the fragments, appends the molecule, then appends the big explosion |
| Background.ChemicalBackground.SpliceOut | chemical-background.js:317-319 | the three splices drop exactly the three indices |
| Background.ChemicalBackground.ReactSteps | chemical-background.js:312-319 | explosion, molecule and splices give the store of `ApplyReaction` |
| Background.ChemicalBackground.React | chemical-background.js:312-319 | the same, and the store stays well formed |
| Background.ChemicalBackground.ScanForThird | chemical-background.js:304-310 | the k loop finds what `FindThird` specifies |
| Background.ChemicalBackground.TryFormMolecule | chemical-background.js:300-354 | returns whether the pair reacts; if it does, the store is the reacted store, and otherwise it is unchanged |
| Background.ChemicalBackground.CheckChemicalReactions | chemical-background.js:283-298 | the store becomes `ReactionStep`: unchanged when no pair reacts, otherwise exactly the first reactive pair in scan order (`FirstReaction`) reacts, once |
| Background.ChemicalBackground.ReleaseFragments | chemical-background.js:418-423 | released fragments are appended settled, in order |
| Background.ChemicalBackground.AgeExplosions | chemical-background.js:394-427 | the survivors advance in order; the others' fragments are appended to the list |
| Background.ChemicalBackground.UpdateExplosions | chemical-background.js:394-427 | the same; the store stays well formed and keeps exactly its multiset of ids |
| Background.GroupedPush | chemical-background.js:439-445 | one step of the grouping `forEach`, creating the group when missing and then pushing, keeps every group exactly that symbol's particles in order |
| Background.ChemicalBackground.GroupBySymbol | chemical-background.js:439-445 | the groups have exactly the symbols present nearby, each holding that symbol's particles in store order |
| Background.ChemicalBackground.ConsumeReagents | chemical-background.js:447-464 | filtering out the reagents and the big explosion give the store of `ApplyForced` |
| Background.ChemicalBackground.ForceReactionAtPoint | chemical-background.js:429-466 | the store becomes `ForcedResult`; it stays well formed and hands out no id again, so the new molecule and fragments never carry the dragged id |
| Background.ChemicalBackground.HandleMouseDown | chemical-background.js:158-188 | does nothing on mobile or on a control; a hit grabs the first particle within 30 (zero velocity, active); a miss forces a reaction at the point; no id is handed out again, and a dragged id is one the store has handed out |
| Background.ChemicalBackground.HandleMouseMove | chemical-background.js:190-211 | records the pointer; while dragging, pins the dragged particle there with zero velocity, active |
| Background.ChemicalBackground.HandleMouseUp | chemical-background.js:213-219 | ends the drag, giving the particle a release velocity in [−0.25, 0.25)²; idle, nothing changes |
| Background.ChemicalBackground.HandleMouseLeave | chemical-background.js:145-149 | forgets the pointer and ends any drag like a mouse-up |
| Background.ChemicalBackground.ResetActive | chemical-background.js:509-511 | every particle but the dragged one is switched off |
| Background.ChemicalBackground.RefreshActive | chemical-background.js:507-527 | the reset and the double loop give exactly `ActivePass` |
| Background.ChemicalBackground.MoveAll | chemical-background.js:535-536 | every particle takes one motion step |
| Background.ChemicalBackground.Animate | chemical-background.js:499-542 | one frame advances the counter and refreshes the areas every 60th frame; the store becomes `FrameStore`: flag pass, then the reaction scan only on every 20th frame, then ageing, then motion; every particle ends on the canvas; no id is handed out again |
| Background.ChemicalBackground.FrameSteps | chemical-background.js:507-542 | the calls of a frame, in source order, give exactly `FrameStore`; the store stays well formed and hands out no id again |
| Background.ChemicalBackground.LightAndReact | chemical-background.js:507-531 | the proximity pass and, on a reaction frame, the scan give the lit store, reacted by `ReactionStep` when it is a reaction frame |
| Background.ChemicalBackground.AgeAndMove | chemical-background.js:533-542 | ageing the explosions and then moving every particle gives `Aged` followed by `Moved` |
| SendEmail.Handle | api/send-email.js:6-136 | every response carries the three CORS headers, and its status is one of 200, 400, 405 and 500 |
| SendEmail.MethodGuards | api/send-email.js:12-23 | OPTIONS is answered 200 with no body; any other method but POST gets 405 'Method not allowed', whatever its fields |
| SendEmail.FieldsBeforeEmail | api/send-email.js:25-33 | a POST with a missing or empty field gets 400 'Todos os campos são obrigatórios', before the address is examined |
| SendEmail.EmailRegexIff | api/send-email.js:36 | the address regex holds exactly when there is no whitespace, exactly one '@' not in first place, and a '.' in the domain with text on both sides |
| SendEmail.BadEmailRefused | api/send-email.js:36-42 | otherwise-valid requests with such a malformed address get 400 'Email inválido' |
| SendEmail.EmailExamples | api/send-email.js:36 | `a@b.c` matches; `a@b`, `a b@c.d` and `a@@b.c` do not |
| SendEmail.ReplaceNewlines | api/send-email.js:96 | no newline remains in the HTML message |
| SendEmail.ReplaceNewlinesSpec | api/send-email.js:96 | newline-free text is unchanged, and each newline adds three characters |
| SendEmail.ReplaceNewlinesAppend | api/send-email.js:96 | the global replace works piecewise over a concatenation |
| SendEmail.MailFields | api/send-email.js:55-120 | the mail goes to the site owner from the configured account; it replies to the submitted address with subject '[Contato Site] ' + subject; its HTML message has newlines replaced; its text body holds the message verbatim |
| SendEmail.HandleSpec | api/send-email.js:25-135 | a mail is handed over exactly when every guard passes; the response reports success exactly when, in addition, the send succeeds; a successful send gets 200 with `success: true` and the success message; a failed send gets 500 with the fixed generic message only |

## Left out

- Canvas rendering is not modelled: `draw`, `drawConnection`, the explosion ring, the content-area dimming, and the connection lines near the pointer (`animate` 544-569). These only paint.
- `updateContentAreas`, event registration, `requestAnimationFrame` and touch-coordinate extraction are browser plumbing. The window size at construction, content rectangles, pointer coordinates and the `closest(...)` test are inputs.
- Fragment and molecule velocities come from `cos`, `sin` and `Math.random()`. Fragment velocities are parameters; only their count, start point and ids are modelled.
- Particle.Update: coordinates are reals, so floating-point rounding of the motion step is not modelled.
- Explosion.Lifetime: the source keeps opacity as a float, starts it at 1 and subtracts 0.01 per tick. The model counts integer hundredths, so the exact tick on which the float crosses zero may differ by one.
- Background.ChemicalBackground.constructor computes the first frame from `FrameStore`, through `Background.InitStore`, instead of running `Animate`'s loops on the new object. `Animate` is proved to produce that same store, so only the in-place order of the writes is not shown. That frame makes no reaction scan, so it consumes no random draws, and `QuietDraws` stands in for them.
- Background.ChemicalBackground.CreateBigExplosion takes a `Product`, not an optional molecule name. Every caller passes a name, so the branch without a molecule cannot be reached.
- `createMolecule` and `createExplosion` build a full `ChemicalParticle` and so consume extra random draws. Those draws are then overwritten (molecule) or pick the fragment's element. Only the draws that matter are parameters.
- `isMobile` is fixed at construction, as in the source. `resize` does not recompute it.
- `resize` (chemical-background.js:244-247) after construction is not modelled: `width` and `height` are constants, so a later change of the bounds that `Particle.Update` clamps to is not captured.
- The nodemailer transport and `process.env` credentials are outside the model. The send is an oracle result (`sendOk`); a transport that throws while being created counts as a failed send.
- SendEmail.Handle: the body fields are taken to be strings or absent. A non-string field, or a missing `req.body` (whose destructuring throws before any response), is not modelled.
- The `console.error` call on the failed-send path (api/send-email.js:131) is server-side logging and is not modelled.
- SendEmail.Html keeps only the four values embedded in the HTML template. The markup and styling are not modelled.
