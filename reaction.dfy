/**
 * Reactions, as functions of the store: the spontaneous three-body reaction of
 * `tryFormMolecule` and the forced one of `forceReactionAtPoint`. The class in
 * `Background` performs them in place and is proved to reach these states.
 */
module Reaction {
  import opened Wrappers
  import opened Particle
  import opened Removal
  import opened Explosion
  import opened Activity

  /** A reaction needs a pair closer than 80 units (compared squared). */
  const ReactionDistanceSq: real := 6400.0
  /** The third reagent must lie within 1.5 * 80 = 120 units of both (compared squared). */
  const ThirdDistanceSq: real := 14400.0
  /** A click pulls in particles within 150 units (compared squared). */
  const ForceDistanceSq: real := 22500.0

  datatype Product = CO2 | H2O
  {
    function Symbol(): string { if CO2? then "CO₂" else "H₂O" }
    function Color(): string { if CO2? then "#00ff88" else "#4488ff" }
  }

  /** `(Math.random() - 0.5) * 0.3` */
  function DriftSpeed(r: real): (v: real)
    requires IsDraw(r)
    ensures -0.15 <= v < 0.15
  {
    (r - 0.5) * 0.3
  }

  /** `createMolecule`: the product, a valence-0 pseudo-element, placed at `(x, y)` and active. */
  function Molecule(id: nat, x: real, y: real, product: Product, d: Draws): (m: Particle)
    requires IsDraws(d)
    ensures m.id == id && m.x == x && m.y == y && m.active
    ensures m.element.symbol == product.Symbol() && m.element.symbol !in ElementSymbols
    ensures m.element.valence == 0
    ensures -0.15 <= m.vx < 0.15 && -0.15 <= m.vy < 0.15
  {
    var sym := product.Symbol();
    Particle(id, x, y, DriftSpeed(d.rMoleculeVx), DriftSpeed(d.rMoleculeVy),
             Element(sym, product.Color(), sym, 0), true)
  }

  /** A molecule bonds with nothing, in either role, so it never reacts again. */
  lemma MoleculeIsInert(id: nat, x: real, y: real, product: Product, d: Draws, q: Particle)
    requires IsDraws(d)
    ensures var m := Molecule(id, x, y, product, d); !CanBondWith(m, q) && !CanBondWith(q, m)
  {
    var m := Molecule(id, x, y, product, d);
    MoleculeNeverBonds(m.element.symbol, q.element.symbol);
  }

  /** The store's state that reactions change. */
  datatype Store = Store(particles: seq<Particle>, explosions: seq<Explosion>, nextId: nat)

  /** Every id in the store: free particles and explosion fragments. */
  function AllIds(st: Store): multiset<nat>
  {
    IdBag(st.particles) + FragmentBag(st.explosions)
  }

  /** Each particle is one object: no id occurs twice, and every id was handed out. */
  predicate WellFormed(st: Store)
  {
    forall id | id in AllIds(st) :: AllIds(st)[id] <= 1 && id < st.nextId
  }

  /** Adding new ids to part of a well-formed bag keeps every id unique. */
  lemma AddFresh(before: multiset<nat>, kept: multiset<nat>, newIds: multiset<nat>, oldNext: nat, newNext: nat)
    requires kept <= before
    requires forall id | id in before :: before[id] <= 1 && id < oldNext
    requires forall id | id in newIds :: newIds[id] <= 1 && oldNext <= id < newNext
    requires oldNext <= newNext
    ensures forall id | id in kept + newIds :: (kept + newIds)[id] <= 1 && id < newNext
  {
    forall id | id in kept + newIds ensures (kept + newIds)[id] <= 1 && id < newNext {
      assert kept[id] <= before[id];
      if id < oldNext {
        assert id !in newIds;
      } else {
        assert id !in before;
      }
    }
  }

  /**
   * A store that keeps some of its particles, then gains a burst of `n` fragments
   * and the molecule after them, is well formed again.
   */
  lemma BurstKeepsWellFormed(st: Store, kept: seq<Particle>, e: Explosion, m: Particle, n: nat, sparks: seq<Spark>)
    requires WellFormed(st) && IdBag(kept) <= IdBag(st.particles)
    requires n <= |sparks| && forall s | s in sparks :: IsDraw(s.rElement)
    requires e.fragments == Fragments(e.x, e.y, sparks, n, st.nextId) && m.id == st.nextId + n
    ensures WellFormed(Store(kept + [m], st.explosions + [e], st.nextId + n + 1))
  {
    var fs := e.fragments;
    FreshIds(e.x, e.y, sparks, n, st.nextId, m);
    IdBagAppend(fs, [m]);
    IdBagAppend(kept, [m]);
    FragmentBagPush(st.explosions, e);
    var newIds := IdBag(fs + [m]);
    var keptBag := IdBag(kept) + FragmentBag(st.explosions);
    AddFresh(AllIds(st), keptBag, newIds, st.nextId, st.nextId + n + 1);
    assert AllIds(Store(kept + [m], st.explosions + [e], st.nextId + n + 1)) == keptBag + newIds;
  }

  /**
   * `after` hands out no id again that `before` had already handed out: each such id is
   * carried at most as often as before, so a particle that has gone stays gone, and a
   * new particle is never taken for an old one (object identity in the source).
   */
  predicate NoReissue(before: Store, after: Store)
  {
    && before.nextId <= after.nextId
    && forall id | id in AllIds(after) && id < before.nextId :: AllIds(after)[id] <= AllIds(before)[id]
  }

  /** Keeping part of the particles and adding a burst and its molecule reissues no id. */
  lemma BurstNoReissue(st: Store, kept: seq<Particle>, e: Explosion, m: Particle, n: nat, sparks: seq<Spark>)
    requires IdBag(kept) <= IdBag(st.particles)
    requires n <= |sparks| && forall s | s in sparks :: IsDraw(s.rElement)
    requires e.fragments == Fragments(e.x, e.y, sparks, n, st.nextId) && m.id == st.nextId + n
    ensures NoReissue(st, Store(kept + [m], st.explosions + [e], st.nextId + n + 1))
  {
    var fs := e.fragments;
    FreshIds(e.x, e.y, sparks, n, st.nextId, m);
    IdBagAppend(fs, [m]);
    IdBagAppend(kept, [m]);
    FragmentBagPush(st.explosions, e);
    var newIds := IdBag(fs + [m]);
    var keptBag := IdBag(kept) + FragmentBag(st.explosions);
    var st' := Store(kept + [m], st.explosions + [e], st.nextId + n + 1);
    assert AllIds(st') == keptBag + newIds;
    forall id | id in AllIds(st') && id < st.nextId ensures AllIds(st')[id] <= AllIds(st)[id] {
      assert id !in newIds;
    }
  }

  predicate IsPairOf(p: Particle, q: Particle, a: string, b: string)
  {
    (p.element.symbol == a && q.element.symbol == b) || (p.element.symbol == b && q.element.symbol == a)
  }

  /** Index `k` can complete the pair `i`, `j`: another particle of symbol `sym` within reach of both. */
  predicate ThirdFits(ps: seq<Particle>, i: nat, j: nat, k: nat, sym: string)
    requires i < |ps| && j < |ps| && k < |ps|
  {
    && k != i && k != j && ps[k].element.symbol == sym
    && DistanceSquared(ps[i], ps[k]) < ThirdDistanceSq
    && DistanceSquared(ps[j], ps[k]) < ThirdDistanceSq
  }

  /** The first index from `from` on that completes the pair. */
  function FindThird(ps: seq<Particle>, i: nat, j: nat, sym: string, from: nat): (r: Option<nat>)
    requires i < |ps| && j < |ps| && from <= |ps|
    ensures r.Some? ==> from <= r.value < |ps| && ThirdFits(ps, i, j, r.value, sym)
    ensures r.Some? ==> forall k :: from <= k < r.value ==> !ThirdFits(ps, i, j, k, sym)
    ensures r.None? ==> forall k :: from <= k < |ps| ==> !ThirdFits(ps, i, j, k, sym)
    decreases |ps| - from
  {
    if from == |ps| then None
    else if ThirdFits(ps, i, j, from, sym) then Some(from)
    else FindThird(ps, i, j, sym, from + 1)
  }

  datatype Reaction = Reaction(product: Product, third: nat)

  /**
   * `tryFormMolecule` on the pair `i`, `j`: a C-O pair looks for a second oxygen,
   * and failing that an H-O pair looks for a second hydrogen.
   */
  function ReactionFor(ps: seq<Particle>, i: nat, j: nat): Option<Reaction>
    requires i < |ps| && j < |ps|
  {
    var o := FindThird(ps, i, j, "O", 0);
    var h := FindThird(ps, i, j, "H", 0);
    if IsPairOf(ps[i], ps[j], "C", "O") && o.Some? then Some(Reaction(CO2, o.value))
    else if IsPairOf(ps[i], ps[j], "H", "O") && h.Some? then Some(Reaction(H2O, h.value))
    else None
  }

  /** The symbols a product is made from. */
  function Reagents(product: Product): multiset<string>
  {
    if product.CO2? then multiset{"C", "O", "O"} else multiset{"H", "H", "O"}
  }

  /** The symbol of the third reagent each product looks for. */
  function ThirdSymbol(product: Product): string
  {
    if product.CO2? then "O" else "H"
  }

  /** A reaction is found exactly when some other particle completes the pair's formula within reach of both. */
  lemma ReactionForExists(ps: seq<Particle>, i: nat, j: nat)
    requires i < |ps| && j < |ps|
    ensures ReactionFor(ps, i, j).Some? <==>
      || (IsPairOf(ps[i], ps[j], "C", "O") && exists k :: 0 <= k < |ps| && ThirdFits(ps, i, j, k, "O"))
      || (IsPairOf(ps[i], ps[j], "H", "O") && exists k :: 0 <= k < |ps| && ThirdFits(ps, i, j, k, "H"))
  {
    var o := FindThird(ps, i, j, "O", 0);
    var h := FindThird(ps, i, j, "H", 0);
    if o.Some? {
      assert ThirdFits(ps, i, j, o.value, "O");
    }
    if h.Some? {
      assert ThirdFits(ps, i, j, h.value, "H");
    }
  }

  /**
   * The three reagents of a reaction are distinct particles making up the product's
   * formula, the third within reach of both, and the third is the first such index.
   */
  lemma ReactionForShape(ps: seq<Particle>, i: nat, j: nat)
    requires i < |ps| && j < |ps| && ReactionFor(ps, i, j).Some?
    ensures var r := ReactionFor(ps, i, j).value;
      && r.third < |ps| && r.third != i && r.third != j
      && multiset{ps[i].element.symbol, ps[j].element.symbol, ps[r.third].element.symbol} == Reagents(r.product)
      && DistanceSquared(ps[i], ps[r.third]) < ThirdDistanceSq
      && DistanceSquared(ps[j], ps[r.third]) < ThirdDistanceSq
      && forall k :: 0 <= k < r.third ==> !ThirdFits(ps, i, j, k, ThirdSymbol(r.product))
  {
    var r := ReactionFor(ps, i, j).value;
    var a, b := ps[i].element.symbol, ps[j].element.symbol;
    if r.product.CO2? {
      assert IsPairOf(ps[i], ps[j], "C", "O");
      assert r.third == FindThird(ps, i, j, "O", 0).value;
      if a == "C" {
        assert multiset{a, b, "O"} == multiset{"C", "O", "O"};
      } else {
        assert multiset{a, b, "O"} == multiset{"C", "O", "O"};
      }
    } else {
      assert IsPairOf(ps[i], ps[j], "H", "O");
      assert r.third == FindThird(ps, i, j, "H", 0).value;
      if a == "H" {
        assert multiset{a, b, "H"} == multiset{"H", "H", "O"};
      } else {
        assert multiset{a, b, "H"} == multiset{"H", "H", "O"};
      }
    }
  }

  /** The guard of `checkChemicalReactions` followed by a successful `tryFormMolecule`. */
  predicate Reactive(ps: seq<Particle>, i: nat, j: nat)
    requires i < |ps| && j < |ps|
  {
    DistanceSquared(ps[i], ps[j]) < ReactionDistanceSq && CanBondWith(ps[i], ps[j]) && ReactionFor(ps, i, j).Some?
  }

  /** `(i, j)` is the first reactive pair `i < j` in scan order. */
  predicate FirstReactivePair(ps: seq<Particle>, i: nat, j: nat)
  {
    && i < j < |ps| && Reactive(ps, i, j)
    && forall a, b | 0 <= a < |ps| && a < b < |ps| && ScannedBefore(a, b, i, j) :: !Reactive(ps, a, b)
  }

  /** No pair `a < b` of the store can react. */
  predicate NoReactivePair(ps: seq<Particle>)
  {
    forall a, b | 0 <= a < |ps| && a < b < |ps| :: !Reactive(ps, a, b)
  }

  /** At most one pair reacts per scan. */
  lemma FirstReactivePairUnique(ps: seq<Particle>, i: nat, j: nat, i': nat, j': nat)
    requires FirstReactivePair(ps, i, j) && FirstReactivePair(ps, i', j')
    ensures i == i' && j == j'
  {
  }

  function Centroid(a: real, b: real, c: real): real { (a + b + c) / 3.0 }

  /** The small explosion of a spontaneous reaction at `(x, y)`. */
  function SmallExplosion(x: real, y: real, color: string, d: Draws, firstId: nat): (e: Explosion)
    requires IsDraws(d)
    ensures 1 <= |e.fragments| <= 5 && e.opacity == FullOpacity && e.radius == 5.0 && e.maxRadius == 50.0
  {
    Explosion(x, y, color, 5.0, 50.0, FullOpacity, Fragments(x, y, d.sparks, SmallBurstSize(d.rCount), firstId))
  }

  /** The big explosion of a forced reaction at `(x, y)`. */
  function BigExplosion(x: real, y: real, color: string, d: Draws, firstId: nat): (e: Explosion)
    requires IsDraws(d)
    ensures 7 <= |e.fragments| <= 12 && e.opacity == FullOpacity && e.radius == 10.0 && e.maxRadius == 100.0
  {
    Explosion(x, y, color, 10.0, 100.0, FullOpacity, Fragments(x, y, d.sparks, BigBurstSize(d.rCount), firstId))
  }

  /**
   * The store after the pair `i`, `j` reacts with `r.third`: an explosion at the
   * centroid, the molecule appended, the three reagents spliced out.
   */
  function ApplyReaction(st: Store, i: nat, j: nat, r: Reaction, d: Draws): Store
    requires i < |st.particles| && j < |st.particles| && r.third < |st.particles| && IsDraws(d)
  {
    var ps := st.particles;
    var cx := Centroid(ps[i].x, ps[j].x, ps[r.third].x);
    var cy := Centroid(ps[i].y, ps[j].y, ps[r.third].y);
    var n := SmallBurstSize(d.rCount);
    var e := SmallExplosion(cx, cy, r.product.Color(), d, st.nextId);
    var m := Molecule(st.nextId + n, cx, cy, r.product, d);
    Store(DropIndices(ps, {i, j, r.third}) + [m], st.explosions + [e], st.nextId + n + 1)
  }

  /** In a well-formed store the free particles have distinct ids. */
  lemma WellFormedDistinct(st: Store)
    requires WellFormed(st)
    ensures DistinctIds(st.particles)
  {
    forall id | id in IdBag(st.particles) ensures IdBag(st.particles)[id] <= 1 {
      assert IdBag(st.particles)[id] <= AllIds(st)[id];
    }
  }

  /** A spontaneous reaction leaves the store well formed. */
  lemma ApplyReactionWellFormed(st: Store, i: nat, j: nat, r: Reaction, d: Draws)
    requires WellFormed(st) && i < |st.particles| && j < |st.particles| && r.third < |st.particles| && IsDraws(d)
    ensures WellFormed(ApplyReaction(st, i, j, r, d))
  {
    var ps := st.particles;
    var kept := DropIndices(ps, {i, j, r.third});
    IdBagDrop(ps, {i, j, r.third});
    var cx := Centroid(ps[i].x, ps[j].x, ps[r.third].x);
    var cy := Centroid(ps[i].y, ps[j].y, ps[r.third].y);
    var n := SmallBurstSize(d.rCount);
    var e := SmallExplosion(cx, cy, r.product.Color(), d, st.nextId);
    var m := Molecule(st.nextId + n, cx, cy, r.product, d);
    BurstKeepsWellFormed(st, kept, e, m, n, d.sparks);
    assert ApplyReaction(st, i, j, r, d) == Store(kept + [m], st.explosions + [e], st.nextId + n + 1);
  }

  /** A spontaneous reaction hands out no consumed or existing id again. */
  lemma ApplyReactionNoReissue(st: Store, i: nat, j: nat, r: Reaction, d: Draws)
    requires i < |st.particles| && j < |st.particles| && r.third < |st.particles| && IsDraws(d)
    ensures NoReissue(st, ApplyReaction(st, i, j, r, d))
  {
    var ps := st.particles;
    var kept := DropIndices(ps, {i, j, r.third});
    IdBagDrop(ps, {i, j, r.third});
    var cx := Centroid(ps[i].x, ps[j].x, ps[r.third].x);
    var cy := Centroid(ps[i].y, ps[j].y, ps[r.third].y);
    var n := SmallBurstSize(d.rCount);
    var e := SmallExplosion(cx, cy, r.product.Color(), d, st.nextId);
    var m := Molecule(st.nextId + n, cx, cy, r.product, d);
    BurstNoReissue(st, kept, e, m, n, d.sparks);
    assert ApplyReaction(st, i, j, r, d) == Store(kept + [m], st.explosions + [e], st.nextId + n + 1);
  }

  /**
   * A spontaneous reaction replaces three particles by one molecule (two fewer
   * particles), keeps every other particle in order, adds one explosion of 1 to 5
   * fragments, and leaves the store well formed.
   */
  lemma ApplyReactionEffect(st: Store, i: nat, j: nat, d: Draws)
    requires WellFormed(st) && i < |st.particles| && j < |st.particles| && i != j && IsDraws(d)
    requires ReactionFor(st.particles, i, j).Some?
    ensures var r := ReactionFor(st.particles, i, j).value;
      var ps := st.particles;
      var st' := ApplyReaction(st, i, j, r, d);
      && WellFormed(st')
      && |st'.particles| == |ps| - 2
      && st'.particles[..|st'.particles| - 1] == DropIndices(ps, {i, j, r.third})
      && |st'.explosions| == |st.explosions| + 1 && st'.explosions[..|st.explosions|] == st.explosions
      && 1 <= |st'.explosions[|st.explosions|].fragments| <= 5
      && var m := st'.particles[|st'.particles| - 1];
         m.element.symbol == r.product.Symbol() && m.element.valence == 0 && m.active
         && m.x == Centroid(ps[i].x, ps[j].x, ps[r.third].x)
         && m.y == Centroid(ps[i].y, ps[j].y, ps[r.third].y)
  {
    var r := ReactionFor(st.particles, i, j).value;
    ReactionForShape(st.particles, i, j);
    var ps := st.particles;
    ApplyReactionWellFormed(st, i, j, r, d);
    var kept := DropIndices(ps, {i, j, r.third});
    DropThreeLength(ps, i, j, r.third);
    var st' := ApplyReaction(st, i, j, r, d);
    assert st'.particles == kept + [st'.particles[|kept|]];
    assert st'.particles[..|kept|] == kept;
    assert st'.explosions[..|st.explosions|] == st.explosions;
  }

  /** Particles within reach of a click at `(x, y)`. */
  predicate Near(p: Particle, x: real, y: real)
  {
    (p.x - x) * (p.x - x) + (p.y - y) * (p.y - y) < ForceDistanceSq
  }

  function NearTest(x: real, y: real): Particle -> bool
  {
    (p: Particle) => Near(p, x, y)
  }

  function SymbolTest(sym: string): Particle -> bool
  {
    (p: Particle) => p.element.symbol == sym
  }

  function Nearby(ps: seq<Particle>, x: real, y: real): seq<Particle>
  {
    Select(ps, NearTest(x, y))
  }

  function OfSymbol(ps: seq<Particle>, sym: string): seq<Particle>
  {
    Select(ps, SymbolTest(sym))
  }

  /** Filtering by symbol works one particle at a time. */
  lemma OfSymbolPush(ps: seq<Particle>, p: Particle, sym: string)
    ensures OfSymbol(ps + [p], sym) == OfSymbol(ps, sym) + (if p.element.symbol == sym then [p] else [])
  {
    assert (ps + [p])[..|ps|] == ps;
  }

  /** What a click consumes: a product and its three reagents, in the order the source picks them. */
  datatype Forced = Forced(product: Product, reagents: seq<Particle>)

  /**
   * `forceReactionAtPoint`'s choice: with at least two particles in reach, CO2 takes
   * the first carbon and the first two oxygens in reach; failing that, H2O takes
   * the first two hydrogens and the first oxygen in reach.
   */
  function ForcedChoice(ps: seq<Particle>, x: real, y: real): Option<Forced>
  {
    var near := Nearby(ps, x, y);
    var cs, os, hs := OfSymbol(near, "C"), OfSymbol(near, "O"), OfSymbol(near, "H");
    if |near| < 2 then None
    else if |cs| >= 1 && |os| >= 2 then Some(Forced(CO2, [cs[0], os[0], os[1]]))
    else if |hs| >= 2 && |os| >= 1 then Some(Forced(H2O, [hs[0], hs[1], os[0]]))
    else None
  }

  function ReagentIds(f: Forced): set<nat>
    requires |f.reagents| == 3
  {
    {f.reagents[0].id, f.reagents[1].id, f.reagents[2].id}
  }

  /** The store after a forced reaction at `(x, y)`: reagents removed by identity, molecule, then big explosion. */
  function ApplyForced(st: Store, x: real, y: real, f: Forced, d: Draws): Store
    requires |f.reagents| == 3 && IsDraws(d)
  {
    var n := BigBurstSize(d.rCount);
    var e := BigExplosion(x, y, f.product.Color(), d, st.nextId);
    var m := Molecule(st.nextId + n, x, y, f.product, d);
    Store(RemoveIds(st.particles, ReagentIds(f)) + [m], st.explosions + [e], st.nextId + n + 1)
  }

  /** `forceReactionAtPoint` as a whole: nothing happens when no reaction is chosen. */
  function ForcedResult(st: Store, x: real, y: real, d: Draws): Store
    requires IsDraws(d)
  {
    match ForcedChoice(st.particles, x, y)
    case None => st
    case Some(f) => if |f.reagents| == 3 then ApplyForced(st, x, y, f, d) else st
  }

  /** A selection from a store without repeated ids has no repeated ids either. */
  lemma SelectDistinct(ps: seq<Particle>, f: Particle -> bool)
    requires DistinctIds(ps)
    ensures DistinctIds(Select(ps, f))
  {
    IdBagSelect(ps, f);
    DistinctIdsSub(Select(ps, f), ps);
  }

  /**
   * A forced choice names three distinct particles of the store, all within reach of
   * the click, whose symbols make up the product's formula.
   */
  lemma ForcedChoiceSpec(ps: seq<Particle>, x: real, y: real)
    requires DistinctIds(ps) && ForcedChoice(ps, x, y).Some?
    ensures var f := ForcedChoice(ps, x, y).value;
      && |f.reagents| == 3
      && (forall q | q in f.reagents :: q in ps && Near(q, x, y))
      && multiset{f.reagents[0].element.symbol, f.reagents[1].element.symbol, f.reagents[2].element.symbol}
         == Reagents(f.product)
      && f.reagents[0].id != f.reagents[1].id && f.reagents[0].id != f.reagents[2].id
      && f.reagents[1].id != f.reagents[2].id
  {
    ForcedChoiceMembers(ps, x, y);
    ForcedChoiceDistinct(ps, x, y);
  }

  lemma ForcedChoiceMembers(ps: seq<Particle>, x: real, y: real)
    requires ForcedChoice(ps, x, y).Some?
    ensures var f := ForcedChoice(ps, x, y).value;
      && |f.reagents| == 3
      && (forall q | q in f.reagents :: q in ps && Near(q, x, y))
      && multiset{f.reagents[0].element.symbol, f.reagents[1].element.symbol, f.reagents[2].element.symbol}
         == Reagents(f.product)
  {
    var near := Nearby(ps, x, y);
    var cs, os, hs := OfSymbol(near, "C"), OfSymbol(near, "O"), OfSymbol(near, "H");
    var f := ForcedChoice(ps, x, y).value;
    var a, b, c := f.reagents[0], f.reagents[1], f.reagents[2];
    if f.product.CO2? {
      assert a == cs[0] && b == os[0] && c == os[1];
      assert a in cs && b in os && c in os;
      assert a.element.symbol == "C" && b.element.symbol == "O" && c.element.symbol == "O";
    } else {
      assert a == hs[0] && b == hs[1] && c == os[0];
      assert a in hs && b in hs && c in os;
      assert a.element.symbol == "H" && b.element.symbol == "H" && c.element.symbol == "O";
    }
    assert a in near && b in near && c in near;
    assert f.reagents == [a, b, c];
  }

  lemma ForcedChoiceDistinct(ps: seq<Particle>, x: real, y: real)
    requires DistinctIds(ps) && ForcedChoice(ps, x, y).Some?
    ensures var f := ForcedChoice(ps, x, y).value;
      && |f.reagents| == 3
      && f.reagents[0].id != f.reagents[1].id && f.reagents[0].id != f.reagents[2].id
      && f.reagents[1].id != f.reagents[2].id
  {
    var near := Nearby(ps, x, y);
    SelectDistinct(ps, NearTest(x, y));
    var cs, os, hs := OfSymbol(near, "C"), OfSymbol(near, "O"), OfSymbol(near, "H");
    SelectDistinct(near, SymbolTest("O"));
    SelectDistinct(near, SymbolTest("H"));
    if |os| >= 2 && os[0].id == os[1].id {
      DistinctIdsAt(os, 0, 1);
    }
    if |hs| >= 2 && hs[0].id == hs[1].id {
      DistinctIdsAt(hs, 0, 1);
    }
    var f := ForcedChoice(ps, x, y).value;
    if f.product.CO2? {
      assert cs[0] in cs && os[0] in os && os[1] in os;
      if cs[0].id == os[0].id {
        DistinctMembers(near, cs[0], os[0]);
      }
      if cs[0].id == os[1].id {
        DistinctMembers(near, cs[0], os[1]);
      }
    } else {
      assert hs[0] in hs && hs[1] in hs && os[0] in os;
      if hs[0].id == os[0].id {
        DistinctMembers(near, hs[0], os[0]);
      }
      if hs[1].id == os[0].id {
        DistinctMembers(near, hs[1], os[0]);
      }
    }
  }

  /** A forced reaction leaves the store well formed. */
  lemma ApplyForcedWellFormed(st: Store, x: real, y: real, f: Forced, d: Draws)
    requires WellFormed(st) && IsDraws(d) && |f.reagents| == 3
    ensures WellFormed(ApplyForced(st, x, y, f, d))
  {
    var kept := RemoveIds(st.particles, ReagentIds(f));
    IdBagRemoveIds(st.particles, ReagentIds(f));
    var n := BigBurstSize(d.rCount);
    var e := BigExplosion(x, y, f.product.Color(), d, st.nextId);
    var m := Molecule(st.nextId + n, x, y, f.product, d);
    BurstKeepsWellFormed(st, kept, e, m, n, d.sparks);
    assert ApplyForced(st, x, y, f, d) == Store(kept + [m], st.explosions + [e], st.nextId + n + 1);
  }

  /** A forced reaction hands out no consumed or existing id again. */
  lemma ApplyForcedNoReissue(st: Store, x: real, y: real, f: Forced, d: Draws)
    requires IsDraws(d) && |f.reagents| == 3
    ensures NoReissue(st, ApplyForced(st, x, y, f, d))
  {
    var kept := RemoveIds(st.particles, ReagentIds(f));
    IdBagRemoveIds(st.particles, ReagentIds(f));
    var n := BigBurstSize(d.rCount);
    var e := BigExplosion(x, y, f.product.Color(), d, st.nextId);
    var m := Molecule(st.nextId + n, x, y, f.product, d);
    BurstNoReissue(st, kept, e, m, n, d.sparks);
    assert ApplyForced(st, x, y, f, d) == Store(kept + [m], st.explosions + [e], st.nextId + n + 1);
  }

  /** Nor does `forceReactionAtPoint` as a whole. */
  lemma ForcedResultNoReissue(st: Store, x: real, y: real, d: Draws)
    requires IsDraws(d)
    ensures NoReissue(st, ForcedResult(st, x, y, d))
  {
    match ForcedChoice(st.particles, x, y)
    case None =>
    case Some(f) =>
      if |f.reagents| == 3 {
        ApplyForcedNoReissue(st, x, y, f, d);
      }
  }

  /** Removing three distinct particles by identity keeps exactly the others. */
  lemma RemoveTriple(ps: seq<Particle>, rs: seq<Particle>)
    requires DistinctIds(ps) && |rs| == 3 && forall q | q in rs :: q in ps
    requires rs[0].id != rs[1].id && rs[0].id != rs[2].id && rs[1].id != rs[2].id
    ensures var kept := RemoveIds(ps, {rs[0].id, rs[1].id, rs[2].id});
      && |kept| == |ps| - 3
      && forall q :: q in kept <==> q in ps && q !in rs
  {
    var ids := {rs[0].id, rs[1].id, rs[2].id};
    var kept := RemoveIds(ps, ids);
    assert rs[0] in rs && rs[1] in rs && rs[2] in rs;
    RemoveThree(ps, rs[0], rs[1], rs[2]);
    forall q ensures q in kept <==> q in ps && q !in rs {
      RemoveIdsMembers(ps, ids, q);
      if q in ps && q.id in ids {
        var a :| 0 <= a < |ps| && ps[a] == q;
        var t :| 0 <= t < 3 && rs[t].id == q.id;
        var b :| 0 <= b < |ps| && ps[b] == rs[t];
        DistinctIdsAt(ps, a, b);
      }
    }
  }

  /** Removing the chosen reagents by identity removes those three and keeps every other particle. */
  lemma RemoveReagents(ps: seq<Particle>, x: real, y: real)
    requires DistinctIds(ps) && ForcedChoice(ps, x, y).Some?
    ensures var f := ForcedChoice(ps, x, y).value;
      && |f.reagents| == 3
      && var kept := RemoveIds(ps, ReagentIds(f));
      && |kept| == |ps| - 3
      && forall q :: q in kept <==> q in ps && q !in f.reagents
  {
    ForcedChoiceSpec(ps, x, y);
    RemoveTriple(ps, ForcedChoice(ps, x, y).value.reagents);
  }

  /** The positions of the store that hold the reagents. */
  function ReagentIndices(ps: seq<Particle>, f: Forced): set<int>
    requires |f.reagents| == 3
  {
    set k | 0 <= k < |ps| && ps[k].id in ReagentIds(f)
  }

  /**
   * A forced reaction removes exactly its three reagents (net two fewer particles),
   * keeps every other particle in order, appends one explosion of 7 to 12 fragments
   * after the old ones, places the inert molecule at the click, and leaves the store
   * well formed.
   */
  lemma ApplyForcedEffect(st: Store, x: real, y: real, d: Draws)
    requires WellFormed(st) && IsDraws(d) && ForcedChoice(st.particles, x, y).Some?
    ensures var f := ForcedChoice(st.particles, x, y).value;
      var st' := ForcedResult(st, x, y, d);
      && WellFormed(st')
      && |st'.particles| == |st.particles| - 2
      && (forall q :: q in st'.particles[..|st'.particles| - 1] <==> q in st.particles && q !in f.reagents)
      && st'.particles[..|st'.particles| - 1] == DropIndices(st.particles, ReagentIndices(st.particles, f))
      && |st'.explosions| == |st.explosions| + 1 && st'.explosions[..|st.explosions|] == st.explosions
      && 7 <= |st'.explosions[|st.explosions|].fragments| <= 12
      && var m := st'.particles[|st'.particles| - 1];
         m.x == x && m.y == y && m.active && m.element.symbol == f.product.Symbol() && m.element.valence == 0
  {
    var ps := st.particles;
    var f := ForcedChoice(ps, x, y).value;
    WellFormedDistinct(st);
    RemoveReagents(ps, x, y);
    ApplyForcedWellFormed(st, x, y, f, d);
    var kept := RemoveIds(ps, ReagentIds(f));
    RemoveIdsIsDrop(ps, ReagentIds(f), ReagentIndices(ps, f));
    var st' := ApplyForced(st, x, y, f, d);
    assert ForcedResult(st, x, y, d) == st';
    assert st'.particles[..|kept|] == kept;
    assert st'.explosions[..|st.explosions|] == st.explosions;
  }

  /** Selecting twice is selecting by both tests at once. */
  lemma {:induction false} SelectTwice(ps: seq<Particle>, f: Particle -> bool, g: Particle -> bool, h: Particle -> bool)
    requires forall p :: h(p) == (f(p) && g(p))
    ensures Select(Select(ps, f), g) == Select(ps, h)
  {
    if ps != [] {
      var n := |ps| - 1;
      SelectTwice(ps[..n], f, g, h);
      var front := Select(ps[..n], f);
      if f(ps[n]) {
        assert Select(ps, f) == front + [ps[n]];
        assert (front + [ps[n]])[..|front|] == front;
      } else {
        assert Select(ps, f) == front;
      }
    }
  }

  function NearSymbolTest(x: real, y: real, sym: string): Particle -> bool
  {
    (p: Particle) => Near(p, x, y) && p.element.symbol == sym
  }

  /**
   * The `t`-th particle of a symbol within reach of a click (from 0) is the one with
   * exactly `t` such particles before it in the store: a click takes reagents in store order.
   */
  lemma ForcedReagentRank(ps: seq<Particle>, x: real, y: real, sym: string, t: nat)
    requires t < |OfSymbol(Nearby(ps, x, y), sym)|
    ensures exists idx ::
      && 0 <= idx < |ps| && ps[idx] == OfSymbol(Nearby(ps, x, y), sym)[t]
      && Near(ps[idx], x, y) && ps[idx].element.symbol == sym
      && |Select(ps[..idx], NearSymbolTest(x, y, sym))| == t
  {
    SelectTwice(ps, NearTest(x, y), SymbolTest(sym), NearSymbolTest(x, y, sym));
    SelectOrder(ps, NearSymbolTest(x, y, sym), t);
    var idx :| 0 <= idx < |ps| && ps[idx] == Select(ps, NearSymbolTest(x, y, sym))[t]
      && |Select(ps[..idx], NearSymbolTest(x, y, sym))| == t;
    assert ps[idx] in Select(ps, NearSymbolTest(x, y, sym));
  }

  /** The three particles of the worked example: a carbon between two oxygens. */
  function ExampleStore(): Store
  {
    Store([Particle(0, 10.0, 10.0, 0.0, 0.0, Catalog[0], false),
           Particle(1, 15.0, 10.0, 0.0, 0.0, Catalog[2], false),
           Particle(2, 20.0, 10.0, 0.0, 0.0, Catalog[2], false)], [], 3)
  }

  lemma ExampleNearby()
    ensures Nearby(ExampleStore().particles, 15.0, 10.0) == ExampleStore().particles
  {
    var ps := ExampleStore().particles;
    var c, o1, o2 := ps[0], ps[1], ps[2];
    assert ps[..2] == [c, o1] && [c, o1][..1] == [c] && [c][..0] == [];
    var near := NearTest(15.0, 10.0);
    assert near(c) && near(o1) && near(o2);
    assert Select([c], near) == [c];
    assert Select([c, o1], near) == [c, o1];
  }

  lemma ExampleBySymbol()
    ensures var ps := ExampleStore().particles;
      OfSymbol(ps, "C") == [ps[0]] && OfSymbol(ps, "O") == [ps[1], ps[2]]
  {
    ExampleCarbons();
    ExampleOxygens();
  }

  lemma ExampleCarbons()
    ensures var ps := ExampleStore().particles; OfSymbol(ps, "C") == [ps[0]]
  {
    var ps := ExampleStore().particles;
    var c, o1 := ps[0], ps[1];
    assert ps[..2] == [c, o1] && [c, o1][..1] == [c] && [c][..0] == [];
    var isC := SymbolTest("C");
    assert isC(c) && !isC(o1) && !isC(ps[2]);
    assert Select([c], isC) == [c];
    assert Select([c, o1], isC) == [c];
  }

  lemma ExampleOxygens()
    ensures var ps := ExampleStore().particles; OfSymbol(ps, "O") == [ps[1], ps[2]]
  {
    var ps := ExampleStore().particles;
    var c, o1 := ps[0], ps[1];
    assert ps[..2] == [c, o1] && [c, o1][..1] == [c] && [c][..0] == [];
    var isO := SymbolTest("O");
    assert !isO(c) && isO(o1) && isO(ps[2]);
    assert Select([c], isO) == [];
    assert Select([c, o1], isO) == [o1];
  }

  lemma ExampleChoice()
    ensures ForcedChoice(ExampleStore().particles, 15.0, 10.0)
      == Some(Forced(CO2, ExampleStore().particles))
  {
    ExampleNearby();
    ExampleBySymbol();
  }

  lemma ExampleWellFormed()
    ensures WellFormed(ExampleStore())
  {
    var st := ExampleStore();
    assert Ids(st.particles) == [0, 1, 2];
    var bag: multiset<nat> := multiset{0, 1, 2};
    assert AllIds(st) == bag;
    forall id | id in bag ensures bag[id] <= 1 && id < 3 {
      assert id == 0 || id == 1 || id == 2;
    }
  }

  /**
   * Clicking at (15, 10) next to a carbon at (10, 10) and oxygens at (15, 10) and
   * (20, 10) leaves a single CO2 molecule and one explosion.
   */
  lemma ForcedExample(d: Draws)
    requires IsDraws(d)
    ensures var st' := ForcedResult(ExampleStore(), 15.0, 10.0, d);
      |st'.particles| == 1 && st'.particles[0].element.symbol == "CO₂" && |st'.explosions| == 1
  {
    ExampleChoice();
    ExampleWellFormed();
    ApplyForcedEffect(ExampleStore(), 15.0, 10.0, d);
  }

  /** `updateExplosions` keeps the store well formed: fragments move from explosions to the store. */
  lemma AgeingKeepsWellFormed(st: Store)
    requires WellFormed(st)
    ensures WellFormed(Store(st.particles + Released(st.explosions), Survivors(st.explosions), st.nextId))
  {
    UpdateConservesIds(st.explosions);
    IdBagAppend(st.particles, Released(st.explosions));
    assert AllIds(Store(st.particles + Released(st.explosions), Survivors(st.explosions), st.nextId)) == AllIds(st);
  }
}
