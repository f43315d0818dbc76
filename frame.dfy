/**
 * One frame of `animate` as a function of the store: the proximity pass, the reaction
 * scan on every twentieth frame, the ageing of the explosions and the motion step.
 */
module Frame {
  import opened Wrappers
  import opened Particle
  import opened Removal
  import opened Explosion
  import opened Activity
  import opened Reaction

  /**
   * The nested loops of `checkChemicalReactions`, resumed at pair `(i, j)` when no
   * earlier pair reacts: the first reactive pair, or nothing.
   */
  function ScanFrom(ps: seq<Particle>, i: nat, j: nat): (r: Option<(nat, nat)>)
    requires i < j
    requires forall a, b | 0 <= a < |ps| && a < b < |ps| && ScannedBefore(a, b, i, j) :: !Reactive(ps, a, b)
    ensures r.None? ==> NoReactivePair(ps)
    ensures r.Some? ==> FirstReactivePair(ps, r.value.0, r.value.1)
    decreases |ps| - i, |ps| - j
  {
    if i >= |ps| then
      ScanDone(ps, i, j);
      None
    else if j >= |ps| then
      ScanNextRow(ps, i, j);
      ScanFrom(ps, i + 1, i + 2)
    else if Reactive(ps, i, j) then Some((i, j))
    else
      ScanNextPair(ps, i, j);
      ScanFrom(ps, i, j + 1)
  }

  /** Every pair `a < b` comes before `(i, j)` once `i` is past the last row. */
  lemma ScanDone(ps: seq<Particle>, i: nat, j: nat)
    requires |ps| <= i
    requires forall a, b | 0 <= a < |ps| && a < b < |ps| && ScannedBefore(a, b, i, j) :: !Reactive(ps, a, b)
    ensures NoReactivePair(ps)
  {
    forall a, b | 0 <= a < |ps| && a < b < |ps| ensures !Reactive(ps, a, b) {
      assert ScannedBefore(a, b, i, j);
    }
  }

  /** A finished row `i` leaves the scan at the start of row `i + 1`. */
  lemma ScanNextRow(ps: seq<Particle>, i: nat, j: nat)
    requires i < |ps| <= j
    requires forall a, b | 0 <= a < |ps| && a < b < |ps| && ScannedBefore(a, b, i, j) :: !Reactive(ps, a, b)
    ensures forall a, b | 0 <= a < |ps| && a < b < |ps| && ScannedBefore(a, b, i + 1, i + 2) :: !Reactive(ps, a, b)
  {
    forall a, b | 0 <= a < |ps| && a < b < |ps| && ScannedBefore(a, b, i + 1, i + 2) ensures !Reactive(ps, a, b) {
      assert ScannedBefore(a, b, i, j);
    }
  }

  /** A pair that does not react moves the scan one pair on. */
  lemma ScanNextPair(ps: seq<Particle>, i: nat, j: nat)
    requires i < j < |ps| && !Reactive(ps, i, j)
    requires forall a, b | 0 <= a < |ps| && a < b < |ps| && ScannedBefore(a, b, i, j) :: !Reactive(ps, a, b)
    ensures forall a, b | 0 <= a < |ps| && a < b < |ps| && ScannedBefore(a, b, i, j + 1) :: !Reactive(ps, a, b)
  {
    forall a, b | 0 <= a < |ps| && a < b < |ps| && ScannedBefore(a, b, i, j + 1) ensures !Reactive(ps, a, b) {
      if a != i || b != j {
        assert ScannedBefore(a, b, i, j);
      }
    }
  }

  /** The pair `checkChemicalReactions` lets react: the first reactive pair in scan order, if any. */
  function FirstReaction(ps: seq<Particle>): (r: Option<(nat, nat)>)
    ensures r.None? <==> NoReactivePair(ps)
    ensures r.Some? ==> FirstReactivePair(ps, r.value.0, r.value.1)
  {
    ScanFrom(ps, 0, 1)
  }

  /** The store after `checkChemicalReactions`: unchanged, or the first reactive pair has reacted. */
  function ReactionStep(st: Store, d: Draws): Store
    requires IsDraws(d)
  {
    match FirstReaction(st.particles)
    case None => st
    case Some((i, j)) =>
      ReactionForShape(st.particles, i, j);
      ApplyReaction(st, i, j, ReactionFor(st.particles, i, j).value, d)
  }

  /** `updateExplosions`: survivors advance, and the others' fragments join the particles. */
  function Aged(st: Store): Store
  {
    Store(st.particles + Released(st.explosions), Survivors(st.explosions), st.nextId)
  }

  /** The update loop of `animate`: every particle takes one motion step. */
  function Moved(ps: seq<Particle>, width: real, height: real): (r: seq<Particle>)
    requires 0.0 <= width && 0.0 <= height
    ensures |r| == |ps| && forall k :: 0 <= k < |ps| ==> r[k] == Update(ps[k], width, height)
  {
    seq(|ps|, k requires 0 <= k < |ps| => Update(ps[k], width, height))
  }

  /** The flags after the proximity pass; nothing else changes. */
  function Lit(st: Store, dragged: Option<nat>): Store
  {
    st.(particles := ActivePass(st.particles, dragged))
  }

  /** One frame, with `react` telling whether it is a twentieth frame. */
  function FrameStore(st: Store, dragged: Option<nat>, react: bool, d: Draws, width: real, height: real): Store
    requires IsDraws(d) && 0.0 <= width && 0.0 <= height
  {
    var lit := Lit(st, dragged);
    var aged := Aged(if react then ReactionStep(lit, d) else lit);
    aged.(particles := Moved(aged.particles, width, height))
  }

  lemma ReactionStepWellFormed(st: Store, d: Draws)
    requires WellFormed(st) && IsDraws(d)
    ensures WellFormed(ReactionStep(st, d))
  {
    match FirstReaction(st.particles)
    case None =>
    case Some((i, j)) =>
      ReactionForShape(st.particles, i, j);
      ApplyReactionWellFormed(st, i, j, ReactionFor(st.particles, i, j).value, d);
  }

  /** The proximity pass and the motion step keep every id where it was. */
  lemma LitIds(st: Store, dragged: Option<nat>)
    ensures AllIds(Lit(st, dragged)) == AllIds(st)
  {
    IdBagSameIds(ActivePass(st.particles, dragged), st.particles);
  }

  lemma MovedIds(ps: seq<Particle>, width: real, height: real)
    requires 0.0 <= width && 0.0 <= height
    ensures IdBag(Moved(ps, width, height)) == IdBag(ps)
  {
    IdBagSameIds(Moved(ps, width, height), ps);
  }

  /**
   * A frame keeps the store well formed: no particle or fragment shares an id, and every
   * id was handed out. Afterwards every free particle is on the canvas.
   */
  lemma FrameWellFormed(st: Store, dragged: Option<nat>, react: bool, d: Draws, width: real, height: real)
    requires WellFormed(st) && IsDraws(d) && 0.0 <= width && 0.0 <= height
    ensures WellFormed(FrameStore(st, dragged, react, d, width, height))
    ensures forall p | p in FrameStore(st, dragged, react, d, width, height).particles :: InBounds(p, width, height)
  {
    var lit := Lit(st, dragged);
    LitIds(st, dragged);
    var reacted := if react then ReactionStep(lit, d) else lit;
    if react {
      ReactionStepWellFormed(lit, d);
    }
    var aged := Aged(reacted);
    AgeingKeepsWellFormed(reacted);
    MovedIds(aged.particles, width, height);
    assert AllIds(FrameStore(st, dragged, react, d, width, height)) == AllIds(aged);
  }

  /**
   * A frame without a reaction neither creates nor loses a particle or a fragment: the
   * ids in the store are the same multiset, and no id is handed out.
   */
  lemma QuietFrameKeepsIds(st: Store, dragged: Option<nat>, react: bool, d: Draws, width: real, height: real)
    requires IsDraws(d) && 0.0 <= width && 0.0 <= height
    requires !react || NoReactivePair(ActivePass(st.particles, dragged))
    ensures AllIds(FrameStore(st, dragged, react, d, width, height)) == AllIds(st)
    ensures FrameStore(st, dragged, react, d, width, height).nextId == st.nextId
  {
    var lit := Lit(st, dragged);
    LitIds(st, dragged);
    UpdateConservesIds(lit.explosions);
    IdBagAppend(lit.particles, Released(lit.explosions));
    var aged := Aged(lit);
    MovedIds(aged.particles, width, height);
  }

  /** The reaction scan hands out no id again. */
  lemma ReactionStepNoReissue(st: Store, d: Draws)
    requires IsDraws(d)
    ensures NoReissue(st, ReactionStep(st, d))
  {
    match FirstReaction(st.particles)
    case None =>
    case Some((i, j)) =>
      ReactionForShape(st.particles, i, j);
      ApplyReactionNoReissue(st, i, j, ReactionFor(st.particles, i, j).value, d);
  }

  /** Nor does a whole frame: the flags, ageing and motion keep every id, the reaction adds only fresh ones. */
  lemma FrameNoReissue(st: Store, dragged: Option<nat>, react: bool, d: Draws, width: real, height: real)
    requires IsDraws(d) && 0.0 <= width && 0.0 <= height
    ensures NoReissue(st, FrameStore(st, dragged, react, d, width, height))
  {
    var lit := Lit(st, dragged);
    LitIds(st, dragged);
    var reacted := if react then ReactionStep(lit, d) else lit;
    if react {
      ReactionStepNoReissue(lit, d);
    }
    var aged := Aged(reacted);
    UpdateConservesIds(reacted.explosions);
    IdBagAppend(reacted.particles, Released(reacted.explosions));
    assert AllIds(aged) == AllIds(reacted);
    MovedIds(aged.particles, width, height);
    assert AllIds(FrameStore(st, dragged, react, d, width, height)) == AllIds(aged);
  }

  /**
   * A dragged particle that has been consumed is never found again: once no particle
   * carries its id, no particle carries it after any step that reissues no id, so a
   * move or a release through that id touches nothing.
   */
  lemma ConsumedDragStaysGone(st: Store, st': Store, dragged: nat)
    requires NoReissue(st, st') && dragged < st.nextId && dragged !in AllIds(st)
    ensures forall p | p in st'.particles :: p.id != dragged
  {
    forall p | p in st'.particles ensures p.id != dragged {
      var k :| 0 <= k < |st'.particles| && st'.particles[k] == p;
      IdBagMember(st'.particles, p.id);
      assert p.id in AllIds(st');
    }
  }
}
