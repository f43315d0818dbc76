/**
 * The proximity pass of `animate`: every particle except the dragged one is reset
 * to inactive, then each pair that may bond and lies within 120 units lights up both.
 */
module Activity {
  import opened Wrappers
  import opened Particle
  import opened Removal

  /** Two particles light each other up: they may bond and are closer than 120 (compared squared). */
  predicate Bonded(p: Particle, q: Particle)
  {
    CanBondWith(p, q) && DistanceSquared(p, q) < 14400.0
  }

  lemma BondedSymmetric(p: Particle, q: Particle)
    ensures Bonded(p, q) == Bonded(q, p)
  {
    CanBondSymmetric(p.element.symbol, q.element.symbol);
    DistanceSquaredSymmetric(p, q);
  }

  function Abs(v: real): real { if v < 0.0 then -v else v }

  /** The pass skips pairs more than 120 apart on either axis; no such pair is bonded. */
  lemma PrefilterSound(p: Particle, q: Particle)
    requires Abs(p.x - q.x) > 120.0 || Abs(p.y - q.y) > 120.0
    ensures !Bonded(p, q)
  {
    var dx, dy := p.x - q.x, p.y - q.y;
    SquareNonNegative(dx);
    SquareNonNegative(dy);
    if Abs(dx) > 120.0 {
      SquareExceeds(dx, 120.0);
    } else {
      SquareExceeds(dy, 120.0);
    }
  }

  lemma SquareNonNegative(v: real)
    ensures v * v >= 0.0
  {
    if v < 0.0 {
      MulPositive(-v, -v);
    } else {
      MulNonNegative(v, v);
    }
  }

  /** A coordinate difference beyond `bound` has a square beyond `bound * bound`. */
  lemma SquareExceeds(v: real, bound: real)
    requires 0.0 <= bound < Abs(v)
    ensures v * v > bound * bound
  {
    var a := Abs(v);
    assert v * v == a * a;
    MulPositive(a - bound, a + bound);
    assert (a - bound) * (a + bound) == a * a - bound * bound;
  }

  /** Some other particle of the store is bonded with `ps[k]`. */
  predicate HasBondPartner(ps: seq<Particle>, k: nat)
    requires k < |ps|
  {
    exists m :: 0 <= m < |ps| && m != k && Bonded(ps[k], ps[m])
  }

  /** The dragged particle keeps its flag through the reset; every other particle loses it. */
  predicate KeptActive(p: Particle, dragged: Option<nat>)
  {
    dragged == Some(p.id) && p.active
  }

  /** A particle's flag after the pass. */
  predicate ActiveAfterPass(ps: seq<Particle>, dragged: Option<nat>, k: nat)
    requires k < |ps|
  {
    KeptActive(ps[k], dragged) || HasBondPartner(ps, k)
  }

  /** The store after the pass: only the `active` flags change. */
  function ActivePass(ps: seq<Particle>, dragged: Option<nat>): (r: seq<Particle>)
    ensures |r| == |ps|
    ensures forall k :: 0 <= k < |ps| ==> r[k] == ps[k].(active := ActiveAfterPass(ps, dragged, k))
  {
    seq(|ps|, k requires 0 <= k < |ps| => ps[k].(active := ActiveAfterPass(ps, dragged, k)))
  }

  /**
   * Bonding lights up both partners: if `ps[k]` and `ps[m]` are bonded then both are
   * active after the pass, and a particle that is not dragged is active only when it
   * has a partner.
   */
  lemma ActivePassSpec(ps: seq<Particle>, dragged: Option<nat>, k: nat, m: nat)
    requires k < |ps| && m < |ps|
    ensures k != m && Bonded(ps[k], ps[m]) ==> ActivePass(ps, dragged)[k].active && ActivePass(ps, dragged)[m].active
    ensures dragged != Some(ps[k].id) ==> (ActivePass(ps, dragged)[k].active <==> HasBondPartner(ps, k))
  {
    if k != m && Bonded(ps[k], ps[m]) {
      BondedSymmetric(ps[k], ps[m]);
      assert HasBondPartner(ps, k);
      assert HasBondPartner(ps, m);
    }
  }

  /** A molecule (a symbol outside the catalogue) is never lit up by proximity. */
  lemma MoleculeStaysDark(ps: seq<Particle>, dragged: Option<nat>, k: nat)
    requires k < |ps| && ps[k].element.symbol !in ElementSymbols && dragged != Some(ps[k].id)
    ensures !ActivePass(ps, dragged)[k].active
  {
    forall m | 0 <= m < |ps| && m != k ensures !Bonded(ps[k], ps[m]) {
      MoleculeNeverBonds(ps[k].element.symbol, ps[m].element.symbol);
    }
  }

  /**
   * `(a, b)` with `a < b` comes before `(i, j)` in the order in which the nested
   * loops of the proximity pass and of `checkChemicalReactions` visit pairs.
   */
  predicate ScannedBefore(a: int, b: int, i: int, j: int)
  {
    a < i || (a == i && b < j)
  }

  /** Some partner of `ps[k]` lies in a pair that the scan standing at `(i, j)` has already examined. */
  predicate ScannedPartner(ps: seq<Particle>, k: nat, i: nat, j: nat)
    requires k < |ps|
  {
    exists m :: 0 <= m < |ps| && m != k && Bonded(ps[k], ps[m]) && ScannedBefore(MinInt(k, m), MaxInt(k, m), i, j)
  }

  /** Examining the pair `(i, j)` adds exactly that pair's partners. */
  lemma ScanStep(ps: seq<Particle>, i: nat, j: nat, k: nat)
    requires i < j < |ps| && k < |ps|
    ensures ScannedPartner(ps, k, i, j + 1) <==>
      ScannedPartner(ps, k, i, j) || ((k == i || k == j) && Bonded(ps[i], ps[j]))
  {
    BondedSymmetric(ps[i], ps[j]);
    if ScannedPartner(ps, k, i, j + 1) && !ScannedPartner(ps, k, i, j) {
      var m :| 0 <= m < |ps| && m != k && Bonded(ps[k], ps[m]) && ScannedBefore(MinInt(k, m), MaxInt(k, m), i, j + 1);
      assert MinInt(k, m) == i && MaxInt(k, m) == j;
    }
    if k == i && Bonded(ps[i], ps[j]) {
      assert ScannedBefore(MinInt(k, j), MaxInt(k, j), i, j + 1);
    }
    if k == j && Bonded(ps[i], ps[j]) {
      assert ScannedBefore(MinInt(k, i), MaxInt(k, i), i, j + 1);
    }
  }

  /** Finishing row `i` is starting row `i + 1`. */
  lemma ScanRow(ps: seq<Particle>, i: nat, k: nat)
    requires i < |ps| && k < |ps|
    ensures ScannedPartner(ps, k, i, |ps|) <==> ScannedPartner(ps, k, i + 1, i + 2)
  {
    if ScannedPartner(ps, k, i + 1, i + 2) {
      var m :| 0 <= m < |ps| && m != k && Bonded(ps[k], ps[m]) && ScannedBefore(MinInt(k, m), MaxInt(k, m), i + 1, i + 2);
      assert ScannedBefore(MinInt(k, m), MaxInt(k, m), i, |ps|);
    }
  }

  /** Before the scan no pair is examined; after the last row every pair is. */
  lemma ScanEnds(ps: seq<Particle>, k: nat)
    requires k < |ps|
    ensures !ScannedPartner(ps, k, 0, 1)
    ensures ScannedPartner(ps, k, |ps|, |ps| + 1) <==> HasBondPartner(ps, k)
  {
    if HasBondPartner(ps, k) {
      var m :| 0 <= m < |ps| && m != k && Bonded(ps[k], ps[m]);
      assert ScannedBefore(MinInt(k, m), MaxInt(k, m), |ps|, |ps| + 1);
    }
  }

  /** After the reset, before the scan: only the dragged particle may still be active. */
  predicate ResetDone(cur: seq<Particle>, ps: seq<Particle>, dragged: Option<nat>)
  {
    |cur| == |ps| && forall m :: 0 <= m < |ps| ==> cur[m] == ps[m].(active := KeptActive(ps[m], dragged))
  }

  /** The flags while the scan stands at `(i, j)`: the reset flag, or a partner already examined. */
  predicate ScanState(cur: seq<Particle>, ps: seq<Particle>, dragged: Option<nat>, i: nat, j: nat)
  {
    |cur| == |ps| && forall m :: 0 <= m < |ps| ==>
      cur[m] == ps[m].(active := KeptActive(ps[m], dragged) || ScannedPartner(ps, m, i, j))
  }

  /** Both particles of the pair light up. */
  function LightPair(cur: seq<Particle>, i: nat, j: nat): seq<Particle>
    requires i < |cur| && j < |cur|
  {
    cur[i := cur[i].(active := true)][j := cur[j].(active := true)]
  }

  /** Whether two particles are bonded does not depend on their `active` flags. */
  lemma BondedIgnoresFlags(p: Particle, q: Particle, a: bool, b: bool)
    ensures Bonded(p.(active := a), q.(active := b)) == Bonded(p, q)
  {
    assert DistanceSquared(p.(active := a), q.(active := b)) == DistanceSquared(p, q);
  }

  lemma ScanStart(cur: seq<Particle>, ps: seq<Particle>, dragged: Option<nat>)
    requires ResetDone(cur, ps, dragged)
    ensures ScanState(cur, ps, dragged, 0, 1)
  {
    forall m | 0 <= m < |ps| ensures !ScannedPartner(ps, m, 0, 1) {
      ScanEnds(ps, m);
    }
  }

  /**
   * Examining `(i, j)` in the current flags is examining it in the original store, and
   * lighting the pair exactly when it is bonded moves the scan one pair on.
   */
  lemma ScanPairStep(cur: seq<Particle>, ps: seq<Particle>, dragged: Option<nat>, i: nat, j: nat)
    requires i < j < |ps| && ScanState(cur, ps, dragged, i, j)
    ensures Bonded(cur[i], cur[j]) == Bonded(ps[i], ps[j])
    ensures ScanState(if Bonded(ps[i], ps[j]) then LightPair(cur, i, j) else cur, ps, dragged, i, j + 1)
  {
    assert cur[i] == ps[i].(active := cur[i].active) && cur[j] == ps[j].(active := cur[j].active);
    BondedIgnoresFlags(ps[i], ps[j], cur[i].active, cur[j].active);
    var next := if Bonded(ps[i], ps[j]) then LightPair(cur, i, j) else cur;
    forall m | 0 <= m < |ps|
      ensures next[m] == ps[m].(active := KeptActive(ps[m], dragged) || ScannedPartner(ps, m, i, j + 1))
    {
      ScanStep(ps, i, j, m);
    }
  }

  lemma ScanRowStep(cur: seq<Particle>, ps: seq<Particle>, dragged: Option<nat>, i: nat)
    requires i < |ps| && ScanState(cur, ps, dragged, i, |ps|)
    ensures ScanState(cur, ps, dragged, i + 1, i + 2)
  {
    forall m | 0 <= m < |ps| {
      ScanRow(ps, i, m);
    }
  }

  lemma ScanFinish(cur: seq<Particle>, ps: seq<Particle>, dragged: Option<nat>, i: nat)
    requires i == |ps| && ScanState(cur, ps, dragged, i, i + 1)
    ensures cur == ActivePass(ps, dragged)
  {
    forall m | 0 <= m < |ps| {
      ScanEnds(ps, m);
    }
  }
}
