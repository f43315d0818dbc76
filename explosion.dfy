/**
 * Explosions: the transient bursts a reaction leaves behind (`createExplosion`,
 * `createBigExplosion`, `updateExplosions`). Opacity is kept in integer hundredths,
 * so a new explosion has opacity 100 and loses 1 per tick.
 */
module Explosion {
  import opened Particle
  import opened Removal

  /**
   * The random draw that picks a fragment's element, and the fragment's start
   * velocity, which the source computes as `cos`/`sin` of its angle times a random speed.
   */
  datatype Spark = Spark(rElement: real, vx: real, vy: real)

  /** The random input of one event: the burst-size draw, enough sparks, and the molecule's velocity draws. */
  datatype Draws = Draws(rCount: real, sparks: seq<Spark>, rMoleculeVx: real, rMoleculeVy: real)

  /** The largest burst (`createBigExplosion`) has 12 fragments. */
  const MaxFragments: nat := 12

  predicate IsDraws(d: Draws)
  {
    && IsDraw(d.rCount) && IsDraw(d.rMoleculeVx) && IsDraw(d.rMoleculeVy)
    && |d.sparks| >= MaxFragments
    && forall s | s in d.sparks :: IsDraw(s.rElement)
  }

  datatype Explosion = Explosion(
    x: real, y: real,
    color: string,
    radius: real,
    maxRadius: real,
    opacity: int,
    fragments: seq<Particle>)

  /** A new explosion starts fully opaque. */
  const FullOpacity: int := 100

  /** `Math.floor(Math.random() * 5) + 1` */
  function SmallBurstSize(r: real): (n: nat)
    requires IsDraw(r)
    ensures 1 <= n <= 5
  {
    (r * 5.0).Floor + 1
  }

  /** `Math.floor(Math.random() * 6) + 7` */
  function BigBurstSize(r: real): (n: nat)
    requires IsDraw(r)
    ensures 7 <= n <= MaxFragments
  {
    (r * 6.0).Floor + 7
  }

  /** One fragment: a new particle placed at the centre, moving with its spark's velocity, active. */
  function Fragment(id: nat, x: real, y: real, s: Spark): Particle
    requires IsDraw(s.rElement)
  {
    Particle(id, x, y, s.vx, s.vy, RandomElement(s.rElement), true)
  }

  /** The first `n` fragments of a burst at `(x, y)`, numbered from `firstId`. */
  function Fragments(x: real, y: real, sparks: seq<Spark>, n: nat, firstId: nat): (fs: seq<Particle>)
    requires n <= |sparks| && forall s | s in sparks :: IsDraw(s.rElement)
    ensures |fs| == n
    ensures forall k :: 0 <= k < n ==>
      && fs[k].id == firstId + k && fs[k].x == x && fs[k].y == y && fs[k].active
      && fs[k].vx == sparks[k].vx && fs[k].vy == sparks[k].vy && fs[k].element in Catalog
  {
    if n == 0 then [] else Fragments(x, y, sparks, n - 1, firstId) + [Fragment(firstId + n - 1, x, y, sparks[n - 1])]
  }

  /** Ids that increase along the sequence occur once each. */
  lemma {:induction false} IncreasingIdsDistinct(ps: seq<Particle>)
    requires forall a, b :: 0 <= a < b < |ps| ==> ps[a].id < ps[b].id
    ensures DistinctIds(ps)
  {
    if ps != [] {
      var n := |ps| - 1;
      var front := ps[..n];
      IncreasingIdsDistinct(front);
      IdBagLast(ps, |ps|);
      assert ps[..|ps|] == ps;
      IdBagMember(front, ps[n].id);
      assert ps[n].id !in IdBag(front);
    }
  }

  /**
   * A burst followed by its molecule uses the ids `firstId .. firstId + n`, each once:
   * the ids the store has not handed out yet.
   */
  lemma FreshIds(x: real, y: real, sparks: seq<Spark>, n: nat, firstId: nat, m: Particle)
    requires n <= |sparks| && forall s | s in sparks :: IsDraw(s.rElement)
    requires m.id == firstId + n
    ensures var ps := Fragments(x, y, sparks, n, firstId) + [m];
      DistinctIds(ps) && forall id | id in IdBag(ps) :: firstId <= id <= firstId + n
  {
    var ps := Fragments(x, y, sparks, n, firstId) + [m];
    IncreasingIdsDistinct(ps);
    forall id | id in IdBag(ps) ensures firstId <= id <= firstId + n {
      IdBagMember(ps, id);
    }
  }

  /** The ring grows by 0.5 and the opacity drops by one hundredth. */
  function Tick(e: Explosion): Explosion
  {
    e.(radius := e.radius + 0.5, opacity := e.opacity - 1)
  }

  /** A fragment of a live explosion moves by its velocity, which then decays by 5%. */
  function Drift(p: Particle): Particle
  {
    p.(x := p.x + p.vx, y := p.y + p.vy, vx := p.vx * 0.95, vy := p.vy * 0.95)
  }

  /** A fragment joining the main store: velocity scaled by 0.2, inactive. */
  function Settle(p: Particle): Particle
  {
    p.(vx := p.vx * 0.2, vy := p.vy * 0.2, active := false)
  }

  function DriftAll(fs: seq<Particle>): (r: seq<Particle>)
    ensures |r| == |fs| && forall k :: 0 <= k < |fs| ==> r[k] == Drift(fs[k])
  {
    seq(|fs|, k requires 0 <= k < |fs| => Drift(fs[k]))
  }

  function SettleAll(fs: seq<Particle>): (r: seq<Particle>)
    ensures |r| == |fs| && forall k :: 0 <= k < |fs| ==> r[k] == Settle(fs[k])
  {
    seq(|fs|, k requires 0 <= k < |fs| => Settle(fs[k]))
  }

  /** The explosion after one tick of `updateExplosions`, when it stays. */
  function Advance(e: Explosion): Explosion
  {
    var t := Tick(e);
    t.(fragments := DriftAll(t.fragments))
  }

  /** An explosion stays while its opacity after the tick is positive. */
  predicate Survives(e: Explosion) { Tick(e).opacity > 0 }

  /** The explosion list after `updateExplosions`: the survivors, advanced, in their order. */
  function Survivors(es: seq<Explosion>): seq<Explosion>
  {
    if es == [] then []
    else Survivors(es[..|es| - 1]) + (if Survives(es[|es| - 1]) then [Advance(es[|es| - 1])] else [])
  }

  /** The fragments that the expiring explosions hand to the main store, in order. */
  function Released(es: seq<Explosion>): seq<Particle>
  {
    if es == [] then []
    else Released(es[..|es| - 1]) + (if Survives(es[|es| - 1]) then [] else SettleAll(es[|es| - 1].fragments))
  }

  /** The number of fragments held by explosions. */
  function FragmentCount(es: seq<Explosion>): nat
  {
    if es == [] then 0 else FragmentCount(es[..|es| - 1]) + |es[|es| - 1].fragments|
  }

  /** The multiset of the ids of all fragments held by explosions. */
  function FragmentBag(es: seq<Explosion>): multiset<nat>
  {
    if es == [] then multiset{} else FragmentBag(es[..|es| - 1]) + IdBag(es[|es| - 1].fragments)
  }

  lemma FragmentBagPush(es: seq<Explosion>, e: Explosion)
    ensures FragmentBag(es + [e]) == FragmentBag(es) + IdBag(e.fragments)
    ensures FragmentCount(es + [e]) == FragmentCount(es) + |e.fragments|
  {
    assert (es + [e])[..|es|] == es;
  }

  lemma IdBagDriftAll(fs: seq<Particle>)
    ensures IdBag(DriftAll(fs)) == IdBag(fs) && IdBag(SettleAll(fs)) == IdBag(fs)
  {
    IdBagSameIds(DriftAll(fs), fs);
    IdBagSameIds(SettleAll(fs), fs);
  }

  /** One more explosion: it either joins the survivors, advanced, or releases its fragments. */
  lemma AgeStep(es: seq<Explosion>, k: nat)
    requires k < |es|
    ensures Survivors(es[..k + 1]) == Survivors(es[..k]) + (if Survives(es[k]) then [Advance(es[k])] else [])
    ensures Released(es[..k + 1]) == Released(es[..k]) + (if Survives(es[k]) then [] else SettleAll(es[k].fragments))
  {
    assert es[..k + 1][..k] == es[..k];
  }

  lemma UpdateStep(es: seq<Explosion>)
    requires es != []
    ensures var n := |es| - 1; var e := es[n];
      && Survivors(es) == Survivors(es[..n]) + (if Survives(e) then [Advance(e)] else [])
      && Released(es) == Released(es[..n]) + (if Survives(e) then [] else SettleAll(e.fragments))
      && FragmentCount(es) == FragmentCount(es[..n]) + |e.fragments|
      && FragmentBag(es) == FragmentBag(es[..n]) + IdBag(e.fragments)
  {
  }

  /** Ageing explosions neither creates nor loses a fragment: each survives or is released. */
  lemma {:induction false} UpdateConservesCount(es: seq<Explosion>)
    ensures |Released(es)| + FragmentCount(Survivors(es)) == FragmentCount(es)
  {
    if es != [] {
      var n := |es| - 1;
      var e := es[n];
      UpdateConservesCount(es[..n]);
      UpdateStep(es);
      var kept := Survivors(es[..n]);
      if Survives(e) {
        FragmentBagPush(kept, Advance(e));
        assert Released(es) == Released(es[..n]);
        assert FragmentCount(Survivors(es)) == FragmentCount(kept) + |e.fragments|;
      } else {
        assert Survivors(es) == kept;
      }
    }
  }

  /** Ageing explosions keeps every fragment id: the released ones plus the kept ones are the old ones. */
  lemma {:induction false} UpdateConservesIds(es: seq<Explosion>)
    ensures IdBag(Released(es)) + FragmentBag(Survivors(es)) == FragmentBag(es)
  {
    if es != [] {
      var n := |es| - 1;
      var e := es[n];
      UpdateConservesIds(es[..n]);
      UpdateStep(es);
      var released, kept := Released(es[..n]), Survivors(es[..n]);
      var before := FragmentBag(es[..n]);
      assert IdBag(released) + FragmentBag(kept) == before;
      assert FragmentBag(es) == before + IdBag(e.fragments);
      IdBagDriftAll(e.fragments);
      if Survives(e) {
        FragmentBagPush(kept, Advance(e));
        assert Released(es) == released;
        assert FragmentBag(Survivors(es)) == FragmentBag(kept) + IdBag(e.fragments);
      } else {
        IdBagAppend(released, SettleAll(e.fragments));
        assert IdBag(Released(es)) == IdBag(released) + IdBag(e.fragments);
        assert Survivors(es) == kept;
      }
    }
  }

  /** Ageing never adds an explosion, and every survivor is still visible. */
  lemma {:induction false} SurvivorsAreVisible(es: seq<Explosion>)
    ensures |Survivors(es)| <= |es|
    ensures forall e | e in Survivors(es) :: e.opacity > 0
  {
    if es != [] {
      SurvivorsAreVisible(es[..|es| - 1]);
    }
  }

  /** Released fragments join the store inactive. */
  lemma {:induction false} ReleasedAreInactive(es: seq<Explosion>)
    ensures forall p | p in Released(es) :: !p.active
  {
    if es != [] {
      ReleasedAreInactive(es[..|es| - 1]);
    }
  }

  /**
   * Every fragment handed to the store comes from an explosion that dissolves on this
   * tick: it keeps its id, element and place, keeps a fifth of its velocity and is inactive.
   */
  lemma {:induction false} ReleasedAreSettled(es: seq<Explosion>)
    ensures forall p | p in Released(es) :: exists k, q | 0 <= k < |es| && q in es[k].fragments ::
      && !Survives(es[k])
      && p.id == q.id && p.element == q.element && p.x == q.x && p.y == q.y
      && p.vx == q.vx * 0.2 && p.vy == q.vy * 0.2 && !p.active
  {
    if es != [] {
      var n := |es| - 1;
      ReleasedAreSettled(es[..n]);
      forall p | p in Released(es) ensures exists k, q | 0 <= k < |es| && q in es[k].fragments ::
        && !Survives(es[k])
        && p.id == q.id && p.element == q.element && p.x == q.x && p.y == q.y
        && p.vx == q.vx * 0.2 && p.vy == q.vy * 0.2 && !p.active
      {
        if p in Released(es[..n]) {
          var k, q :| 0 <= k < n && q in es[..n][k].fragments
            && !Survives(es[..n][k])
            && p.id == q.id && p.element == q.element && p.x == q.x && p.y == q.y
            && p.vx == q.vx * 0.2 && p.vy == q.vy * 0.2 && !p.active;
          assert es[k] == es[..n][k];
        } else {
          var fs := es[n].fragments;
          assert !Survives(es[n]) && p in SettleAll(fs);
          var t :| 0 <= t < |fs| && SettleAll(fs)[t] == p;
          assert fs[t] in es[n].fragments;
        }
      }
    }
  }

  /** Every explosion left after ageing is an original one that survives, advanced by one tick. */
  lemma {:induction false} SurvivorsAdvance(es: seq<Explosion>)
    ensures forall e | e in Survivors(es) :: exists k | 0 <= k < |es| :: Survives(es[k]) && e == Advance(es[k])
  {
    if es != [] {
      var n := |es| - 1;
      SurvivorsAdvance(es[..n]);
      forall e | e in Survivors(es) ensures exists k | 0 <= k < |es| :: Survives(es[k]) && e == Advance(es[k]) {
        if e in Survivors(es[..n]) {
          var k :| 0 <= k < n && Survives(es[..n][k]) && e == Advance(es[..n][k]);
          assert es[k] == es[..n][k];
        } else {
          assert Survives(es[n]) && e == Advance(es[n]);
        }
      }
    }
  }

  /**
   * An advanced explosion keeps its fragments in order: each moves by its velocity, which
   * then decays to 95%, and keeps its id, element and flag.
   */
  lemma AdvanceDrifts(e: Explosion)
    ensures var fs := Advance(e).fragments;
      && |fs| == |e.fragments|
      && forall k | 0 <= k < |fs| ::
        && fs[k].id == e.fragments[k].id && fs[k].element == e.fragments[k].element
        && fs[k].active == e.fragments[k].active
        && fs[k].x == e.fragments[k].x + e.fragments[k].vx && fs[k].y == e.fragments[k].y + e.fragments[k].vy
        && fs[k].vx == e.fragments[k].vx * 0.95 && fs[k].vy == e.fragments[k].vy * 0.95
  {
  }

  /** `t` ticks of a surviving explosion. */
  function AdvanceN(e: Explosion, t: nat): Explosion
  {
    if t == 0 then e else Advance(AdvanceN(e, t - 1))
  }

  /**
   * An explosion of opacity `o > 0` survives its first `o - 1` ticks and is dissolved
   * by tick `o`; its ring has grown by 0.5 per tick.
   */
  lemma {:induction false} Lifetime(e: Explosion, t: nat)
    requires e.opacity > 0 && t < e.opacity
    ensures AdvanceN(e, t).opacity == e.opacity - t
    ensures AdvanceN(e, t).radius == e.radius + 0.5 * t as real
    ensures Survives(AdvanceN(e, t)) <==> t < e.opacity - 1
  {
    if t > 0 {
      Lifetime(e, t - 1);
    }
  }
}
