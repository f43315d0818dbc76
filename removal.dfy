/**
 * Removing particles from the ordered store: by index with `splice(k, 1)` (the
 * periodic reaction) and by identity with `filter` (the forced reaction), and the
 * multiset of particle ids that both must keep free of duplicates.
 */
module Removal {
  import opened Particle

  /** `s.splice(k, 1)`: drop the element at index `k`. */
  function Splice<T>(s: seq<T>, k: nat): (r: seq<T>)
    requires k < |s|
    ensures |r| == |s| - 1
    ensures forall i :: 0 <= i < k ==> r[i] == s[i]
    ensures forall i :: k <= i < |r| ==> r[i] == s[i + 1]
  {
    s[..k] + s[k + 1..]
  }

  function MaxInt(a: int, b: int): int { if a < b then b else a }
  function MinInt(a: int, b: int): int { if a < b then a else b }

  /** `Math.max(i, j, k)` */
  function Max3(i: int, j: int, k: int): int { MaxInt(MaxInt(i, j), k) }

  /** `Math.min(i, j, k)` */
  function Min3(i: int, j: int, k: int): int { MinInt(MinInt(i, j), k) }

  /** `Math.min(Math.max(i, j), Math.max(i, k), Math.max(j, k))`, the second index spliced. */
  function Median3(i: int, j: int, k: int): int { Min3(MaxInt(i, j), MaxInt(i, k), MaxInt(j, k)) }

  /** For three distinct indices the three expressions pick the smallest, middle and largest. */
  lemma OrderOfThree(i: int, j: int, k: int)
    requires i != j && i != k && j != k
    ensures Min3(i, j, k) < Median3(i, j, k) < Max3(i, j, k)
    ensures {Min3(i, j, k), Median3(i, j, k), Max3(i, j, k)} == {i, j, k}
  {
  }

  /** The elements of `s` whose index is not in `drop`, in their original order. */
  function DropIndices<T>(s: seq<T>, drop: set<int>): seq<T>
  {
    KeepBelow(s, drop, |s|)
  }

  /** `DropIndices` restricted to the first `n` indices. */
  function KeepBelow<T>(s: seq<T>, drop: set<int>, n: nat): seq<T>
    requires n <= |s|
  {
    if n == 0 then [] else KeepBelow(s, drop, n - 1) + (if n - 1 in drop then [] else [s[n - 1]])
  }

  /** Only the first `n` elements matter. */
  lemma {:induction false} KeepBelowPrefix<T>(s: seq<T>, t: seq<T>, drop: set<int>, n: nat)
    requires n <= |s| && n <= |t| && s[..n] == t[..n]
    ensures KeepBelow(s, drop, n) == KeepBelow(t, drop, n)
  {
    if n > 0 {
      assert s[..n - 1] == t[..n - 1] && s[n - 1] == s[..n][n - 1];
      KeepBelowPrefix(s, t, drop, n - 1);
    }
  }

  /** A stretch of indices none of which is dropped is kept whole. */
  lemma {:induction false} DropRun<T>(s: seq<T>, drop: set<int>, a: nat, b: nat)
    requires a <= b <= |s|
    requires forall m :: a <= m < b ==> m !in drop
    ensures KeepBelow(s, drop, b) == KeepBelow(s, drop, a) + s[a..b]
    decreases b - a
  {
    if a < b {
      DropRun(s, drop, a, b - 1);
      assert s[a..b] == s[a..b - 1] + [s[b - 1]];
    }
  }

  /** Appending an element whose index is not dropped appends it to the result. */
  lemma DropAppend<T>(s: seq<T>, x: T, drop: set<int>)
    requires |s| !in drop
    ensures DropIndices(s + [x], drop) == DropIndices(s, drop) + [x]
  {
    assert (s + [x])[..|s|] == s[..|s|];
    KeepBelowPrefix(s + [x], s, drop, |s|);
  }

  /** Splicing at `hi`, then `mid`, then `lo` leaves the three gaps between them. */
  lemma SpliceDescending<T>(s: seq<T>, lo: nat, mid: nat, hi: nat)
    requires lo < mid < hi < |s|
    ensures Splice(Splice(Splice(s, hi), mid), lo)
         == s[..lo] + s[lo + 1..mid] + s[mid + 1..hi] + s[hi + 1..]
  {
    var s1 := Splice(s, hi);
    assert s1 == s[..hi] + s[hi + 1..];
    var s2 := Splice(s1, mid);
    assert s2 == s[..mid] + s[mid + 1..hi] + s[hi + 1..];
    var s3 := Splice(s2, lo);
    assert s3 == s[..lo] + s[lo + 1..mid] + s[mid + 1..hi] + s[hi + 1..];
  }

  /** A dropped index contributes nothing. */
  lemma DropSkip<T>(s: seq<T>, drop: set<int>, m: nat)
    requires m < |s| && m in drop
    ensures KeepBelow(s, drop, m + 1) == KeepBelow(s, drop, m)
  {
  }

  /** A stretch of kept indices followed by one dropped index. */
  lemma DropGap<T>(s: seq<T>, drop: set<int>, a: nat, m: nat)
    requires a <= m < |s| && m in drop
    requires forall t :: a <= t < m ==> t !in drop
    ensures KeepBelow(s, drop, m + 1) == KeepBelow(s, drop, a) + s[a..m]
  {
    DropRun(s, drop, a, m);
    DropSkip(s, drop, m);
  }

  /** The first two gaps, up to and including the middle index. */
  lemma DropToMiddle<T>(s: seq<T>, lo: nat, mid: nat, hi: nat)
    requires lo < mid < hi < |s|
    ensures KeepBelow(s, {lo, mid, hi}, mid + 1) == s[..lo] + s[lo + 1..mid]
  {
    var d: set<int> := {lo, mid, hi};
    DropGap(s, d, 0, lo);
    assert s[0..lo] == s[..lo];
    DropGap(s, d, lo + 1, mid);
  }

  /** Dropping three indices leaves the same three gaps. */
  lemma DropDescending<T>(s: seq<T>, lo: nat, mid: nat, hi: nat)
    requires lo < mid < hi < |s|
    ensures DropIndices(s, {lo, mid, hi}) == s[..lo] + s[lo + 1..mid] + s[mid + 1..hi] + s[hi + 1..]
  {
    var d: set<int> := {lo, mid, hi};
    DropToMiddle(s, lo, mid, hi);
    DropGap(s, d, mid + 1, hi);
    DropRun(s, d, hi + 1, |s|);
    assert s[hi + 1..|s|] == s[hi + 1..];
  }

  /**
   * Splicing out the largest, then the middle, then the smallest of three distinct
   * indices removes exactly those three elements and keeps the rest in order.
   */
  lemma SpliceThree<T>(s: seq<T>, i: nat, j: nat, k: nat)
    requires i < |s| && j < |s| && k < |s|
    requires i != j && i != k && j != k
    ensures Max3(i, j, k) < |s|
    ensures Median3(i, j, k) < |s| - 1
    ensures Min3(i, j, k) < |s| - 2
    ensures Splice(Splice(Splice(s, Max3(i, j, k)), Median3(i, j, k)), Min3(i, j, k))
         == DropIndices(s, {i, j, k})
  {
    OrderOfThree(i, j, k);
    var lo, mid, hi := Min3(i, j, k), Median3(i, j, k), Max3(i, j, k);
    SpliceDescending(s, lo, mid, hi);
    DropDescending(s, lo, mid, hi);
    assert {lo, mid, hi} == {i, j, k};
  }

  /** `ps.filter(p => !ids.has(p.id))`: removal by identity, order kept. */
  function RemoveIds(ps: seq<Particle>, ids: set<nat>): seq<Particle>
  {
    if ps == [] then []
    else RemoveIds(ps[..|ps| - 1], ids) + (if ps[|ps| - 1].id in ids then [] else [ps[|ps| - 1]])
  }

  /** Exactly the particles whose id is not removed survive. */
  lemma {:induction false} RemoveIdsMembers(ps: seq<Particle>, ids: set<nat>, p: Particle)
    ensures p in RemoveIds(ps, ids) <==> p in ps && p.id !in ids
  {
    if ps != [] {
      RemoveIdsMembers(ps[..|ps| - 1], ids, p);
      assert ps == ps[..|ps| - 1] + [ps[|ps| - 1]];
    }
  }

  /** Removal by identity is the `filter` it is written with. */
  lemma {:induction false} RemoveIdsIsSelect(ps: seq<Particle>, ids: set<nat>)
    ensures RemoveIds(ps, ids) == Select(ps, (p: Particle) => p.id !in ids)
  {
    if ps != [] {
      RemoveIdsIsSelect(ps[..|ps| - 1], ids);
    }
  }

  /** Removing by id is removing the indices that hold those ids. */
  lemma {:induction false} RemoveIdsIsDrop(ps: seq<Particle>, ids: set<nat>, drop: set<int>)
    requires forall k :: 0 <= k < |ps| ==> (k in drop <==> ps[k].id in ids)
    ensures RemoveIds(ps, ids) == DropIndices(ps, drop)
  {
    if ps != [] {
      var n := |ps| - 1;
      RemoveIdsIsDrop(ps[..n], ids, drop);
      KeepBelowPrefix(ps[..n], ps, drop, n);
    }
  }

  /** The ids of `ps`, in order. */
  function Ids(ps: seq<Particle>): (r: seq<nat>)
    ensures |r| == |ps| && forall k :: 0 <= k < |ps| ==> r[k] == ps[k].id
  {
    seq(|ps|, k requires 0 <= k < |ps| => ps[k].id)
  }

  /** The multiset of the ids in `ps`. */
  function IdBag(ps: seq<Particle>): multiset<nat>
  {
    multiset(Ids(ps))
  }

  predicate DistinctIds(ps: seq<Particle>)
  {
    forall id | id in IdBag(ps) :: IdBag(ps)[id] <= 1
  }

  lemma IdBagAppend(a: seq<Particle>, b: seq<Particle>)
    ensures IdBag(a + b) == IdBag(a) + IdBag(b)
  {
    assert Ids(a + b) == Ids(a) + Ids(b);
  }

  /** An id is in the bag exactly when some particle carries it. */
  lemma IdBagMember(ps: seq<Particle>, id: nat)
    ensures id in IdBag(ps) <==> exists k :: 0 <= k < |ps| && ps[k].id == id
  {
    if id in IdBag(ps) {
      assert id in Ids(ps);
    }
  }

  /** Sequences with the same ids, index by index, have the same id bag. */
  lemma IdBagSameIds(a: seq<Particle>, b: seq<Particle>)
    requires |a| == |b| && forall k :: 0 <= k < |a| ==> a[k].id == b[k].id
    ensures IdBag(a) == IdBag(b)
  {
    assert Ids(a) == Ids(b);
  }

  lemma IdBagLast(s: seq<Particle>, n: nat)
    requires 0 < n <= |s|
    ensures IdBag(s[..n]) == IdBag(s[..n - 1]) + multiset{s[n - 1].id}
  {
    assert Ids(s[..n]) == Ids(s[..n - 1]) + [s[n - 1].id];
  }

  lemma IdBagPush(f: seq<Particle>, b: multiset<nat>, p: Particle)
    requires IdBag(f) <= b
    ensures IdBag(f + [p]) <= b + multiset{p.id} && IdBag(f) <= b + multiset{p.id}
  {
    assert Ids(f + [p]) == Ids(f) + [p.id];
  }

  lemma {:induction false} IdBagKeepBelow(s: seq<Particle>, drop: set<int>, n: nat)
    requires n <= |s|
    ensures IdBag(KeepBelow(s, drop, n)) <= IdBag(s[..n])
  {
    if n > 0 {
      IdBagKeepBelow(s, drop, n - 1);
      IdBagLast(s, n);
      var front := KeepBelow(s, drop, n - 1);
      IdBagPush(front, IdBag(s[..n - 1]), s[n - 1]);
      if n - 1 in drop {
        assert KeepBelow(s, drop, n) == front;
      } else {
        assert KeepBelow(s, drop, n) == front + [s[n - 1]];
      }
    } else {
      assert KeepBelow(s, drop, n) == [];
    }
  }

  lemma IdBagDrop(s: seq<Particle>, drop: set<int>)
    ensures IdBag(DropIndices(s, drop)) <= IdBag(s)
  {
    IdBagKeepBelow(s, drop, |s|);
    assert s[..|s|] == s;
  }

  lemma {:induction false} IdBagRemoveIds(ps: seq<Particle>, ids: set<nat>)
    ensures IdBag(RemoveIds(ps, ids)) <= IdBag(ps)
  {
    if ps != [] {
      var n := |ps| - 1;
      IdBagRemoveIds(ps[..n], ids);
      IdBagLast(ps, |ps|);
      var front := RemoveIds(ps[..n], ids);
      IdBagPush(front, IdBag(ps[..n]), ps[n]);
      assert ps[..|ps|] == ps;
      if ps[n].id in ids {
        assert RemoveIds(ps, ids) == front;
      } else {
        assert RemoveIds(ps, ids) == front + [ps[n]];
      }
    }
  }

  /** Two indices carrying the same id put that id in the bag twice. */
  lemma SharedIdCountsTwice(ps: seq<Particle>, lo: nat, hi: nat)
    requires lo < hi < |ps| && ps[lo].id == ps[hi].id
    ensures IdBag(ps)[ps[lo].id] >= 2
  {
    var s := Ids(ps);
    var x := ps[lo].id;
    assert s == s[..hi] + s[hi..];
    assert s[..hi][lo] == x && s[hi..][0] == x;
    assert multiset(s[..hi])[x] >= 1 && multiset(s[hi..])[x] >= 1;
  }

  /** With distinct ids, two indices holding the same id are the same index. */
  lemma DistinctIdsAt(ps: seq<Particle>, a: nat, b: nat)
    requires DistinctIds(ps) && a < |ps| && b < |ps| && ps[a].id == ps[b].id
    ensures a == b
  {
    if a < b {
      SharedIdCountsTwice(ps, a, b);
      assert false;
    } else if b < a {
      SharedIdCountsTwice(ps, b, a);
      assert false;
    }
  }

  /** Dropping three distinct indices shortens the sequence by three. */
  lemma DropThreeLength<T>(s: seq<T>, i: nat, j: nat, k: nat)
    requires i < |s| && j < |s| && k < |s|
    requires i != j && i != k && j != k
    ensures |DropIndices(s, {i, j, k})| == |s| - 3
  {
    SpliceThree(s, i, j, k);
  }

  /** A sub-bag of a bag without repeats has no repeats. */
  lemma DistinctIdsSub(small: seq<Particle>, big: seq<Particle>)
    requires DistinctIds(big) && IdBag(small) <= IdBag(big)
    ensures DistinctIds(small)
  {
    forall id | id in IdBag(small) ensures IdBag(small)[id] <= 1 {
      assert IdBag(small)[id] <= IdBag(big)[id];
    }
  }

  /** Two members of a store with distinct ids that share an id are the same particle. */
  lemma DistinctMembers(ps: seq<Particle>, p: Particle, q: Particle)
    requires DistinctIds(ps) && p in ps && q in ps && p.id == q.id
    ensures p == q
  {
    var a :| 0 <= a < |ps| && ps[a] == p;
    var b :| 0 <= b < |ps| && ps[b] == q;
    DistinctIdsAt(ps, a, b);
  }

  /** `ps.filter(f)`: the particles that pass `f`, in store order. */
  function Select(ps: seq<Particle>, f: Particle -> bool): (r: seq<Particle>)
    ensures |r| <= |ps|
    ensures forall q :: q in r <==> q in ps && f(q)
  {
    if ps == [] then []
    else
      var front := Select(ps[..|ps| - 1], f);
      assert ps == ps[..|ps| - 1] + [ps[|ps| - 1]];
      front + (if f(ps[|ps| - 1]) then [ps[|ps| - 1]] else [])
  }

  lemma {:induction false} IdBagSelect(ps: seq<Particle>, f: Particle -> bool)
    ensures IdBag(Select(ps, f)) <= IdBag(ps)
  {
    if ps != [] {
      var n := |ps| - 1;
      IdBagSelect(ps[..n], f);
      IdBagLast(ps, |ps|);
      var front := Select(ps[..n], f);
      IdBagPush(front, IdBag(ps[..n]), ps[n]);
      assert ps[..|ps|] == ps;
      if f(ps[n]) {
        assert Select(ps, f) == front + [ps[n]];
      } else {
        assert Select(ps, f) == front;
      }
    }
  }

  /**
   * The `t`-th selected particle (from 0) sits at some index `idx` of the store
   * with exactly `t` selected particles before it: selection keeps store order.
   */
  lemma {:induction false} SelectOrder(ps: seq<Particle>, f: Particle -> bool, t: nat)
    requires t < |Select(ps, f)|
    ensures exists idx :: 0 <= idx < |ps| && ps[idx] == Select(ps, f)[t] && |Select(ps[..idx], f)| == t
  {
    var n := |ps| - 1;
    var front := Select(ps[..n], f);
    if t < |front| {
      SelectOrder(ps[..n], f, t);
      var idx :| 0 <= idx < n && ps[..n][idx] == front[t] && |Select(ps[..n][..idx], f)| == t;
      assert ps[..n][..idx] == ps[..idx];
      assert Select(ps, f)[t] == front[t];
    } else {
      assert f(ps[n]) && Select(ps, f) == front + [ps[n]];
      assert t == |front|;
      assert Select(ps, f)[t] == ps[n];
    }
  }

  /** Removing the ids of three distinct particles of a store without repeated ids removes exactly three. */
  lemma RemoveThree(ps: seq<Particle>, a: Particle, b: Particle, c: Particle)
    requires DistinctIds(ps) && a in ps && b in ps && c in ps
    requires a.id != b.id && a.id != c.id && b.id != c.id
    ensures |RemoveIds(ps, {a.id, b.id, c.id})| == |ps| - 3
  {
    var i :| 0 <= i < |ps| && ps[i] == a;
    var j :| 0 <= j < |ps| && ps[j] == b;
    var k :| 0 <= k < |ps| && ps[k] == c;
    var ids := {a.id, b.id, c.id};
    forall m | 0 <= m < |ps| ensures m in {i, j, k} <==> ps[m].id in ids {
      if ps[m].id == a.id { DistinctIdsAt(ps, m, i); }
      if ps[m].id == b.id { DistinctIdsAt(ps, m, j); }
      if ps[m].id == c.id { DistinctIdsAt(ps, m, k); }
    }
    RemoveIdsIsDrop(ps, ids, {i, j, k});
    DropThreeLength(ps, i, j, k);
  }
}
