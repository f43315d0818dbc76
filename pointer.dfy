/** Pointer handling helpers: hit testing, the drag machine's particle edits, and content areas. */
module Pointer {
  import opened Wrappers
  import opened Particle
  import opened Removal

  /** A press grabs a particle closer than 30 units (compared squared). */
  const HitDistanceSq: real := 900.0

  predicate Hits(p: Particle, x: real, y: real)
  {
    (p.x - x) * (p.x - x) + (p.y - y) * (p.y - y) < HitDistanceSq
  }

  /** `particles.find(...)` from index `from` on: the first particle under the pointer. */
  function FirstHit(ps: seq<Particle>, x: real, y: real, from: nat): (r: Option<nat>)
    requires from <= |ps|
    ensures r.Some? ==> from <= r.value < |ps| && Hits(ps[r.value], x, y)
    ensures r.Some? ==> forall k :: from <= k < r.value ==> !Hits(ps[k], x, y)
    ensures r.None? <==> forall k :: from <= k < |ps| ==> !Hits(ps[k], x, y)
    decreases |ps| - from
  {
    if from == |ps| then None
    else if Hits(ps[from], x, y) then Some(from)
    else FirstHit(ps, x, y, from + 1)
  }

  /** `(Math.random() - 0.5) * 0.5`: the velocity a released particle is thrown with. */
  function ReleaseSpeed(r: real): (v: real)
    requires IsDraw(r)
    ensures -0.25 <= v < 0.25
  {
    (r - 0.5) * 0.5
  }

  /** Edits the particle with id `id` (the object the source holds a reference to); others stay. */
  function SetById(ps: seq<Particle>, id: nat, f: Particle -> Particle): (r: seq<Particle>)
    ensures |r| == |ps|
    ensures forall k :: 0 <= k < |ps| ==> r[k] == if ps[k].id == id then f(ps[k]) else ps[k]
  {
    seq(|ps|, k requires 0 <= k < |ps| => if ps[k].id == id then f(ps[k]) else ps[k])
  }

  /** Pinned to the pointer: at `(x, y)`, at rest, active. */
  function PinTo(x: real, y: real): Particle -> Particle
  {
    (p: Particle) => p.(x := x, y := y, vx := 0.0, vy := 0.0, active := true)
  }

  /** Grabbed where it is: at rest, active. */
  function Grab(): Particle -> Particle
  {
    (p: Particle) => p.(vx := 0.0, vy := 0.0, active := true)
  }

  /** Thrown with the given velocity. */
  function Throw(vx: real, vy: real): Particle -> Particle
  {
    (p: Particle) => p.(vx := vx, vy := vy)
  }

  /**
   * When the referenced particle has left the store (a reaction consumed it), editing
   * it changes nothing in the store; when it is present, exactly its entry changes.
   */
  lemma SetByIdSpec(ps: seq<Particle>, id: nat, f: Particle -> Particle)
    requires DistinctIds(ps)
    ensures id !in IdBag(ps) ==> SetById(ps, id, f) == ps
    ensures forall k :: 0 <= k < |ps| && ps[k].id == id ==>
      SetById(ps, id, f) == ps[k := f(ps[k])]
  {
    if id !in IdBag(ps) {
      forall k | 0 <= k < |ps| ensures ps[k].id != id {
        IdBagMember(ps, ps[k].id);
      }
    }
    forall k | 0 <= k < |ps| && ps[k].id == id ensures SetById(ps, id, f) == ps[k := f(ps[k])] {
      forall m | 0 <= m < |ps| && ps[m].id == id ensures m == k {
        DistinctIdsAt(ps, m, k);
      }
    }
  }

  /** Edits that keep the id keep the store's id bag. */
  lemma SetByIdKeepsIds(ps: seq<Particle>, id: nat, f: Particle -> Particle)
    requires forall p :: f(p).id == p.id
    ensures IdBag(SetById(ps, id, f)) == IdBag(ps)
  {
    IdBagSameIds(SetById(ps, id, f), ps);
  }

  /** A page section's bounding box. */
  datatype Rect = Rect(x: real, y: real, width: real, height: real)

  /** Membership is inclusive on all four edges. */
  predicate Contains(area: Rect, x: real, y: real)
  {
    area.x <= x <= area.x + area.width && area.y <= y <= area.y + area.height
  }

  /** `isOverContent`: the point lies in some content area. */
  function IsOverContent(areas: seq<Rect>, x: real, y: real): (r: bool)
    ensures r <==> exists k :: 0 <= k < |areas| && Contains(areas[k], x, y)
  {
    if areas == [] then false
    else Contains(areas[0], x, y) || IsOverContent(areas[1..], x, y)
  }
}
