/**
 * `ChemicalBackground`: the particle store and its per-frame and pointer-driven
 * updates, as a class whose methods change its fields in place.
 */
module Background {
  import opened Wrappers
  import opened Particle
  import opened Removal
  import opened Explosion
  import opened Reaction
  import opened Activity
  import opened Pointer
  import opened Frame

  datatype Point = Point(x: real, y: real)

  /** Narrow windows count as mobile. */
  const MobileWidth: real := 768.0

  /** `isMobile ? 30 : 50` */
  function ParticleCount(isMobile: bool): nat { if isMobile then 30 else 50 }

  /** The fragment loop of `createExplosion` and `createBigExplosion`. */
  method BuildFragments(x: real, y: real, sparks: seq<Spark>, n: nat, firstId: nat) returns (fs: seq<Particle>)
    requires n <= |sparks| && forall s | s in sparks :: IsDraw(s.rElement)
    ensures fs == Fragments(x, y, sparks, n, firstId)
  {
    fs := [];
    var i := 0;
    while i < n
      invariant 0 <= i <= n
      invariant fs == Fragments(x, y, sparks, i, firstId)
    {
      assert Fragments(x, y, sparks, i + 1, firstId) == fs + [Fragment(firstId + i, x, y, sparks[i])];
      fs := fs + [Fragment(firstId + i, x, y, sparks[i])];
      i := i + 1;
    }
  }

  /** `groups` maps each symbol present in `ps` to that symbol's particles, in order. */
  ghost predicate Grouped(groups: map<string, seq<Particle>>, ps: seq<Particle>)
  {
    && (forall sym :: sym in groups <==> OfSymbol(ps, sym) != [])
    && forall sym | sym in groups :: groups[sym] == OfSymbol(ps, sym)
  }

  /** One step of the grouping `forEach`: create the group when missing, then push. */
  lemma GroupedPush(groups: map<string, seq<Particle>>, ps: seq<Particle>, p: Particle)
    requires Grouped(groups, ps)
    ensures var sym := p.element.symbol;
      var g := if sym in groups then groups else groups[sym := []];
      Grouped(g[sym := g[sym] + [p]], ps + [p])
  {
    var sym0 := p.element.symbol;
    var g := if sym0 in groups then groups else groups[sym0 := []];
    assert g[sym0] == OfSymbol(ps, sym0);
    var g' := g[sym0 := g[sym0] + [p]];
    forall sym ensures (sym in g' <==> OfSymbol(ps + [p], sym) != []) && (sym in g' ==> g'[sym] == OfSymbol(ps + [p], sym)) {
      OfSymbolPush(ps, p, sym);
      if sym != sym0 {
        assert (sym in g') == (sym in groups);
      }
    }
  }

  /** The spawning loop of `init`: particle `k` is drawn from `seeds[k]` and numbered `k`. */
  method SpawnAll(seeds: seq<Seed>, n: nat, width: real, height: real) returns (ps: seq<Particle>)
    requires 0.0 <= width && 0.0 <= height
    requires n <= |seeds| && forall s | s in seeds :: IsSeed(s)
    ensures |ps| == n
    ensures forall k :: 0 <= k < n ==> ps[k] == Spawn(k, seeds[k], width, height)
  {
    ps := [];
    var i := 0;
    while i < n
      invariant 0 <= i <= n && |ps| == i
      invariant forall k :: 0 <= k < i ==> ps[k] == Spawn(k, seeds[k], width, height)
    {
      ps := ps + [Spawn(i, seeds[i], width, height)];
      i := i + 1;
    }
  }

  /** The particles `init` spawns: particle `k` is drawn from `seeds[k]` and numbered `k`. */
  function Spawned(seeds: seq<Seed>, n: nat, width: real, height: real): seq<Particle>
    requires 0.0 <= width && 0.0 <= height
    requires n <= |seeds| && forall s | s in seeds :: IsSeed(s)
  {
    seq(n, k requires 0 <= k < n => Spawn(k, seeds[k], width, height))
  }

  /**
   * Draws for a frame without a reaction scan, which consumes none: the first frame
   * that `init` runs is such a frame.
   */
  const QuietDraws: Draws := Draws(0.0, QuietSparks + QuietSparks + QuietSparks, 0.0, 0.0)

  const QuietSparks: seq<Spark> := [Spark(0.0, 0.0, 0.0), Spark(0.0, 0.0, 0.0), Spark(0.0, 0.0, 0.0), Spark(0.0, 0.0, 0.0)]

  /** The store `init` creates on a canvas of the given size, before its first frame. */
  function InitialStore(seeds: seq<Seed>, width: real, height: real): Store
    requires 0.0 <= width && 0.0 <= height
    requires |seeds| >= ParticleCount(width < MobileWidth) && forall s | s in seeds :: IsSeed(s)
  {
    var n := ParticleCount(width < MobileWidth);
    Store(Spawned(seeds, n, width, height), [], n)
  }

  /**
   * After `init` the store holds the spawned particles, still numbered in order and all
   * on the canvas, and no explosion; no further id has been handed out.
   */
  lemma InitialFrameShape(seeds: seq<Seed>, width: real, height: real)
    requires 0.0 <= width && 0.0 <= height
    requires |seeds| >= ParticleCount(width < MobileWidth) && forall s | s in seeds :: IsSeed(s)
    ensures var n := ParticleCount(width < MobileWidth);
      var st := FrameStore(InitialStore(seeds, width, height), None, false, QuietDraws, width, height);
      && |st.particles| == n && st.explosions == [] && st.nextId == n
      && forall k :: 0 <= k < n ==> st.particles[k].id == k && InBounds(st.particles[k], width, height)
  {
    var st0 := InitialStore(seeds, width, height);
    var lit := Lit(st0, None);
    assert Survivors(lit.explosions) == [] && Released(lit.explosions) == [];
    assert lit.particles + [] == lit.particles;
  }

  /**
   * `init`: the spawned particles, then the first frame, which neither refreshes the
   * content areas nor scans for reactions.
   */
  method InitStore(seeds: seq<Seed>, width: real, height: real) returns (st: Store)
    requires 0.0 <= width && 0.0 <= height
    requires |seeds| >= ParticleCount(width < MobileWidth) && forall s | s in seeds :: IsSeed(s)
    ensures st == FrameStore(InitialStore(seeds, width, height), None, false, QuietDraws, width, height)
    ensures WellFormed(st) && st.explosions == []
  {
    InitialFrameShape(seeds, width, height);
    var n := ParticleCount(width < MobileWidth);
    var ps := SpawnAll(seeds, n, width, height);
    SpawnedWellFormed(ps);
    assert ps == Spawned(seeds, n, width, height);
    QuietDrawsValid();
    FrameWellFormed(Store(ps, [], n), None, false, QuietDraws, width, height);
    st := FrameStore(Store(ps, [], n), None, false, QuietDraws, width, height);
  }

  /** The stand-in draws are `Math.random()` values and are enough for any burst. */
  lemma QuietDrawsValid()
    ensures IsDraws(QuietDraws)
  {
    assert QuietDraws.sparks == QuietSparks + QuietSparks + QuietSparks;
  }

  /** Particles numbered by their position form a well-formed store with no explosions. */
  lemma SpawnedWellFormed(ps: seq<Particle>)
    requires forall k :: 0 <= k < |ps| ==> ps[k].id == k
    ensures WellFormed(Store(ps, [], |ps|))
  {
    IncreasingIdsDistinct(ps);
    var st := Store(ps, [], |ps|);
    forall id | id in AllIds(st) ensures AllIds(st)[id] <= 1 && id < |ps| {
      IdBagMember(ps, id);
    }
  }

  class ChemicalBackground {
    const width: real
    const height: real
    const isMobile: bool
    var particles: seq<Particle>
    var explosions: seq<Explosion>
    var mouse: Option<Point>
    var contentAreas: seq<Rect>
    /** The id of the dragged particle; it may name a particle a reaction has consumed. */
    var dragged: Option<nat>
    var frame: nat
    /** The next unused particle id (object identity in the source). */
    var nextId: nat

    function State(): Store
      reads this
    {
      Store(particles, explosions, nextId)
    }

    /**
     * The store is well formed, and the dragged id was handed out before: as ids are
     * never handed out twice, a consumed dragged particle is never mistaken for a new one.
     */
    ghost predicate Valid()
      reads this
    {
      && 0.0 <= width && 0.0 <= height && WellFormed(State())
      && (dragged.Some? ==> dragged.value < nextId)
    }

    /**
     * The constructor and `init`: the canvas takes the window's size, is seeded with
     * random particles, takes the content areas, and runs its first frame, in which
     * no reaction is scanned for.
     */
    constructor(windowWidth: real, windowHeight: real, seeds: seq<Seed>, areas: seq<Rect>)
      requires 0.0 <= windowWidth && 0.0 <= windowHeight
      requires |seeds| >= ParticleCount(windowWidth < MobileWidth) && forall s | s in seeds :: IsSeed(s)
      ensures Valid()
      ensures width == windowWidth && height == windowHeight && isMobile == (windowWidth < MobileWidth)
      ensures State() == FrameStore(InitialStore(seeds, width, height), None, false, QuietDraws, width, height)
      ensures explosions == [] && dragged == None && mouse == None && frame == 1 && contentAreas == areas
    {
      var st := InitStore(seeds, windowWidth, windowHeight);
      width, height, isMobile := windowWidth, windowHeight, windowWidth < MobileWidth;
      particles, explosions, nextId := st.particles, st.explosions, st.nextId;
      mouse, contentAreas, dragged, frame := None, areas, None, 1;
    }

    /** `createExplosion`: a small burst of 1 to 5 fragments at `(x, y)`. */
    method CreateExplosion(x: real, y: real, color: string, d: Draws)
      requires IsDraws(d)
      modifies this`explosions, this`nextId
      ensures explosions == old(explosions) + [SmallExplosion(x, y, color, d, old(nextId))]
      ensures nextId == old(nextId) + SmallBurstSize(d.rCount)
    {
      var n := SmallBurstSize(d.rCount);
      var fs := BuildFragments(x, y, d.sparks, n, nextId);
      explosions := explosions + [Explosion(x, y, color, 5.0, 50.0, FullOpacity, fs)];
      nextId := nextId + n;
    }

    /** `createMolecule`: the product is appended to the store. */
    method CreateMolecule(x: real, y: real, product: Product, d: Draws)
      requires IsDraws(d)
      modifies this`particles, this`nextId
      ensures particles == old(particles) + [Molecule(old(nextId), x, y, product, d)]
      ensures nextId == old(nextId) + 1
    {
      particles := particles + [Molecule(nextId, x, y, product, d)];
      nextId := nextId + 1;
    }

    /** `createBigExplosion`: 7 to 12 fragments, the molecule, then the explosion. */
    method CreateBigExplosion(x: real, y: real, product: Product, d: Draws)
      requires IsDraws(d)
      modifies this`particles, this`explosions, this`nextId
      ensures var n := BigBurstSize(d.rCount);
        && particles == old(particles) + [Molecule(old(nextId) + n, x, y, product, d)]
        && explosions == old(explosions) + [BigExplosion(x, y, product.Color(), d, old(nextId))]
        && nextId == old(nextId) + n + 1
    {
      var n := BigBurstSize(d.rCount);
      var fs := BuildFragments(x, y, d.sparks, n, nextId);
      nextId := nextId + n;
      CreateMolecule(x, y, product, d);
      explosions := explosions + [Explosion(x, y, product.Color(), 10.0, 100.0, FullOpacity, fs)];
    }

    /** The three `splice` calls of `tryFormMolecule`: largest index, middle index, smallest index. */
    method SpliceOut(i: nat, j: nat, k: nat)
      requires i < |particles| && j < |particles| && k < |particles|
      requires i != j && i != k && j != k
      modifies this`particles
      ensures particles == DropIndices(old(particles), {i, j, k})
    {
      SpliceThree(particles, i, j, k);
      particles := Splice(particles, Max3(i, j, k));
      particles := Splice(particles, Median3(i, j, k));
      particles := Splice(particles, Min3(i, j, k));
    }

    /**
     * The success branch of `tryFormMolecule`: explosion and molecule at the centroid,
     * then the three splices at the largest, middle and smallest index.
     */
    method React(i: nat, j: nat, r: Reaction, d: Draws)
      requires Valid() && IsDraws(d)
      requires i < |particles| && j < |particles| && r.third < |particles|
      requires i != j && i != r.third && j != r.third
      modifies this`particles, this`explosions, this`nextId
      ensures Valid()
      ensures State() == ApplyReaction(old(State()), i, j, r, d)
    {
      ReactSteps(i, j, r, d);
      ApplyReactionWellFormed(old(State()), i, j, r, d);
      ApplyReactionNoReissue(old(State()), i, j, r, d);
    }

    /** The statements of that branch, in the source's order. */
    method ReactSteps(i: nat, j: nat, r: Reaction, d: Draws)
      requires IsDraws(d)
      requires i < |particles| && j < |particles| && r.third < |particles|
      requires i != j && i != r.third && j != r.third
      modifies this`particles, this`explosions, this`nextId
      ensures State() == ApplyReaction(old(State()), i, j, r, d)
    {
      var ps := particles;
      var k := r.third;
      ghost var st := State();
      ghost var n := SmallBurstSize(d.rCount);
      var cx := Centroid(ps[i].x, ps[j].x, ps[k].x);
      var cy := Centroid(ps[i].y, ps[j].y, ps[k].y);
      CreateExplosion(cx, cy, r.product.Color(), d);
      CreateMolecule(cx, cy, r.product, d);
      ghost var m := Molecule(st.nextId + n, cx, cy, r.product, d);
      assert particles == ps + [m];
      SpliceOut(i, j, k);
      DropAppend(ps, m, {i, j, k});
    }

    /** The `k` loop of `tryFormMolecule`: the first other particle of symbol `sym` within reach of both. */
    method ScanForThird(i: nat, j: nat, sym: string) returns (found: Option<nat>)
      requires i < |particles| && j < |particles|
      ensures found == FindThird(particles, i, j, sym, 0)
    {
      var k := 0;
      while k < |particles|
        invariant 0 <= k <= |particles|
        invariant FindThird(particles, i, j, sym, k) == FindThird(particles, i, j, sym, 0)
      {
        if k != i && k != j {
          var p3 := particles[k];
          if p3.element.symbol == sym
            && DistanceSquared(particles[i], p3) < ThirdDistanceSq
            && DistanceSquared(particles[j], p3) < ThirdDistanceSq
          {
            return Some(k);
          }
        }
        k := k + 1;
      }
      return None;
    }

    /**
     * `tryFormMolecule`: a C-O pair with a second oxygen in reach forms CO2; otherwise
     * an H-O pair with a second hydrogen in reach forms H2O; otherwise nothing changes.
     */
    method TryFormMolecule(i: nat, j: nat, d: Draws) returns (formed: bool)
      requires Valid() && IsDraws(d) && i < |particles| && j < |particles| && i != j
      modifies this`particles, this`explosions, this`nextId
      ensures Valid()
      ensures formed == ReactionFor(old(particles), i, j).Some?
      ensures formed ==> State() == ApplyReaction(old(State()), i, j, ReactionFor(old(particles), i, j).value, d)
      ensures !formed ==> State() == old(State())
    {
      if IsPairOf(particles[i], particles[j], "C", "O") {
        var k := ScanForThird(i, j, "O");
        if k.Some? {
          React(i, j, Reaction(CO2, k.value), d);
          return true;
        }
      }
      if IsPairOf(particles[i], particles[j], "H", "O") {
        var k := ScanForThird(i, j, "H");
        if k.Some? {
          React(i, j, Reaction(H2O, k.value), d);
          return true;
        }
      }
      return false;
    }

    /**
     * `checkChemicalReactions`: scans pairs `i < j` in order and stops at the first pair
     * that is close, may bond and completes a molecule. At most one reaction happens.
     */
    method CheckChemicalReactions(d: Draws)
      requires Valid() && IsDraws(d)
      modifies this`particles, this`explosions, this`nextId
      ensures Valid()
      ensures NoReactivePair(old(particles)) ==> State() == old(State())
      ensures State() == ReactionStep(old(State()), d)
    {
      ghost var ps := particles;
      var i := 0;
      while i < |particles|
        invariant particles == ps && State() == old(State())
        invariant 0 <= i <= |ps|
        invariant forall a, b | 0 <= a < |ps| && a < b < |ps| && a < i :: !Reactive(ps, a, b)
      {
        var j := i + 1;
        while j < |particles|
          invariant particles == ps && State() == old(State())
          invariant i + 1 <= j <= |ps|
          invariant forall a, b | 0 <= a < |ps| && a < b < |ps| && ScannedBefore(a, b, i, j) :: !Reactive(ps, a, b)
        {
          var p1 := particles[i];
          var p2 := particles[j];
          if DistanceSquared(p1, p2) < ReactionDistanceSq && CanBondWith(p1, p2) {
            var molecule := TryFormMolecule(i, j, d);
            if molecule {
              assert FirstReactivePair(ps, i, j);
              var first := FirstReaction(ps).value;
              FirstReactivePairUnique(ps, i, j, first.0, first.1);
              return;
            }
          }
          j := j + 1;
        }
        i := i + 1;
      }
    }
  
    /** The `forEach` that hands an expired explosion's fragments to the store, settled. */
    method ReleaseFragments(fs: seq<Particle>)
      modifies this`particles
      ensures particles == old(particles) + SettleAll(fs)
    {
      var t := 0;
      while t < |fs|
        invariant 0 <= t <= |fs|
        invariant particles == old(particles) + SettleAll(fs)[..t]
      {
        assert SettleAll(fs)[..t + 1] == SettleAll(fs)[..t] + [Settle(fs[t])];
        particles := particles + [Settle(fs[t])];
        t := t + 1;
      }
      assert SettleAll(fs)[..t] == SettleAll(fs);
    }

    /**
     * `updateExplosions`: every explosion ages one tick; the ones still visible stay in
     * order with their fragments drifting, the others hand their fragments to the store.
     */
    method UpdateExplosions()
      requires Valid()
      modifies this`particles, this`explosions
      ensures Valid()
      ensures explosions == Survivors(old(explosions))
      ensures particles == old(particles) + Released(old(explosions))
      ensures AllIds(State()) == AllIds(old(State()))
    {
      AgeExplosions();
      AgeingKeepsWellFormed(old(State()));
      UpdateConservesIds(old(explosions));
      IdBagAppend(old(particles), Released(old(explosions)));
    }

    /** The loop of `updateExplosions`. */
    method AgeExplosions()
      modifies this`particles, this`explosions
      ensures explosions == Survivors(old(explosions))
      ensures particles == old(particles) + Released(old(explosions))
    {
      ghost var es := explosions;
      ghost var ps := particles;
      var kept: seq<Explosion> := [];
      var k := 0;
      while k < |explosions|
        invariant explosions == es && 0 <= k <= |es|
        invariant kept == Survivors(es[..k])
        invariant particles == ps + Released(es[..k])
      {
        AgeStep(es, k);
        var e := Tick(explosions[k]);
        if e.opacity > 0 {
          kept := kept + [e.(fragments := DriftAll(e.fragments))];
        } else {
          ReleaseFragments(e.fragments);
        }
        k := k + 1;
      }
      assert es[..k] == es;
      explosions := kept;
    }

    /** The `forEach` of `forceReactionAtPoint` that groups the nearby particles by symbol. */
    method GroupBySymbol(near: seq<Particle>) returns (groups: map<string, seq<Particle>>)
      ensures forall sym :: sym in groups <==> OfSymbol(near, sym) != []
      ensures forall sym | sym in groups :: groups[sym] == OfSymbol(near, sym)
    {
      groups := map[];
      var k := 0;
      while k < |near|
        invariant 0 <= k <= |near| && Grouped(groups, near[..k])
      {
        var p := near[k];
        assert near[..k + 1] == near[..k] + [p];
        GroupedPush(groups, near[..k], p);
        if p.element.symbol !in groups {
          groups := groups[p.element.symbol := []];
        }
        groups := groups[p.element.symbol := groups[p.element.symbol] + [p]];
        k := k + 1;
      }
      assert near[..k] == near;
    }

    /** The success branches of `forceReactionAtPoint`: filter out the reagents, then the big explosion. */
    method ConsumeReagents(x: real, y: real, f: Forced, d: Draws)
      requires Valid() && IsDraws(d) && |f.reagents| == 3
      modifies this`particles, this`explosions, this`nextId
      ensures Valid()
      ensures State() == ApplyForced(old(State()), x, y, f, d)
    {
      ghost var st := State();
      ghost var n := BigBurstSize(d.rCount);
      particles := RemoveIds(particles, ReagentIds(f));
      CreateBigExplosion(x, y, f.product, d);
      assert particles == RemoveIds(st.particles, ReagentIds(f)) + [Molecule(st.nextId + n, x, y, f.product, d)];
      assert explosions == st.explosions + [BigExplosion(x, y, f.product.Color(), d, st.nextId)];
      assert State() == ApplyForced(st, x, y, f, d);
      ApplyForcedWellFormed(st, x, y, f, d);
      ApplyForcedNoReissue(st, x, y, f, d);
    }

    /**
     * `forceReactionAtPoint`: with at least two particles in reach of the click, one
     * carbon and two oxygens become CO2, or else two hydrogens and one oxygen become
     * H2O, with a big explosion at the click; otherwise nothing changes.
     */
    method ForceReactionAtPoint(x: real, y: real, d: Draws)
      requires Valid() && IsDraws(d)
      modifies this`particles, this`explosions, this`nextId
      ensures Valid()
      ensures State() == ForcedResult(old(State()), x, y, d)
      ensures NoReissue(old(State()), State())
    {
      ForcedResultNoReissue(State(), x, y, d);
      var near := Nearby(particles, x, y);
      if |near| < 2 {
        return;
      }
      var groups := GroupBySymbol(near);
      if "C" in groups && "O" in groups && |groups["O"]| >= 2 {
        var c: Particle, o1: Particle, o2: Particle := groups["C"][0], groups["O"][0], groups["O"][1];
        assert ForcedChoice(particles, x, y) == Some(Forced(CO2, [c, o1, o2]));
        ConsumeReagents(x, y, Forced(CO2, [c, o1, o2]), d);
      } else if "H" in groups && |groups["H"]| >= 2 && "O" in groups {
        var h1: Particle, h2: Particle, o: Particle := groups["H"][0], groups["H"][1], groups["O"][0];
        assert ForcedChoice(particles, x, y) == Some(Forced(H2O, [h1, h2, o]));
        ConsumeReagents(x, y, Forced(H2O, [h1, h2, o]), d);
      } else {
        assert ForcedChoice(particles, x, y) == None;
      }
    }

    /**
     * `handleMouseDown`: ignored on mobile and on page controls; a press on a particle
     * grabs the first one under the pointer, otherwise the press forces a reaction.
     */
    method HandleMouseDown(x: real, y: real, onControl: bool, d: Draws)
      requires Valid() && IsDraws(d)
      modifies this`particles, this`explosions, this`nextId, this`dragged
      ensures Valid()
      ensures isMobile || onControl ==> State() == old(State()) && dragged == old(dragged)
      ensures !isMobile && !onControl && FirstHit(old(particles), x, y, 0).Some? ==>
        var k := FirstHit(old(particles), x, y, 0).value;
        && dragged == Some(old(particles)[k].id)
        && particles == old(particles)[k := Grab()(old(particles)[k])]
        && explosions == old(explosions) && nextId == old(nextId)
      ensures !isMobile && !onControl && FirstHit(old(particles), x, y, 0).None? ==>
        dragged == old(dragged) && State() == ForcedResult(old(State()), x, y, d)
      ensures NoReissue(old(State()), State())
    {
      if isMobile {
        return;
      }
      if onControl {
        return;
      }
      var clicked := FirstHit(particles, x, y, 0);
      if clicked.Some? {
        var k := clicked.value;
        IdBagMember(particles, particles[k].id);
        assert particles[k].id in AllIds(State());
        dragged := Some(particles[k].id);
        particles := particles[k := Grab()(particles[k])];
        IdBagSameIds(particles, old(particles));
        assert AllIds(State()) == AllIds(old(State()));
      } else {
        ForceReactionAtPoint(x, y, d);
      }
    }

    /** `handleMouseMove`: records the pointer and pins the dragged particle, if any, to it. */
    method HandleMouseMove(x: real, y: real)
      requires Valid()
      modifies this`particles, this`mouse
      ensures Valid()
      ensures mouse == Some(Point(x, y))
      ensures dragged.None? ==> particles == old(particles)
      ensures dragged.Some? ==> particles == SetById(old(particles), dragged.value, PinTo(x, y))
    {
      mouse := Some(Point(x, y));
      if dragged.Some? {
        particles := SetById(particles, dragged.value, PinTo(x, y));
        SetByIdKeepsIds(old(particles), dragged.value, PinTo(x, y));
        assert AllIds(State()) == AllIds(old(State()));
      }
    }

    /** `handleMouseUp`: throws the dragged particle, if any, with a small random velocity, and ends the drag. */
    method HandleMouseUp(r1: real, r2: real)
      requires Valid() && IsDraw(r1) && IsDraw(r2)
      modifies this`particles, this`dragged
      ensures Valid()
      ensures dragged == None
      ensures old(dragged).None? ==> particles == old(particles)
      ensures old(dragged).Some? ==>
        particles == SetById(old(particles), old(dragged).value, Throw(ReleaseSpeed(r1), ReleaseSpeed(r2)))
    {
      if dragged.Some? {
        var f := Throw(ReleaseSpeed(r1), ReleaseSpeed(r2));
        particles := SetById(particles, dragged.value, f);
        SetByIdKeepsIds(old(particles), dragged.value, f);
        assert AllIds(State()) == AllIds(old(State()));
        dragged := None;
      }
    }

    /** The `mouseleave` listener: forget the pointer, then end any drag. */
    method HandleMouseLeave(r1: real, r2: real)
      requires Valid() && IsDraw(r1) && IsDraw(r2)
      modifies this`particles, this`dragged, this`mouse
      ensures Valid()
      ensures mouse == None && dragged == None
      ensures old(dragged).None? ==> particles == old(particles)
      ensures old(dragged).Some? ==>
        particles == SetById(old(particles), old(dragged).value, Throw(ReleaseSpeed(r1), ReleaseSpeed(r2)))
    {
      mouse := None;
      HandleMouseUp(r1, r2);
    }

    /**
     * The proximity pass of `animate`: reset every flag but the dragged particle's, then
     * light up both particles of each bonded pair; the axis prefilter skips far pairs.
     */
    method RefreshActive()
      requires Valid()
      modifies this`particles
      ensures Valid()
      ensures particles == ActivePass(old(particles), dragged)
    {
      ghost var ps := particles;
      ResetActive();
      ScanStart(particles, ps, dragged);
      var i := 0;
      while i < |particles|
        invariant 0 <= i <= |ps| && ScanState(particles, ps, dragged, i, i + 1)
      {
        var j := i + 1;
        while j < |particles|
          invariant i + 1 <= j <= |ps| && ScanState(particles, ps, dragged, i, j)
        {
          ScanPairStep(particles, ps, dragged, i, j);
          var p1 := particles[i];
          var p2 := particles[j];
          if Abs(p1.x - p2.x) > 120.0 || Abs(p1.y - p2.y) > 120.0 {
            PrefilterSound(p1, p2);
          } else if DistanceSquared(p1, p2) < 14400.0 && CanBondWith(p1, p2) {
            particles := particles[i := particles[i].(active := true)];
            particles := particles[j := particles[j].(active := true)];
          }
          j := j + 1;
        }
        ScanRowStep(particles, ps, dragged, i);
        i := i + 1;
      }
      ScanFinish(particles, ps, dragged, i);
      IdBagSameIds(particles, ps);
      assert AllIds(State()) == AllIds(old(State()));
    }

    /** The reset `forEach` of the proximity pass: every particle but the dragged one goes dark. */
    method ResetActive()
      modifies this`particles
      ensures ResetDone(particles, old(particles), dragged)
    {
      var k := 0;
      while k < |particles|
        invariant 0 <= k <= |old(particles)| && |particles| == |old(particles)|
        invariant forall m :: 0 <= m < |particles| ==>
          particles[m] == old(particles)[m].(active := if m < k then KeptActive(old(particles)[m], dragged) else old(particles)[m].active)
      {
        if Some(particles[k].id) != dragged {
          particles := particles[k := particles[k].(active := false)];
        }
        k := k + 1;
      }
    }

    /** The `forEach` of `animate` that moves every particle. */
    method MoveAll()
      requires Valid()
      modifies this`particles
      ensures Valid()
      ensures |particles| == |old(particles)|
      ensures forall k :: 0 <= k < |particles| ==> particles[k] == Update(old(particles)[k], width, height)
    {
      var k := 0;
      while k < |particles|
        invariant 0 <= k <= |old(particles)| && |particles| == |old(particles)|
        invariant forall m :: 0 <= m < |particles| ==>
          particles[m] == if m < k then Update(old(particles)[m], width, height) else old(particles)[m]
      {
        particles := particles[k := Update(particles[k], width, height)];
        k := k + 1;
      }
      IdBagSameIds(particles, old(particles));
      assert AllIds(State()) == AllIds(old(State()));
    }

    /**
     * One frame of `animate`: advance the frame counter, refresh the content areas every
     * 60th frame, recompute the flags, scan for a reaction every 20th frame, age the
     * explosions and move every particle.
     */
    method Animate(areas: seq<Rect>, d: Draws)
      requires Valid() && IsDraws(d)
      modifies this`particles, this`explosions, this`nextId, this`frame, this`contentAreas
      ensures Valid()
      ensures frame == old(frame) + 1
      ensures contentAreas == if frame % 60 == 0 then areas else old(contentAreas)
      ensures State() == FrameStore(old(State()), dragged, frame % 20 == 0, d, width, height)
      ensures NoReissue(old(State()), State())
      ensures forall p | p in particles :: InBounds(p, width, height)
    {
      frame := frame + 1;
      if frame % 60 == 0 {
        contentAreas := areas;
      }
      FrameSteps(frame % 20 == 0, d);
    }

    /** The store's part of a frame: the flags, the reaction when `react` holds, ageing, motion. */
    method FrameSteps(react: bool, d: Draws)
      requires Valid() && IsDraws(d)
      modifies this`particles, this`explosions, this`nextId
      ensures Valid()
      ensures State() == FrameStore(old(State()), dragged, react, d, width, height)
      ensures NoReissue(old(State()), State())
      ensures forall p | p in particles :: InBounds(p, width, height)
    {
      FrameWellFormed(State(), dragged, react, d, width, height);
      FrameNoReissue(State(), dragged, react, d, width, height);
      LightAndReact(react, d);
      AgeAndMove();
    }

    /** The proximity pass, then `checkChemicalReactions` when `react` holds. */
    method LightAndReact(react: bool, d: Draws)
      requires Valid() && IsDraws(d)
      modifies this`particles, this`explosions, this`nextId
      ensures Valid()
      ensures State() == if react then ReactionStep(Lit(old(State()), dragged), d) else Lit(old(State()), dragged)
    {
      RefreshActive();
      if react {
        CheckChemicalReactions(d);
      }
    }

    /** `updateExplosions`, then the motion step of every particle. */
    method AgeAndMove()
      requires Valid()
      modifies this`particles, this`explosions
      ensures Valid()
      ensures State() == Aged(old(State())).(particles := Moved(Aged(old(State())).particles, width, height))
    {
      UpdateExplosions();
      MoveAll();
    }
  }
}
