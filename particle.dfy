/**
 * One chemical particle of the animated background (the `ChemicalParticle` class):
 * its element catalogue, its creation from random draws, its motion step with edge
 * bounce and clamping, squared distances and the symmetric bond table.
 *
 * A particle is a value here; the identity the source gets from object references
 * is the `id` field.
 */
module Particle {

  /** An element of the catalogue, or the synthetic label of a molecule (valence 0). */
  datatype Element = Element(symbol: string, color: string, name: string, valence: nat)

  /** The six elements a new particle is drawn from, in the order of the source's table. */
  const Catalog: seq<Element> := [
    Element("C", "#00ff88", "Carbon", 4),
    Element("H", "#ffffff", "Hydrogen", 1),
    Element("O", "#ff4444", "Oxygen", 2),
    Element("N", "#4488ff", "Nitrogen", 3),
    Element("Ni", "#00d4ff", "Nickel", 2),
    Element("Cu", "#ff8844", "Copper", 2)
  ]

  /** The symbols of the catalogue. */
  const ElementSymbols: set<string> := {"C", "H", "O", "N", "Ni", "Cu"}

  datatype Particle = Particle(
    id: nat,
    x: real, y: real,
    vx: real, vy: real,
    element: Element,
    active: bool)

  /** A value returned by `Math.random()`. */
  predicate IsDraw(r: real) { 0.0 <= r < 1.0 }

  predicate InBounds(p: Particle, width: real, height: real)
  {
    0.0 <= p.x <= width && 0.0 <= p.y <= height
  }

  /** `getRandomElement`: the catalogue entry at `floor(r * 6)`. */
  function RandomElement(r: real): (e: Element)
    requires IsDraw(r)
    ensures e in Catalog && e.symbol in ElementSymbols
  {
    Catalog[(r * 6.0).Floor]
  }

  /** The five draws the constructor and `reset` make for a new particle. */
  datatype Seed = Seed(rx: real, ry: real, rvx: real, rvy: real, rElement: real)

  predicate IsSeed(s: Seed)
  {
    IsDraw(s.rx) && IsDraw(s.ry) && IsDraw(s.rvx) && IsDraw(s.rvy) && IsDraw(s.rElement)
  }

  /**
   * A freshly constructed particle: a uniform position on the canvas, each velocity
   * component `(r - 0.5) * 0.2`, a random catalogue element, inactive.
   */
  function Spawn(id: nat, s: Seed, width: real, height: real): (p: Particle)
    requires IsSeed(s) && 0.0 <= width && 0.0 <= height
    ensures p.id == id && InBounds(p, width, height)
    ensures -0.1 <= p.vx < 0.1 && -0.1 <= p.vy < 0.1
    ensures p.element in Catalog && !p.active
  {
    Particle(id, Scale(s.rx, width), Scale(s.ry, height), (s.rvx - 0.5) * 0.2, (s.rvy - 0.5) * 0.2, RandomElement(s.rElement), false)
  }

  /** `Math.random() * extent`, which lies in `[0, extent]`. */
  function Scale(r: real, extent: real): (v: real)
    requires IsDraw(r) && 0.0 <= extent
    ensures 0.0 <= v <= extent
  {
    MulNonNegative(r, extent);
    MulNonNegative(1.0 - r, extent);
    Distribute(1.0, r, extent);
    r * extent
  }

  lemma MulNonNegative(a: real, b: real)
    requires 0.0 <= a && 0.0 <= b
    ensures a * b >= 0.0
  {
  }

  lemma MulPositive(a: real, b: real)
    requires 0.0 < a && 0.0 < b
    ensures a * b > 0.0
  {
  }

  lemma Distribute(a: real, b: real, c: real)
    ensures (a - b) * c == a * c - b * c
  {
  }

  function Max(a: real, b: real): real { if a < b then b else a }
  function Min(a: real, b: real): real { if a < b then a else b }

  /** `Math.max(0, Math.min(hi, v))` */
  function Clamp(v: real, hi: real): real { Max(0.0, Min(hi, v)) }

  /**
   * `update`: move by the velocity, negate a velocity component whose coordinate left
   * `[0, width]` (resp. `[0, height]`), then clamp the position into the canvas.
   */
  function Update(p: Particle, width: real, height: real): (q: Particle)
    requires 0.0 <= width && 0.0 <= height
    ensures InBounds(q, width, height)
    ensures q.id == p.id && q.element == p.element && q.active == p.active
    ensures q.vx == p.vx || q.vx == -p.vx
    ensures q.vy == p.vy || q.vy == -p.vy
    ensures q.vx != p.vx ==> p.x + p.vx < 0.0 || p.x + p.vx > width
    ensures q.vy != p.vy ==> p.y + p.vy < 0.0 || p.y + p.vy > height
    ensures 0.0 <= p.x + p.vx <= width ==> q.x == p.x + p.vx
    ensures 0.0 <= p.y + p.vy <= height ==> q.y == p.y + p.vy
  {
    var x, y := p.x + p.vx, p.y + p.vy;
    var vx := if x < 0.0 || x > width then -p.vx else p.vx;
    var vy := if y < 0.0 || y > height then -p.vy else p.vy;
    p.(x := Clamp(x, width), y := Clamp(y, height), vx := vx, vy := vy)
  }

  /**
   * A particle that starts inside the canvas and crosses an edge is stopped on that
   * edge and leaves it heading back inside.
   */
  lemma BounceTurnsInward(p: Particle, width: real, height: real)
    requires 0.0 <= width && 0.0 <= height && InBounds(p, width, height)
    ensures var q := Update(p, width, height);
      && (p.x + p.vx < 0.0 ==> q.x == 0.0 && q.vx > 0.0)
      && (p.x + p.vx > width ==> q.x == width && q.vx < 0.0)
      && (p.y + p.vy < 0.0 ==> q.y == 0.0 && q.vy > 0.0)
      && (p.y + p.vy > height ==> q.y == height && q.vy < 0.0)
  {
  }

  /** `distanceToSquared`; every `distanceTo(..) < r` of the source is `DistanceSquared(..) < r * r` here. */
  function DistanceSquared(p: Particle, q: Particle): real
  {
    (p.x - q.x) * (p.x - q.x) + (p.y - q.y) * (p.y - q.y)
  }

  lemma DistanceSquaredSymmetric(p: Particle, q: Particle)
    ensures DistanceSquared(p, q) == DistanceSquared(q, p) && DistanceSquared(p, q) >= 0.0
  {
  }

  /** The keys of the source's `bondRules` table. */
  const BondRules: set<string> := {
    "C-O", "O-C", "C-H", "H-C", "N-H", "H-N", "O-H", "H-O", "C-N", "N-C",
    "Ni-O", "O-Ni", "Cu-O", "O-Cu", "C-C", "N-O", "O-N"
  }

  /** The lookup key `${a}-${b}`. */
  function BondKey(a: string, b: string): string { a + "-" + b }

  /** `canBondWith` on two symbols: a missing key falls back to `false`. */
  predicate CanBond(a: string, b: string) { BondKey(a, b) in BondRules }

  predicate CanBondWith(p: Particle, q: Particle) { CanBond(p.element.symbol, q.element.symbol) }

  predicate IsPair(a: string, b: string, u: string, v: string)
  {
    (a == u && b == v) || (a == v && b == u)
  }

  /** The bond relation as a set of unordered pairs of catalogue symbols. */
  predicate BondablePair(a: string, b: string)
  {
    || IsPair(a, b, "C", "O") || IsPair(a, b, "C", "H") || IsPair(a, b, "N", "H")
    || IsPair(a, b, "O", "H") || IsPair(a, b, "C", "N") || IsPair(a, b, "Ni", "O")
    || IsPair(a, b, "Cu", "O") || IsPair(a, b, "C", "C") || IsPair(a, b, "N", "O")
  }

  /** A key holding a single '-' at position `d` determines both halves. */
  lemma KeySplit(a: string, b: string, key: string, d: nat)
    requires BondKey(a, b) == key && d < |key| && key[d] == '-'
    requires forall i :: 0 <= i < |key| && i != d ==> key[i] != '-'
    ensures a == key[..d] && b == key[d + 1..]
  {
    assert key[|a|] == '-';
  }

  lemma KeyOfPair(a: string, b: string)
    requires BondablePair(a, b)
    ensures BondKey(a, b) in BondRules
  {
    if IsPair(a, b, "C", "O") {
      assert BondKey("C", "O") == "C-O" && BondKey("O", "C") == "O-C";
    } else if IsPair(a, b, "C", "H") {
      assert BondKey("C", "H") == "C-H" && BondKey("H", "C") == "H-C";
    } else if IsPair(a, b, "N", "H") {
      assert BondKey("N", "H") == "N-H" && BondKey("H", "N") == "H-N";
    } else if IsPair(a, b, "O", "H") {
      assert BondKey("O", "H") == "O-H" && BondKey("H", "O") == "H-O";
    } else if IsPair(a, b, "C", "N") {
      assert BondKey("C", "N") == "C-N" && BondKey("N", "C") == "N-C";
    } else if IsPair(a, b, "Ni", "O") {
      assert BondKey("Ni", "O") == "Ni-O" && BondKey("O", "Ni") == "O-Ni";
    } else if IsPair(a, b, "Cu", "O") {
      assert BondKey("Cu", "O") == "Cu-O" && BondKey("O", "Cu") == "O-Cu";
    } else if IsPair(a, b, "C", "C") {
      assert BondKey("C", "C") == "C-C";
    } else {
      assert BondKey("N", "O") == "N-O" && BondKey("O", "N") == "O-N";
    }
  }

  /** The table lookup is exactly the unordered-pair relation, for all strings. */
  lemma CanBondIff(a: string, b: string)
    ensures CanBond(a, b) <==> BondablePair(a, b)
  {
    var k := BondKey(a, b);
    if BondablePair(a, b) {
      KeyOfPair(a, b);
    }
    if k in BondRules {
      if |k| == 3 {
        KeySplit(a, b, k, 1);
      } else {
        assert |k| == 4;
        if k[1] == '-' { KeySplit(a, b, k, 1); } else { KeySplit(a, b, k, 2); }
      }
    }
  }

  /** `canBondWith` is symmetric. */
  lemma CanBondSymmetric(a: string, b: string)
    ensures CanBond(a, b) == CanBond(b, a)
  {
    CanBondIff(a, b);
    CanBondIff(b, a);
  }

  /** A molecule label (any symbol outside the catalogue) bonds with nothing, on either side. */
  lemma MoleculeNeverBonds(a: string, b: string)
    requires a !in ElementSymbols
    ensures !CanBond(a, b) && !CanBond(b, a)
  {
    CanBondIff(a, b);
    CanBondIff(b, a);
  }
}
