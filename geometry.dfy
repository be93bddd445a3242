/** A value that may be absent: an enemy's fire attempt that emits no bullet. */
module Wrappers {
  datatype Option<+T> = None | Some(value: T)
}

/**
 * Plane geometry of the arena (the pygame `Vector2` operations the game uses)
 * and the helpers of captain_forever/utils.py: the toroidal wrap applied to
 * ships and the contract of the random position source.
 *
 * Coordinates are exact reals. The source only ever compares a distance with
 * a bound, so distances are handled as squared lengths and no square root is
 * needed.
 */
module Geometry {

  datatype Vec = Vec(x: real, y: real)

  const Zero := Vec(0.0, 0.0)

  function Add(a: Vec, b: Vec): Vec { Vec(a.x + b.x, a.y + b.y) }

  function Sub(a: Vec, b: Vec): Vec { Vec(a.x - b.x, a.y - b.y) }

  function Scale(a: Vec, k: real): Vec { Vec(a.x * k, a.y * k) }

  /** Squared magnitude. */
  function SqLen(a: Vec): real { a.x * a.x + a.y * a.y }

  /** Squared distance from `a` to `b`. */
  function SqDist(a: Vec, b: Vec): real { SqLen(Sub(b, a)) }

  /** A distance compares with a non-negative bound exactly as its square does. */
  lemma {:induction false} SquareMonotone(d: real, s: real)
    requires d >= 0.0 && s >= 0.0
    ensures d < s <==> d * d < s * s
  {
    assert s * s - d * d == (s - d) * (s + d);
    if d < s {
      MulStrict(0.0, s - d, s + d);
    } else {
      MulMonotone(s - d, 0.0, s + d);
    }
  }

  lemma MulMonotone(a: real, b: real, m: real)
    requires a <= b && m >= 0.0
    ensures a * m <= b * m
  {
  }

  lemma MulStrict(a: real, b: real, m: real)
    requires a < b && m > 0.0
    ensures a * m < b * m
  {
  }

  /** `floor(a / m)` multiples of `m` bracket `a`. */
  lemma FloorBounds(a: real, m: real)
    requires m > 0.0
    ensures (a / m).Floor as real * m <= a < (a / m).Floor as real * m + m
  {
    var q := a / m;
    var f := q.Floor as real;
    assert f <= q < f + 1.0;
    assert q * m == a;
    MulMonotone(f, q, m);
    MulStrict(q, f + 1.0, m);
    assert (f + 1.0) * m == f * m + m;
  }

  /**
   * Python's `%` with a positive modulus: the remainder takes the sign of the
   * modulus, so it always lies in [0, m).
   */
  function FloorMod(a: real, m: real): (r: real)
    requires m > 0.0
    ensures 0.0 <= r < m
  {
    FloorBounds(a, m);
    a - (a / m).Floor as real * m
  }

  /** The remainder is determined by being in range and differing from `a` by a multiple of `m`. */
  lemma FloorModUnique(a: real, m: real, k: int, r: real)
    requires m > 0.0
    requires 0.0 <= r < m && a == r + k as real * m
    ensures FloorMod(a, m) == r
  {
    var q := a / m;
    assert q * m == a;
    assert (k as real + 1.0) * m == k as real * m + m;
    if q < k as real {
      MulStrict(q, k as real, m);
    }
    if q >= k as real + 1.0 {
      MulMonotone(k as real + 1.0, q, m);
    }
    assert q.Floor == k;
  }

  /** Adding whole multiples of the modulus does not change the remainder. */
  lemma FloorModPeriodic(a: real, m: real, k: int)
    requires m > 0.0
    ensures FloorMod(a + k as real * m, m) == FloorMod(a, m)
  {
    var r := FloorMod(a, m);
    var f := (a / m).Floor;
    assert a == r + f as real * m;
    FloorModUnique(a + k as real * m, m, f + k, r);
  }

  /** Values already in [0, m) are left alone. */
  lemma FloorModInRange(a: real, m: real)
    requires m > 0.0 && 0.0 <= a < m
    ensures FloorMod(a, m) == a
  {
    FloorModUnique(a, m, 0, a);
  }

  /** Half-open arena rectangle [0, width) x [0, height): where wrapped positions lie. */
  predicate InTorus(p: Vec, width: int, height: int)
  {
    0.0 <= p.x < width as real && 0.0 <= p.y < height as real
  }

  /** Closed arena rectangle [0, width] x [0, height]: where bullets are kept. */
  predicate InRect(p: Vec, width: int, height: int)
  {
    0.0 <= p.x <= width as real && 0.0 <= p.y <= height as real
  }

  /** One axis of `wrap_position`: the coordinate modulo the screen dimension. */
  function WrapAxis(a: real, size: int): (r: real)
    requires size > 0
    ensures 0.0 <= r < size as real
  {
    FloorMod(a, size as real)
  }

  /** `wrap_position`: each axis taken modulo its dimension. */
  function Wrap(p: Vec, width: int, height: int): (r: Vec)
    requires width > 0 && height > 0
    ensures InTorus(r, width, height)
  {
    Vec(WrapAxis(p.x, width), WrapAxis(p.y, height))
  }

  lemma WrapAxisPeriodic(a: real, size: int, k: int)
    requires size > 0
    ensures WrapAxis(a + k as real * size as real, size) == WrapAxis(a, size)
  {
    FloorModPeriodic(a, size as real, k);
  }

  /** Wrapping is periodic on each axis independently. */
  lemma WrapPeriodic(p: Vec, width: int, height: int, k: int, j: int)
    requires width > 0 && height > 0
    ensures Wrap(Vec(p.x + k as real * width as real, p.y + j as real * height as real), width, height)
         == Wrap(p, width, height)
  {
    WrapAxisPeriodic(p.x, width, k);
    WrapAxisPeriodic(p.y, height, j);
  }

  /** Positions inside the arena are fixed points, so wrapping twice is wrapping once. */
  lemma WrapFixesArena(p: Vec, width: int, height: int)
    requires width > 0 && height > 0
    ensures InTorus(p, width, height) <==> Wrap(p, width, height) == p
    ensures Wrap(Wrap(p, width, height), width, height) == Wrap(p, width, height)
  {
    if InTorus(p, width, height) {
      FloorModInRange(p.x, width as real);
      FloorModInRange(p.y, height as real);
    }
    var q := Wrap(p, width, height);
    FloorModInRange(q.x, width as real);
    FloorModInRange(q.y, height as real);
  }

  /** The four cases worked for an 800 x 600 screen. */
  lemma WrapExamples()
    ensures Wrap(Vec(-50.0, -50.0), 800, 600) == Vec(750.0, 550.0)
    ensures Wrap(Vec(850.0, 300.0), 800, 600) == Vec(50.0, 300.0)
    ensures Wrap(Vec(400.0, 650.0), 800, 600) == Vec(400.0, 50.0)
    ensures Wrap(Vec(-50.0, 300.0), 800, 600) == Vec(750.0, 300.0)
  {
    FloorModUnique(-50.0, 800.0, -1, 750.0);
    FloorModUnique(-50.0, 600.0, -1, 550.0);
    FloorModUnique(850.0, 800.0, 1, 50.0);
    FloorModUnique(300.0, 600.0, 0, 300.0);
    FloorModUnique(400.0, 800.0, 0, 400.0);
    FloorModUnique(650.0, 600.0, 1, 50.0);
  }

  /**
   * Contract of `get_random_position`: `randrange` on each axis, so whole-number
   * coordinates with 0 <= x < width and 0 <= y < height.
   */
  predicate IsSample(p: Vec, width: int, height: int)
  {
    p.x == p.x.Floor as real && p.y == p.y.Floor as real && InTorus(p, width, height)
  }

  /** A drawn position is already inside the arena, so wrapping leaves it where it is. */
  lemma SampleIsWrapped(p: Vec, width: int, height: int)
    requires width > 0 && height > 0 && IsSample(p, width, height)
    ensures Wrap(p, width, height) == p
    ensures InRect(p, width, height)
  {
    WrapFixesArena(p, width, height);
  }
}
