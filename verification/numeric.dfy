/** Scalar helpers of the skybox template: `clamp`, the true modulo `mod`
    and the inverse-depth displacement with its three constants. */
module Numeric {

  /** `Math.min(Math.max(v, lo), hi)`. */
  function Clamp(v: real, lo: real, hi: real): (r: real)
    ensures lo <= hi ==> lo <= r <= hi
    ensures lo <= v <= hi ==> r == v
    ensures v < lo && lo <= hi ==> r == lo
    ensures hi < v && lo <= hi ==> r == hi
  {
    var m := if v < lo then lo else v;
    if m < hi then m else hi
  }

  lemma ClampMonotone(v: real, w: real, lo: real, hi: real)
    requires v <= w
    ensures Clamp(v, lo, hi) <= Clamp(w, lo, hi)
  {
  }

  /** The modulo that "supports negative values": `x - y * Math.floor(x / y)`.
      Its result has the sign of `y`, unlike JavaScript's `%`. */
  function Mod(x: real, y: real): (r: real)
    requires y != 0.0
    ensures y > 0.0 ==> 0.0 <= r < y
    ensures y < 0.0 ==> y < r <= 0.0
  {
    var k := (x / y).Floor;
    FloorBounds(x, y, k);
    x - y * (k as real)
  }

  lemma FloorBounds(x: real, y: real, k: int)
    requires y != 0.0 && k == (x / y).Floor
    ensures y > 0.0 ==> 0.0 <= x - y * (k as real) < y
    ensures y < 0.0 ==> y < x - y * (k as real) <= 0.0
  {
    var q := x / y;
    var t := q - k as real;
    assert 0.0 <= t < 1.0;
    DivMul(x, y);
    Distribute(y, q, k as real);
    ScaleFraction(y, t);
    assert y * t == y * (q - k as real);
    assert y * t == y * q - y * (k as real);
    assert y * t == x - y * (k as real);
  }

  lemma DivMul(x: real, y: real)
    requires y != 0.0
    ensures y * (x / y) == x
  {
  }

  lemma Distribute(y: real, q: real, kr: real)
    ensures y * (q - kr) == y * q - y * kr
  {
  }

  lemma ScaleFraction(y: real, t: real)
    requires 0.0 <= t < 1.0
    ensures y > 0.0 ==> 0.0 <= y * t < y
    ensures y < 0.0 ==> y < y * t <= 0.0
  {
  }

  /** Shifting by a whole number of periods does not change the wrapped value. */
  lemma {:induction false} ModPeriodic(x: real, y: real, k: int)
    requires y != 0.0
    ensures Mod(x + (k as real) * y, y) == Mod(x, y)
  {
    var q := x / y;
    var n := x + (k as real) * y;
    DivMul(x, y);
    assert (q + k as real) * y == q * y + (k as real) * y;
    DivUnique(n, y, q + k as real);
    var f := q.Floor;
    assert (n / y).Floor == f + k;
    DistributeSum(y, f as real, k as real);
    assert y * ((f + k) as real) == y * (f as real) + y * (k as real);
    assert Mod(n, y) == n - y * ((f + k) as real);
    assert Mod(x, y) == x - y * (f as real);
  }

  lemma DistributeSum(y: real, u: real, v: real)
    ensures y * (u + v) == y * u + y * v
  {
  }

  /** Real division by a non-zero `y` has exactly one answer. */
  lemma DivUnique(n: real, y: real, q: real)
    requires y != 0.0 && q * y == n
    ensures n / y == q
  {
    DivMul(n, y);
    Cancel(y, n / y, q);
  }

  lemma Cancel(y: real, a: real, b: real)
    requires y != 0.0 && y * a == y * b
    ensures a == b
  {
    Distribute(y, a, b);
    assert y * (a - b) == 0.0;
    NoZeroDivisors(y, a - b);
  }

  lemma NoZeroDivisors(y: real, t: real)
    requires y != 0.0 && y * t == 0.0
    ensures t == 0.0
  {
  }

  /** Values already in `[0, y)` are left alone. */
  lemma {:induction false} ModOfInRange(x: real, y: real)
    requires 0.0 <= x < y
    ensures Mod(x, y) == x
  {
    var q := x / y;
    assert 0.0 <= q < 1.0 by {
      assert q * y == x;
      assert q < 0.0 ==> q * y < 0.0;
      assert q >= 1.0 ==> q * y >= y;
    }
    assert q.Floor == 0;
  }

  // Constants of the displacement step: the factor is kept within
  // `[MinRatio * Scale, MaxRatio * Scale]`; the ratios bound it, not the depth.
  const MinRatio: real := 0.1
  const Scale: real := 10.0
  const MaxRatio: real := 10.0

  /** Per-vertex radial factor: `clamp(scale / rawDepth, min * scale, max * scale)`.
      A raw depth of zero gives `+Infinity` in JavaScript, which the clamp sends to
      the upper bound; that case is written out. */
  function Displacement(rawDepth: real): (d: real)
    ensures MinRatio * Scale <= d <= MaxRatio * Scale
    ensures 1.0 <= d <= 100.0
    ensures rawDepth > 0.0 && MinRatio * Scale <= Scale / rawDepth <= MaxRatio * Scale
      ==> d == Scale / rawDepth
    ensures rawDepth == 0.0 ==> d == MaxRatio * Scale
    ensures rawDepth < 0.0 ==> d == MinRatio * Scale
  {
    if rawDepth == 0.0 then MaxRatio * Scale
    else Clamp(Scale / rawDepth, MinRatio * Scale, MaxRatio * Scale)
  }

  /** Nearer scene depth never yields a smaller displacement. */
  lemma {:induction false} DisplacementAntitone(a: real, b: real)
    requires 0.0 <= a <= b
    ensures Displacement(b) <= Displacement(a)
  {
    if a > 0.0 {
      assert Scale / b <= Scale / a by {
        assert Scale / b * b == Scale && Scale / a * a == Scale;
        assert Scale / b * a <= Scale / b * b;
      }
      ClampMonotone(Scale / b, Scale / a, MinRatio * Scale, MaxRatio * Scale);
    }
  }
}
