/** `bilinearSample`: an edge-clamped bilinear lookup into a row-major
    `width x height` depth grid. */
module DepthField {
  import opened Mesh

  /** `Math.max(0, Math.min(k, size - 1))`: an integer coordinate clamped onto the grid. */
  function ClampIndex(k: int, size: nat): (r: int)
    requires size >= 1
    ensures 0 <= r < size
    ensures 0 <= k < size ==> r == k
    ensures k < 0 ==> r == 0
    ensures k >= size ==> r == size - 1
  {
    var m := if k < size - 1 then k else size - 1;
    if 0 < m then m else 0
  }

  /** The two grid lines bracketing one continuous coordinate, after clamping. */
  datatype Neighbours = Neighbours(lo: int, hi: int)

  /** `x1 = floor(c)`, `x2 = x1 + 1`, both clamped independently. The pair is either
      degenerate (the coordinate lies at or beyond an edge) or two adjacent lines
      that bracket the coordinate; so the divisor `x2 - x1` is 0 or exactly 1. */
  function AxisNeighbours(c: real, size: nat): (n: Neighbours)
    requires size >= 1
    ensures 0 <= n.lo <= n.hi < size
    ensures n.hi == n.lo || n.hi == n.lo + 1
    ensures n.lo != n.hi ==> n.lo as real <= c < n.hi as real
    ensures n.lo == n.hi <==> c.Floor < 0 || c.Floor >= size - 1
  {
    var k := c.Floor;
    Neighbours(ClampIndex(k, size), ClampIndex(k + 1, size))
  }

  /** One axis of the interpolation. When the two neighbours coincide the axis is
      skipped and the first value is returned; otherwise the weights
      `(hi - c)/(hi - lo)` and `(c - lo)/(hi - lo)` are used. */
  function Interpolate(n: Neighbours, c: real, a: real, b: real): (r: real)
    requires n.lo == n.hi || (n.hi == n.lo + 1 && n.lo as real <= c <= n.hi as real)
    ensures (a <= r <= b) || (b <= r <= a)
    ensures n.lo == n.hi ==> r == a
    ensures c == n.lo as real ==> r == a
    ensures n.lo != n.hi && c == n.hi as real ==> r == b
  {
    if n.hi == n.lo then a
    else
      var d := (n.hi - n.lo) as real;
      UnitStep(n.lo as real, n.hi as real, c, a, b);
      ((n.hi as real - c) / d) * a + ((c - n.lo as real) / d) * b
  }

  /** Between two adjacent grid lines the weights are `hi - c` and `c - lo`,
      both in `[0, 1]` and summing to one. */
  lemma UnitStep(lo: real, hi: real, c: real, a: real, b: real)
    requires hi == lo + 1.0 && lo <= c <= hi
    ensures var r := ((hi - c) / (hi - lo)) * a + ((c - lo) / (hi - lo)) * b;
      ((a <= r <= b) || (b <= r <= a)) && (c == lo ==> r == a) && (c == hi ==> r == b)
  {
    DivideByOne(hi - c, hi - lo);
    DivideByOne(c - lo, hi - lo);
    ConvexCombination((hi - c) / (hi - lo), (c - lo) / (hi - lo), a, b);
  }

  lemma DivideByOne(n: real, d: real)
    requires d == 1.0
    ensures n / d == n
  {
  }

  /** `s * a + t * b` for weights `s, t >= 0` with `s + t == 1` lies between `a`
      and `b`, and is `a` when `s == 1` and `b` when `t == 1`. */
  lemma ConvexCombination(s: real, t: real, a: real, b: real)
    requires 0.0 <= s && 0.0 <= t && s + t == 1.0
    ensures (a <= s * a + t * b <= b) || (b <= s * a + t * b <= a)
    ensures s == 1.0 ==> s * a + t * b == a
    ensures t == 1.0 ==> s * a + t * b == b
  {
    var d := a - b;
    SameWeights(s, t, s, a, b);
    OffsetForm(s, a, b);
    assert s * a + t * b == b + s * d;
    if d >= 0.0 {
      ScaleWithin(s, d);
    } else {
      ScaleWithin(s, -d);
      Negate(s, d);
    }
    if s == 1.0 {
      OneTimes(d);
    }
    if t == 1.0 {
      ZeroTimes(d);
    }
  }

  lemma SameWeights(s: real, t: real, w: real, a: real, b: real)
    requires s == w && t == 1.0 - w
    ensures s * a + t * b == w * a + (1.0 - w) * b
  {
  }

  /** `w * a + (1 - w) * b == b + w * (a - b)`. */
  lemma OffsetForm(w: real, a: real, b: real)
    ensures w * a + (1.0 - w) * b == b + w * (a - b)
  {
    assert (1.0 - w) * b == b - w * b;
    assert w * (a - b) == w * a - w * b;
  }

  /** Scaling a non-negative `d` by a weight in `[0, 1]` lands in `[0, d]`. */
  lemma ScaleWithin(w: real, d: real)
    requires 0.0 <= w <= 1.0 && 0.0 <= d
    ensures 0.0 <= w * d <= d
  {
    assert (1.0 - w) * d >= 0.0;
    assert (1.0 - w) * d == d - w * d;
  }

  lemma Negate(w: real, d: real)
    ensures w * (-d) == -(w * d)
  {
  }

  lemma OneTimes(d: real)
    ensures 1.0 * d == d
  {
  }

  lemma ZeroTimes(d: real)
    ensures 0.0 * d == 0.0
  {
  }

  /** Row-major offset of cell `(x, y)`; it always lands inside the grid. */
  function CellIndex(x: int, y: int, width: nat, height: nat): (k: nat)
    requires 0 <= x < width && 0 <= y < height
    ensures k < width * height
    ensures y * width <= k < (y + 1) * width
  {
    assert (y + 1) * width == y * width + width;
    assert (y + 1) * width <= height * width;
    y * width + x
  }

  /** The smallest and largest values of a non-empty grid. */
  function Minimum(s: seq<real>): (m: real)
    requires |s| > 0
    ensures m in s
    ensures forall k :: 0 <= k < |s| ==> m <= s[k]
  {
    if |s| == 1 then s[0]
    else var m := Minimum(s[1..]); if s[0] <= m then s[0] else m
  }

  function Maximum(s: seq<real>): (m: real)
    requires |s| > 0
    ensures m in s
    ensures forall k :: 0 <= k < |s| ==> s[k] <= m
  {
    if |s| == 1 then s[0]
    else var m := Maximum(s[1..]); if s[0] >= m then s[0] else m
  }

  /** `bilinearSample(depthData, uv, width, height)`. Total for every real `uv`:
      every read is inside the grid and no division by zero occurs. The result
      never leaves the range of the grid's values. */
  function BilinearSample(depth: seq<real>, uv: UV, width: nat, height: nat): (r: real)
    requires width >= 1 && height >= 1 && |depth| == width * height
    ensures Minimum(depth) <= r <= Maximum(depth)
  {
    SampleAtPixel(depth, uv.u * width as real, uv.v * height as real, width, height)
  }

  /** The body of `bilinearSample` once `uv` is scaled to pixel coordinates:
      `r1` and `r2` on rows `y1` and `y2`, then the `y` axis between them. */
  function SampleAtPixel(depth: seq<real>, x: real, y: real, width: nat, height: nat): (r: real)
    requires width >= 1 && height >= 1 && |depth| == width * height
    ensures Minimum(depth) <= r <= Maximum(depth)
  {
    var ys := AxisNeighbours(y, height);
    var r1 := RowSample(depth, x, ys.lo, width, height);
    var r2 := RowSample(depth, x, ys.hi, width, height);
    Interpolate(ys, y, r1, r2)
  }

  /** The `x` axis of the interpolation on grid row `row`. */
  function RowSample(depth: seq<real>, x: real, row: int, width: nat, height: nat): (r: real)
    requires width >= 1 && height >= 1 && |depth| == width * height
    requires 0 <= row < height
    ensures Minimum(depth) <= r <= Maximum(depth)
  {
    var xs := AxisNeighbours(x, width);
    var q1 := depth[CellIndex(xs.lo, row, width, height)];
    var q2 := depth[CellIndex(xs.hi, row, width, height)];
    Interpolate(xs, x, q1, q2)
  }

  /** A grid holding one value everywhere samples to that value everywhere. */
  lemma {:induction false} SampleOfUniformGrid(depth: seq<real>, uv: UV, width: nat, height: nat, c: real)
    requires width >= 1 && height >= 1 && |depth| == width * height
    requires forall k :: 0 <= k < |depth| ==> depth[k] == c
    ensures BilinearSample(depth, uv, width, height) == c
  {
    assert Minimum(depth) == c && Maximum(depth) == c;
  }

  /** Bounds on the grid carry over to every sample. */
  lemma {:induction false} SampleWithinBounds(depth: seq<real>, uv: UV, width: nat, height: nat, lo: real, hi: real)
    requires width >= 1 && height >= 1 && |depth| == width * height
    requires forall k :: 0 <= k < |depth| ==> lo <= depth[k] <= hi
    ensures lo <= BilinearSample(depth, uv, width, height) <= hi
  {
    assert lo <= Minimum(depth) && Maximum(depth) <= hi;
  }

  lemma OnGridLine(i: nat, size: nat)
    requires i < size
    ensures AxisNeighbours(i as real, size).lo == i
  {
    assert (i as real).Floor == i;
  }

  /** At integer pixel coordinates `(i, j)` inside the grid the interpolation
      reproduces cell `(i, j)` exactly. */
  lemma {:induction false} PixelAtGridPoint(depth: seq<real>, width: nat, height: nat, i: nat, j: nat)
    requires width >= 1 && height >= 1 && |depth| == width * height
    requires i < width && j < height
    ensures SampleAtPixel(depth, i as real, j as real, width, height) == depth[CellIndex(i, j, width, height)]
  {
    OnGridLine(i, width);
    OnGridLine(j, height);
    var r1 := RowSample(depth, i as real, j, width, height);
    assert r1 == depth[CellIndex(i, j, width, height)];
  }

}
