/** The displacement pass: each vertex of the unit sphere is pushed along its
    own ray by a factor read from the depth map at the vertex's (wrapped)
    texture coordinate. */
module SphereDisplacement {
  import opened Numeric
  import opened Mesh
  import opened DepthField

  /** The texture coordinate actually sampled: `u` wrapped into `[0, 1)` with
      the true modulo, `v` flipped and clamped into `[0, 1]`. */
  function WrapUV(uv: UV): (r: UV)
    ensures 0.0 <= r.u < 1.0 && 0.0 <= r.v <= 1.0
    ensures 0.0 <= uv.u < 1.0 ==> r.u == uv.u
    ensures 0.0 <= uv.v <= 1.0 ==> r.v == 1.0 - uv.v
    ensures uv.v > 1.0 ==> r.v == 0.0
    ensures uv.v < 0.0 ==> r.v == 1.0
  {
    var u := Mod(uv.u, 1.0);
    assert 0.0 <= uv.u < 1.0 ==> u == uv.u by {
      if 0.0 <= uv.u < 1.0 {
        ModOfInRange(uv.u, 1.0);
      }
    }
    UV(u, Clamp(1.0 - uv.v, 0.0, 1.0))
  }

  /** Going once around the sphere in `u` samples the same point. */
  lemma {:induction false} WrapUVPeriodic(uv: UV, k: int)
    ensures WrapUV(UV(uv.u + k as real, uv.v)) == WrapUV(uv)
  {
    ModPeriodic(uv.u, 1.0, k);
    assert uv.u + k as real == uv.u + (k as real) * 1.0;
  }

  /** The radial factor applied to vertex `i`. */
  function VertexFactor(uvs: seq<real>, i: nat, depth: seq<real>, width: nat, height: nat): (f: real)
    requires 2 * i + 2 <= |uvs|
    requires width >= 1 && height >= 1 && |depth| == width * height
    ensures MinRatio * Scale <= f <= MaxRatio * Scale
  {
    Displacement(BilinearSample(depth, WrapUV(TexCoord(uvs, i)), width, height))
  }

  /** The factor of every vertex, in vertex order. */
  function Factors(uvs: seq<real>, depth: seq<real>, width: nat, height: nat): (fs: seq<real>)
    requires |uvs| % 2 == 0
    requires width >= 1 && height >= 1 && |depth| == width * height
    ensures |fs| == |uvs| / 2
    ensures forall i :: 0 <= i < |fs| ==> fs[i] == VertexFactor(uvs, i, depth, width, height)
  {
    seq(|uvs| / 2, i requires 0 <= i < |uvs| / 2 => VertexFactor(uvs, i, depth, width, height))
  }

  /** A position buffer whose first `m` vertices are scaled by their factors. */
  function ScaledPrefix(positions: seq<real>, factors: seq<real>, m: nat): (r: seq<real>)
    requires |positions| % 3 == 0 && |factors| == |positions| / 3 && m <= |factors|
    ensures |r| == |positions|
  {
    seq(|positions|, k requires 0 <= k < |positions| =>
      if k < 3 * m then factors[k / 3] * positions[k] else positions[k])
  }

  /** The position buffer after the pass: every vertex scaled by its own factor. */
  function Displaced(positions: seq<real>, uvs: seq<real>, depth: seq<real>, width: nat, height: nat): (r: seq<real>)
    requires Shaped(positions, uvs)
    requires width >= 1 && height >= 1 && |depth| == width * height
    ensures |r| == |positions|
    ensures forall i {:trigger Position(r, i)} :: 0 <= i < VertexCount(positions) ==>
      Position(r, i) == Scaled(VertexFactor(uvs, i, depth, width, height), Position(positions, i))
  {
    var fs := Factors(uvs, depth, width, height);
    var r := ScaledPrefix(positions, fs, |fs|);
    forall i | 0 <= i < |fs| ensures Position(r, i) == Scaled(fs[i], Position(positions, i)) {
      ScaledVertex(positions, fs, |fs|, i);
    }
    r
  }

  lemma DivThree(i: nat)
    ensures (3 * i) / 3 == i && (3 * i + 1) / 3 == i && (3 * i + 2) / 3 == i
  {
  }

  /** Inside the prefix, vertex `i` is scaled by factor `i`. */
  lemma ScaledVertex(positions: seq<real>, factors: seq<real>, m: nat, i: nat)
    requires |positions| % 3 == 0 && |factors| == |positions| / 3 && m <= |factors| && i < m
    ensures Position(ScaledPrefix(positions, factors, m), i) == Scaled(factors[i], Position(positions, i))
  {
    DivThree(i);
  }

  /** Scaling vertex `m` turns the prefix for `m` into the prefix for `m + 1`. */
  lemma PrefixStep(positions: seq<real>, factors: seq<real>, m: nat)
    requires |positions| % 3 == 0 && |factors| == |positions| / 3 && m < |factors|
    ensures WithVertex(ScaledPrefix(positions, factors, m), m, Scaled(factors[m], Position(positions, m)))
      == ScaledPrefix(positions, factors, m + 1)
  {
    var after := WithVertex(ScaledPrefix(positions, factors, m), m, Scaled(factors[m], Position(positions, m)));
    var next := ScaledPrefix(positions, factors, m + 1);
    forall k | 0 <= k < |positions| ensures after[k] == next[k] {
      if 3 * m <= k < 3 * m + 3 {
        DivThree(m);
        assert k == 3 * m || k == 3 * m + 1 || k == 3 * m + 2;
        assert k / 3 == m;
      }
    }
    assert after == next;
  }

  /** `fromArray`, `multiplyScalar`, `toArray`: vertex `i` read out, scaled by
      `f` and written back in place. */
  method ScaleVertex(positions: array<real>, i: nat, f: real)
    requires 3 * i + 3 <= positions.Length
    modifies positions
    ensures positions[..] == WithVertex(old(positions[..]), i, Scaled(f, Position(old(positions[..]), i)))
  {
    var p := Vec3(positions[3 * i], positions[3 * i + 1], positions[3 * i + 2]);
    var q := Scaled(f, p);
    positions[3 * i], positions[3 * i + 1], positions[3 * i + 2] := q.x, q.y, q.z;
  }

  /** The displacement loop, in place on `positions`; `uvs` is only read. */
  method Displace(positions: array<real>, uvs: array<real>, depth: seq<real>, width: nat, height: nat)
    requires Shaped(positions[..], uvs[..]) && positions != uvs
    requires width >= 1 && height >= 1 && |depth| == width * height
    modifies positions
    ensures positions[..] == Displaced(old(positions[..]), uvs[..], depth, width, height)
  {
    ghost var P := positions[..];
    ghost var F := Factors(uvs[..], depth, width, height);
    var n := positions.Length / 3;
    var i := 0;
    while i < n
      invariant 0 <= i <= n
      invariant positions[..] == ScaledPrefix(P, F, i)
    {
      var uv := UV(uvs[2 * i], uvs[2 * i + 1]);
      assert uv == TexCoord(uvs[..], i);
      var sample := BilinearSample(depth, WrapUV(uv), width, height);
      var factor := Displacement(sample);
      assert factor == F[i];
      PrefixStep(P, F, i);
      ScaleVertex(positions, i, factor);
      i := i + 1;
    }
  }

  /** Scaling by a factor in `[1, 100]` keeps a point on its ray from the
      centre and moves it outwards, at most a hundredfold. */
  lemma RayScaling(f: real, p: Vec3)
    requires 1.0 <= f <= 100.0
    ensures var q := Scaled(f, p);
      Cross(p, q) == Vec3(0.0, 0.0, 0.0) &&
      Dot(p, p) <= Dot(p, q) && Dot(p, p) <= Dot(q, q) <= 10000.0 * Dot(p, p)
  {
    var q := Scaled(f, p);
    var s := Dot(p, p);
    assert s >= 0.0;
    assert Dot(p, q) == f * s;
    assert Dot(q, q) == f * f * s;
    assert s <= f * s by {
      assert (f - 1.0) * s >= 0.0;
    }
    assert f * s <= f * f * s by {
      assert (f * f - f) * s >= 0.0 by {
        assert f * f - f == f * (f - 1.0);
        assert f * (f - 1.0) >= 0.0;
      }
    }
    assert f * f * s <= 10000.0 * s by {
      assert f * f <= 10000.0 by {
        assert f * f <= 100.0 * f;
      }
      assert (10000.0 - f * f) * s >= 0.0;
    }
  }

  /** Every displaced vertex stays on the ray through its original position and
      moves outwards, by a factor of at most 100. */
  lemma {:induction false} DisplacedAlongRay(positions: seq<real>, uvs: seq<real>, depth: seq<real>, width: nat, height: nat, i: nat)
    requires Shaped(positions, uvs) && i < VertexCount(positions)
    requires width >= 1 && height >= 1 && |depth| == width * height
    ensures var p := Position(positions, i);
      var q := Position(Displaced(positions, uvs, depth, width, height), i);
      Cross(p, q) == Vec3(0.0, 0.0, 0.0) &&
      Dot(p, p) <= Dot(p, q) && Dot(p, p) <= Dot(q, q) <= 10000.0 * Dot(p, p)
  {
    RayScaling(VertexFactor(uvs, i, depth, width, height), Position(positions, i));
  }

  /** Vertices with the same position and the same texture coordinate are
      displaced to the same point. */
  lemma {:induction false} DisplacedCoincident(positions: seq<real>, uvs: seq<real>, depth: seq<real>, width: nat, height: nat, i: nat, j: nat)
    requires Shaped(positions, uvs) && i < VertexCount(positions) && j < VertexCount(positions)
    requires width >= 1 && height >= 1 && |depth| == width * height
    requires Position(positions, i) == Position(positions, j)
    requires TexCoord(uvs, i) == TexCoord(uvs, j)
    ensures var r := Displaced(positions, uvs, depth, width, height);
      Position(r, i) == Position(r, j)
  {
    var r := Displaced(positions, uvs, depth, width, height);
    assert Position(r, i) == Scaled(VertexFactor(uvs, i, depth, width, height), Position(positions, i));
    assert Position(r, j) == Scaled(VertexFactor(uvs, j, depth, width, height), Position(positions, j));
  }

  /** A grid that is one constant everywhere scales every vertex by that
      constant's displacement. */
  lemma {:induction false} DisplacedUniform(positions: seq<real>, uvs: seq<real>, depth: seq<real>, width: nat, height: nat, c: real)
    requires Shaped(positions, uvs)
    requires width >= 1 && height >= 1 && |depth| == width * height
    requires forall k :: 0 <= k < |depth| ==> depth[k] == c
    ensures forall i :: 0 <= i < VertexCount(positions) ==>
      Position(Displaced(positions, uvs, depth, width, height), i) == Scaled(Displacement(c), Position(positions, i))
  {
    forall i | 0 <= i < VertexCount(positions)
      ensures Position(Displaced(positions, uvs, depth, width, height), i) == Scaled(Displacement(c), Position(positions, i))
    {
      SampleOfUniformGrid(depth, WrapUV(TexCoord(uvs, i)), width, height, c);
    }
  }
}
