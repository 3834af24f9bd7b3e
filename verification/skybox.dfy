/** The geometry half of the skybox template: decode the depth image, then run
    the three in-place passes over the sphere's buffers in source order
    (stitch the UVs, displace the positions, reverse the triangles). */
module Skybox {
  import opened Numeric
  import opened Mesh
  import opened DepthDecode
  import opened Stitching
  import opened SphereDisplacement
  import opened Winding

  /** Decode, stitch, displace, reverse. Returns the decoded depth buffer. */
  method BuildMesh(data: seq<Byte>, width: nat, height: nat,
                   positions: array<real>, uvs: array<real>, indices: array<nat>)
    returns (depth: array<real>)
    requires width >= 1 && height >= 1
    requires Shaped(positions[..], uvs[..]) && positions != uvs
    requires indices.Length % 3 == 0
    modifies positions, uvs, indices
    ensures fresh(depth)
    ensures depth[..] == DecodedDepth(data, width * height)
    ensures uvs[..] == Stitched(old(positions[..]), old(uvs[..]))
    ensures positions[..] == Displaced(old(positions[..]), uvs[..], depth[..], width, height)
    ensures indices[..] == ReversedTriangles(old(indices[..]))
  {
    depth := DecodeDepth(data, width, height);
    Stitch(positions, uvs);
    Displace(positions, uvs, depth[..], width, height);
    ReverseWinding(indices);
  }

  /** The point of stitching: vertices that share a position before the passes
      (the seam at `u = 0` / `u = 1` and the poles) still share one after
      displacement, so the displaced sphere has no cracks. */
  lemma {:induction false} SeamsStayClosed(positions: seq<real>, uvs: seq<real>, depth: seq<real>,
                                           width: nat, height: nat, i: nat, j: nat)
    requires Shaped(positions, uvs) && i < VertexCount(positions) && j < VertexCount(positions)
    requires width >= 1 && height >= 1 && |depth| == width * height
    requires Position(positions, i) == Position(positions, j)
    ensures var r := Displaced(positions, Stitched(positions, uvs), depth, width, height);
      Position(r, i) == Position(r, j)
  {
    StitchedCoincident(positions, uvs, i, j);
    DisplacedCoincident(positions, Stitched(positions, uvs), depth, width, height, i, j);
  }

  /** An image whose red channel is `red` everywhere decodes to one depth. */
  lemma {:induction false} UniformImageDecodes(data: seq<Byte>, width: nat, height: nat, red: Byte)
    requires |data| == 4 * (width * height)
    requires forall i :: 0 <= i < |data| && i % 4 == 0 ==> data[i] == red
    ensures forall k :: 0 <= k < width * height ==> DecodedDepth(data, width * height)[k] == DepthOf(red)
  {
    forall k | 0 <= k < width * height
      ensures DecodedDepth(data, width * height)[k] == DepthOf(red)
    {
      assert (4 * k) % 4 == 0;
    }
  }

  /** An image whose red channel is `red` everywhere scales every vertex by
      the same factor. */
  lemma {:induction false} UniformImageScales(data: seq<Byte>, width: nat, height: nat, red: Byte,
                                              positions: seq<real>, uvs: seq<real>)
    requires width >= 1 && height >= 1 && Shaped(positions, uvs)
    requires |data| == 4 * (width * height)
    requires forall i :: 0 <= i < |data| && i % 4 == 0 ==> data[i] == red
    ensures forall v :: 0 <= v < VertexCount(positions) ==>
      Position(Displaced(positions, uvs, DecodedDepth(data, width * height), width, height), v)
        == Scaled(Displacement(DepthOf(red)), Position(positions, v))
  {
    UniformImageDecodes(data, width, height, red);
    DisplacedUniform(positions, uvs, DecodedDepth(data, width * height), width, height, DepthOf(red));
  }

  /** A white image (depth 10 everywhere) leaves the sphere as it is. */
  lemma {:induction false} WhiteImageKeepsSphere(data: seq<Byte>, width: nat, height: nat,
                                                 positions: seq<real>, uvs: seq<real>)
    requires width >= 1 && height >= 1 && Shaped(positions, uvs)
    requires |data| == 4 * (width * height)
    requires forall i :: 0 <= i < |data| && i % 4 == 0 ==> data[i] == 255
    ensures Displaced(positions, uvs, DecodedDepth(data, width * height), width, height) == positions
  {
    var r := Displaced(positions, uvs, DecodedDepth(data, width * height), width, height);
    UniformImageScales(data, width, height, 255, positions, uvs);
    assert Displacement(DepthOf(255)) == 1.0;
    forall v | 0 <= v < |positions| / 3 ensures Position(r, v) == Position(positions, v) {
      assert Position(r, v) == Scaled(1.0, Position(positions, v));
    }
    SamePositions(r, positions);
  }

  /** A black image (depth 0 everywhere) pushes every vertex to the far limit,
      a hundred times its distance. */
  lemma {:induction false} BlackImageFarthest(data: seq<Byte>, width: nat, height: nat,
                                              positions: seq<real>, uvs: seq<real>, v: nat)
    requires width >= 1 && height >= 1 && Shaped(positions, uvs) && v < VertexCount(positions)
    requires |data| == 4 * (width * height)
    requires forall i :: 0 <= i < |data| && i % 4 == 0 ==> data[i] == 0
    ensures Position(Displaced(positions, uvs, DecodedDepth(data, width * height), width, height), v)
      == Scaled(100.0, Position(positions, v))
  {
    UniformImageScales(data, width, height, 0, positions, uvs);
  }

  /** A uniform red byte of 51 decodes to depth 2, which displaces every
      vertex by a factor of 5. */
  lemma {:induction false} MidGreyScalesByFive(data: seq<Byte>, width: nat, height: nat,
                                               positions: seq<real>, uvs: seq<real>, v: nat)
    requires width >= 1 && height >= 1 && Shaped(positions, uvs) && v < VertexCount(positions)
    requires |data| == 4 * (width * height)
    requires forall i :: 0 <= i < |data| && i % 4 == 0 ==> data[i] == 51
    ensures Position(Displaced(positions, uvs, DecodedDepth(data, width * height), width, height), v)
      == Scaled(5.0, Position(positions, v))
  {
    UniformImageScales(data, width, height, 51, positions, uvs);
    assert DepthOf(51) == 2.0;
    assert Displacement(2.0) == 5.0;
  }
}
