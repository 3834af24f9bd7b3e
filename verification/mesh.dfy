/** Layout of the flat vertex buffers of a three.js buffer geometry:
    three reals per vertex in the position buffer, two per vertex in the
    UV buffer, three vertex indices per triangle in the index buffer. */
module Mesh {

  datatype Vec3 = Vec3(x: real, y: real, z: real)

  /** A texture coordinate; `u` runs around the sphere, `v` from pole to pole. */
  datatype UV = UV(u: real, v: real)

  /** The two buffers describe the same number of vertices. */
  predicate Shaped(positions: seq<real>, uvs: seq<real>)
  {
    |positions| % 3 == 0 && |uvs| == 2 * (|positions| / 3)
  }

  function VertexCount(positions: seq<real>): nat
  {
    |positions| / 3
  }

  /** The position of vertex `i`: entries `3i`, `3i+1`, `3i+2`. */
  function Position(positions: seq<real>, i: nat): Vec3
    requires 3 * i + 3 <= |positions|
  {
    Vec3(positions[3 * i], positions[3 * i + 1], positions[3 * i + 2])
  }

  /** The position buffer with vertex `i` overwritten by `p`. */
  function WithVertex(positions: seq<real>, i: nat, p: Vec3): (r: seq<real>)
    requires 3 * i + 3 <= |positions|
  {
    positions[3 * i := p.x][3 * i + 1 := p.y][3 * i + 2 := p.z]
  }

  /** The texture coordinate of vertex `i`: entries `2i`, `2i+1`. */
  function TexCoord(uvs: seq<real>, i: nat): UV
    requires 2 * i + 2 <= |uvs|
  {
    UV(uvs[2 * i], uvs[2 * i + 1])
  }

  function Scaled(f: real, p: Vec3): Vec3
  {
    Vec3(f * p.x, f * p.y, f * p.z)
  }

  function Dot(p: Vec3, q: Vec3): real
  {
    p.x * q.x + p.y * q.y + p.z * q.z
  }

  function Cross(p: Vec3, q: Vec3): Vec3
  {
    Vec3(p.y * q.z - p.z * q.y, p.z * q.x - p.x * q.z, p.x * q.y - p.y * q.x)
  }

  /** Two position buffers of equal length that agree on every vertex are equal. */
  lemma SamePositions(a: seq<real>, b: seq<real>)
    requires |a| == |b| && |a| % 3 == 0
    requires forall i :: 0 <= i < |a| / 3 ==> Position(a, i) == Position(b, i)
    ensures a == b
  {
    forall k | 0 <= k < |a| ensures a[k] == b[k] {
      assert Position(a, k / 3) == Position(b, k / 3);
    }
  }
}
