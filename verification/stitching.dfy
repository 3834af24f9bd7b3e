/** UV seam and pole stitching: one ordered pass over the vertices with a map
    from exact position to the first vertex seen there; every later vertex at a
    known position receives that first vertex's texture coordinate. */
module Stitching {
  import opened Mesh

  /** The least index `f` in `[k, i]` whose position is `p`, given that vertex `i` is at `p`. */
  function FirstFrom(positions: seq<real>, p: Vec3, k: nat, i: nat): (f: nat)
    requires 3 * i + 3 <= |positions| && k <= i && Position(positions, i) == p
    ensures k <= f <= i && Position(positions, f) == p
    ensures forall j :: k <= j < f ==> Position(positions, j) != p
    decreases i - k
  {
    if Position(positions, k) == p then k else FirstFrom(positions, p, k + 1, i)
  }

  /** The canonical vertex of vertex `i`: the lowest-indexed vertex at the same position. */
  function FirstIndex(positions: seq<real>, i: nat): (f: nat)
    requires 3 * i + 3 <= |positions|
    ensures f <= i && Position(positions, f) == Position(positions, i)
    ensures forall j :: 0 <= j < f ==> Position(positions, j) != Position(positions, i)
  {
    FirstFrom(positions, Position(positions, i), 0, i)
  }

  /** Vertices at one position share one canonical vertex, and a canonical
      vertex is its own. */
  lemma FirstIndexShared(positions: seq<real>, i: nat, j: nat)
    requires 3 * i + 3 <= |positions| && 3 * j + 3 <= |positions|
    requires Position(positions, i) == Position(positions, j)
    ensures FirstIndex(positions, i) == FirstIndex(positions, j)
    ensures FirstIndex(positions, FirstIndex(positions, i)) == FirstIndex(positions, i)
  {
  }

  /** The UV buffer after the pass: each vertex carries its canonical vertex's UV. */
  function Stitched(positions: seq<real>, uvs: seq<real>): (r: seq<real>)
    requires Shaped(positions, uvs)
    ensures |r| == |uvs|
    ensures forall i {:trigger TexCoord(r, i)} :: 0 <= i < VertexCount(positions) ==>
      TexCoord(r, i) == TexCoord(uvs, FirstIndex(positions, i))
  {
    StitchedPrefix(positions, uvs, VertexCount(positions))
  }

  /** The UV buffer once the first `m` vertices have been visited. */
  function StitchedPrefix(positions: seq<real>, uvs: seq<real>, m: nat): (r: seq<real>)
    requires Shaped(positions, uvs) && m <= VertexCount(positions)
    ensures |r| == |uvs|
  {
    seq(|uvs|, k requires 0 <= k < |uvs| =>
      if k < 2 * m then uvs[2 * FirstIndex(positions, k / 2) + k % 2] else uvs[k])
  }

  /** Visiting vertex `m` whose canonical vertex `o` comes earlier copies `o`'s UV. */
  lemma PrefixCopy(positions: seq<real>, uvs: seq<real>, m: nat, o: nat)
    requires Shaped(positions, uvs) && m < VertexCount(positions)
    requires o < m && FirstIndex(positions, m) == o && FirstIndex(positions, o) == o
    ensures var before := StitchedPrefix(positions, uvs, m);
      before[2 * m := before[2 * o]][2 * m + 1 := before[2 * o + 1]]
        == StitchedPrefix(positions, uvs, m + 1)
  {
    var before := StitchedPrefix(positions, uvs, m);
    assert before[2 * o] == uvs[2 * o] && before[2 * o + 1] == uvs[2 * o + 1];
  }

  /** Visiting a vertex that is its own canonical vertex changes nothing. */
  lemma PrefixKeep(positions: seq<real>, uvs: seq<real>, m: nat)
    requires Shaped(positions, uvs) && m < VertexCount(positions)
    requires FirstIndex(positions, m) == m
    ensures StitchedPrefix(positions, uvs, m) == StitchedPrefix(positions, uvs, m + 1)
  {
  }

  /** Vertices at identical positions end up with identical UVs. */
  lemma {:induction false} StitchedCoincident(positions: seq<real>, uvs: seq<real>, i: nat, j: nat)
    requires Shaped(positions, uvs)
    requires i < VertexCount(positions) && j < VertexCount(positions)
    requires Position(positions, i) == Position(positions, j)
    ensures TexCoord(Stitched(positions, uvs), i) == TexCoord(Stitched(positions, uvs), j)
  {
    FirstIndexShared(positions, i, j);
  }

  /** The first vertex seen at each position keeps its own UV. */
  lemma {:induction false} StitchedKeepsFirst(positions: seq<real>, uvs: seq<real>, i: nat)
    requires Shaped(positions, uvs)
    requires i < VertexCount(positions)
    requires forall j :: 0 <= j < i ==> Position(positions, j) != Position(positions, i)
    ensures TexCoord(Stitched(positions, uvs), i) == TexCoord(uvs, i)
  {
    assert FirstIndex(positions, i) == i;
  }

  /** A second pass changes nothing. */
  lemma {:induction false} StitchedIdempotent(positions: seq<real>, uvs: seq<real>)
    requires Shaped(positions, uvs)
    ensures Stitched(positions, Stitched(positions, uvs)) == Stitched(positions, uvs)
  {
    var once := Stitched(positions, uvs);
    var twice := Stitched(positions, once);
    forall i | 0 <= i < VertexCount(positions)
      ensures TexCoord(twice, i) == TexCoord(once, i)
    {
      FirstIndexShared(positions, i, i);
    }
    SameTexCoords(twice, once);
  }

  /** Two UV buffers of equal length that agree on every vertex are equal. */
  lemma SameTexCoords(a: seq<real>, b: seq<real>)
    requires |a| == |b| && |a| % 2 == 0
    requires forall i :: 0 <= i < |a| / 2 ==> TexCoord(a, i) == TexCoord(b, i)
    ensures a == b
  {
    forall k | 0 <= k < |a| ensures a[k] == b[k] {
      var i := k / 2;
      assert TexCoord(a, i) == TexCoord(b, i);
    }
  }

  /** What the map holds after `i` vertices: every position seen so far, keyed
      to its first index, and nothing else. */
  ghost predicate FirstSeen(P: seq<real>, seen: map<Vec3, nat>, i: nat)
  {
    3 * i <= |P| &&
    (forall k {:trigger FirstIndex(P, k)} :: 0 <= k < i ==>
      Position(P, k) in seen && seen[Position(P, k)] == FirstIndex(P, k)) &&
    (forall p :: p in seen ==> seen[p] < i && Position(P, seen[p]) == p)
  }

  /** One step of the pass: a known position maps to the vertex's canonical
      index; an unknown one means the vertex is its own canonical vertex. */
  lemma FirstSeenStep(P: seq<real>, seen: map<Vec3, nat>, i: nat)
    requires FirstSeen(P, seen, i) && 3 * i + 3 <= |P|
    ensures Position(P, i) in seen ==>
      seen[Position(P, i)] == FirstIndex(P, i) && FirstIndex(P, seen[Position(P, i)]) == seen[Position(P, i)]
      && FirstSeen(P, seen, i + 1)
    ensures Position(P, i) !in seen ==>
      FirstIndex(P, i) == i && FirstSeen(P, seen[Position(P, i) := i], i + 1)
  {
    var key := Position(P, i);
    if key in seen {
      var o := seen[key];
      FirstIndexShared(P, o, i);
      assert o == FirstIndex(P, o);
      forall k | 0 <= k < i + 1
        ensures Position(P, k) in seen && seen[Position(P, k)] == FirstIndex(P, k)
      {
        if k < i {
          var f := FirstIndex(P, k);
          assert Position(P, k) in seen;
        } else {
          assert seen[Position(P, k)] == o == FirstIndex(P, o) == FirstIndex(P, i);
        }
      }
    } else {
      assert FirstIndex(P, i) == i by {
        FirstIndexShared(P, FirstIndex(P, i), i);
      }
      var seen' := seen[key := i];
      forall k | 0 <= k < i + 1
        ensures Position(P, k) in seen' && seen'[Position(P, k)] == FirstIndex(P, k)
      {
        if k < i {
          var g := FirstIndex(P, k);
          assert Position(P, k) in seen;
          assert Position(P, k) != key;
        }
      }
    }
  }

  /** The map after visiting the first `i` vertices: each position seen so far
      is bound to the first index it was seen at. */
  function SeenAfter(P: seq<real>, i: nat): map<Vec3, nat>
    requires 3 * i <= |P|
  {
    if i == 0 then map[]
    else
      var seen := SeenAfter(P, i - 1);
      var key := Position(P, i - 1);
      if key in seen then seen else seen[key := i - 1]
  }

  lemma {:induction false} SeenAfterFirst(P: seq<real>, i: nat)
    requires 3 * i <= |P|
    ensures FirstSeen(P, SeenAfter(P, i), i)
  {
    if i > 0 {
      SeenAfterFirst(P, i - 1);
      FirstSeenStep(P, SeenAfter(P, i - 1), i - 1);
    }
  }

  /** What the pass finds when it looks up vertex `i`'s position. */
  lemma SeenLookup(P: seq<real>, i: nat)
    requires 3 * i + 3 <= |P|
    ensures Position(P, i) in SeenAfter(P, i) ==>
      var o := SeenAfter(P, i)[Position(P, i)];
      o < i && FirstIndex(P, i) == o && FirstIndex(P, o) == o
    ensures Position(P, i) !in SeenAfter(P, i) ==> FirstIndex(P, i) == i
  {
    SeenAfterFirst(P, i);
    FirstSeenStep(P, SeenAfter(P, i), i);
  }

  /** The stitching pass, in place on `uvs`. `seen` plays the role of the map
      from position key to the first index observed there. */
  method Stitch(positions: array<real>, uvs: array<real>)
    requires Shaped(positions[..], uvs[..])
    requires positions != uvs
    modifies uvs
    ensures uvs[..] == Stitched(positions[..], old(uvs[..]))
    ensures positions[..] == old(positions[..])
  {
    ghost var P, U := positions[..], uvs[..];
    var n := positions.Length / 3;
    var seen: map<Vec3, nat> := map[];
    var i := 0;
    while i < n
      invariant 0 <= i <= n
      invariant positions[..] == P
      invariant seen == SeenAfter(P, i)
      invariant uvs[..] == StitchedPrefix(P, U, i)
    {
      var key := Vec3(positions[3 * i], positions[3 * i + 1], positions[3 * i + 2]);
      assert key == Position(P, i);
      SeenLookup(P, i);
      if key in seen {
        var oldIndex := seen[key];
        PrefixCopy(P, U, i, oldIndex);
        uvs[2 * i], uvs[2 * i + 1] := uvs[2 * oldIndex], uvs[2 * oldIndex + 1];
      } else {
        PrefixKeep(P, U, i);
        seen := seen[key := i];
      }
      assert seen == SeenAfter(P, i + 1);
      i := i + 1;
    }
  }
}
