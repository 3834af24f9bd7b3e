/** Winding reversal: every index triple `(a, b, c)` becomes `(c, b, a)`, so the
    sphere's faces point inwards, towards a viewer at its centre. */
module Winding {

  /** Triangle `t` of an index buffer. */
  function Triangle(s: seq<nat>, t: nat): (nat, nat, nat)
    requires 3 * t + 3 <= |s|
  {
    (s[3 * t], s[3 * t + 1], s[3 * t + 2])
  }

  /** The index buffer with every triangle's first and last corner exchanged. */
  function ReversedTriangles(s: seq<nat>): (r: seq<nat>)
    requires |s| % 3 == 0
    ensures |r| == |s|
    decreases |s|
  {
    if s == [] then [] else [s[2], s[1], s[0]] + ReversedTriangles(s[3..])
  }

  /** Triangle `t` of the output is triangle `t` of the input read backwards. */
  lemma {:induction false} ReversedAt(s: seq<nat>, t: nat)
    requires |s| % 3 == 0 && 3 * t + 3 <= |s|
    ensures Triangle(ReversedTriangles(s), t) == (s[3 * t + 2], s[3 * t + 1], s[3 * t])
    decreases t
  {
    if t > 0 {
      ReversedAt(s[3..], t - 1);
      assert ReversedTriangles(s)[3..] == ReversedTriangles(s[3..]);
    }
  }

  /** Reversing twice gives the original buffer back. */
  lemma {:induction false} ReversedInvolution(s: seq<nat>)
    requires |s| % 3 == 0
    ensures ReversedTriangles(ReversedTriangles(s)) == s
    decreases |s|
  {
    if s != [] {
      var r := ReversedTriangles(s);
      ReversedInvolution(s[3..]);
      assert r[3..] == ReversedTriangles(s[3..]);
      assert r[..3] == [s[2], s[1], s[0]];
      assert s == s[..3] + s[3..];
    }
  }

  /** Reversal only reorders the indices within each triangle: the same vertex
      indices occur the same number of times. */
  lemma {:induction false} ReversedPermutation(s: seq<nat>)
    requires |s| % 3 == 0
    ensures multiset(ReversedTriangles(s)) == multiset(s)
    decreases |s|
  {
    if s != [] {
      var t := s[3..];
      ReversedPermutation(t);
      Unfold(s);
      SplitHead(s);
      PermutedHead(s[0], s[1], s[2], t, ReversedTriangles(t));
    }
  }

  lemma Unfold(s: seq<nat>)
    requires |s| % 3 == 0 && s != []
    ensures ReversedTriangles(s) == [s[2], s[1], s[0]] + ReversedTriangles(s[3..])
  {
  }

  lemma SplitHead(s: seq<nat>)
    requires |s| >= 3
    ensures s == [s[0], s[1], s[2]] + s[3..]
  {
  }

  lemma PermutedHead(a: nat, b: nat, c: nat, t: seq<nat>, u: seq<nat>)
    requires multiset(u) == multiset(t)
    ensures multiset([c, b, a] + u) == multiset([a, b, c] + t)
  {
  }

  /** Two index buffers of equal length with the same triangles are equal. */
  lemma SameTriangles(a: seq<nat>, b: seq<nat>)
    requires |a| == |b| && |a| % 3 == 0
    requires forall t :: 0 <= t < |a| / 3 ==> Triangle(a, t) == Triangle(b, t)
    ensures a == b
  {
    forall k | 0 <= k < |a| ensures a[k] == b[k] {
      assert Triangle(a, k / 3) == Triangle(b, k / 3);
    }
  }

  /** The reversal loop, in place on `indices`. */
  method ReverseWinding(indices: array<nat>)
    requires indices.Length % 3 == 0
    modifies indices
    ensures indices[..] == ReversedTriangles(old(indices[..]))
  {
    ghost var I := indices[..];
    var n := indices.Length / 3;
    var i := 0;
    while i < n
      invariant 0 <= i <= n
      invariant forall t :: 0 <= t < i ==> Triangle(indices[..], t) == (I[3 * t + 2], I[3 * t + 1], I[3 * t])
      invariant forall t :: i <= t < n ==> Triangle(indices[..], t) == Triangle(I, t)
    {
      ghost var before := indices[..];
      assert Triangle(before, i) == Triangle(I, i);
      var a := indices[i * 3 + 0];
      var b := indices[i * 3 + 1];
      var c := indices[i * 3 + 2];
      indices[i * 3 + 0] := c;
      indices[i * 3 + 1] := b;
      indices[i * 3 + 2] := a;
      assert indices[..] == before[3 * i := c][3 * i + 1 := b][3 * i + 2 := a];
      forall t | 0 <= t < n && t != i ensures Triangle(indices[..], t) == Triangle(before, t) {
        assert 3 * t + 3 <= 3 * i || 3 * i + 3 <= 3 * t;
      }
      assert Triangle(indices[..], i) == (I[3 * i + 2], I[3 * i + 1], I[3 * i]);
      i := i + 1;
    }
    forall t | 0 <= t < n ensures Triangle(indices[..], t) == Triangle(ReversedTriangles(I), t) {
      ReversedAt(I, t);
    }
    SameTriangles(indices[..], ReversedTriangles(I));
  }
}
