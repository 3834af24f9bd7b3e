/** Decoding the depth map: the red byte of each RGBA pixel becomes
    `r / 255 * depthFactor` in a zero-initialised float buffer. */
module DepthDecode {

  /** One channel of a canvas pixel. */
  type Byte = b: int | 0 <= b < 256

  const DepthFactor: real := 10.0

  /** Depth encoded by one luminance byte. */
  function DepthOf(r: Byte): (d: real)
    ensures 0.0 <= d <= DepthFactor
    ensures r == 0 <==> d == 0.0
    ensures r == 255 <==> d == DepthFactor
  {
    r as real / 255.0 * DepthFactor
  }

  /** Brighter bytes decode to larger depths. */
  lemma DepthOfMonotone(r: Byte, s: Byte)
    requires r <= s
    ensures DepthOf(r) <= DepthOf(s)
  {
  }

  /** The buffer the decode loop leaves behind: entry `j` holds the depth of
      pixel `j` when that pixel's red byte exists, and keeps its initial zero
      otherwise (typed-array writes past the end are dropped). */
  function DecodedDepth(data: seq<Byte>, count: nat): (d: seq<real>)
    ensures |d| == count
    ensures forall j :: 0 <= j < count ==> 0.0 <= d[j] <= DepthFactor
  {
    seq(count, j requires 0 <= j < count => if 4 * j < |data| then DepthOf(data[4 * j]) else 0.0)
  }

  /** Only the red channel matters: two images that agree on every red byte
      decode to the same depths. */
  lemma {:induction false} DecodeReadsRedOnly(data: seq<Byte>, other: seq<Byte>, count: nat)
    requires |data| == |other|
    requires forall i :: 0 <= i < |data| && i % 4 == 0 ==> data[i] == other[i]
    ensures DecodedDepth(data, count) == DecodedDepth(other, count)
  {
    forall j | 0 <= j < count
      ensures DecodedDepth(data, count)[j] == DecodedDepth(other, count)[j]
    {
      if 4 * j < |data| {
        assert (4 * j) % 4 == 0;
      }
    }
  }

  /** A full image of `width * height` pixels fills every entry from its own pixel. */
  lemma {:induction false} DecodedFullImage(data: seq<Byte>, width: nat, height: nat, j: nat)
    requires |data| == 4 * (width * height)
    requires j < width * height
    ensures DecodedDepth(data, width * height)[j] == data[4 * j] as real / 255.0 * DepthFactor
  {
  }

  /** The decode loop: steps through the RGBA bytes four at a time and stores
      the depth of pixel `i / 4` into a fresh `width * height` buffer. */
  method DecodeDepth(data: seq<Byte>, width: nat, height: nat) returns (depth: array<real>)
    ensures fresh(depth)
    ensures depth[..] == DecodedDepth(data, width * height)
  {
    depth := new real[width * height](_ => 0.0);
    var i := 0;
    while i < |data|
      invariant i % 4 == 0
      invariant forall j :: 0 <= j < depth.Length ==>
        depth[j] == if 4 * j < i && 4 * j < |data| then DepthOf(data[4 * j]) else 0.0
    {
      var r := data[i];
      var rawDepth := r as real / 255.0;
      var j := i / 4;
      if j < depth.Length {
        depth[j] := rawDepth * DepthFactor;
      }
      i := i + 4;
    }
  }
}
