/**
 * The packer of lines 284-290: the three resampled planes are written into one
 * buffer pixel by pixel, red, green, blue, red, green, blue, ... as the image
 * widget expects.
 */
module Packer {
  import opened Bytes

  /** The interleaved buffer of three planes of equal length. */
  function Interleave(r: seq<Byte>, g: seq<Byte>, b: seq<Byte>): (s: seq<Byte>)
    requires |r| == |g| == |b|
    ensures |s| == 3 * |r|
  {
    if |r| == 0 then [] else [r[0], g[0], b[0]] + Interleave(r[1..], g[1..], b[1..])
  }

  /** Pixel `i` of the planes sits at bytes `3 * i`, `3 * i + 1` and `3 * i + 2`. */
  lemma {:induction false} InterleaveAt(r: seq<Byte>, g: seq<Byte>, b: seq<Byte>, i: int)
    requires |r| == |g| == |b| && 0 <= i < |r|
    ensures Interleave(r, g, b)[3 * i] == r[i]
    ensures Interleave(r, g, b)[3 * i + 1] == g[i]
    ensures Interleave(r, g, b)[3 * i + 2] == b[i]
    decreases i
  {
    if i > 0 {
      InterleaveAt(r[1..], g[1..], b[1..], i - 1);
      var rest := Interleave(r[1..], g[1..], b[1..]);
      assert Interleave(r, g, b) == [r[0], g[0], b[0]] + rest;
    }
  }

  /** All pixels at once. */
  lemma InterleaveLayout(r: seq<Byte>, g: seq<Byte>, b: seq<Byte>)
    requires |r| == |g| == |b|
    ensures forall i :: 0 <= i < |r| ==>
              Interleave(r, g, b)[3 * i] == r[i] && Interleave(r, g, b)[3 * i + 1] == g[i] && Interleave(r, g, b)[3 * i + 2] == b[i]
  {
    forall i | 0 <= i < |r| {
      InterleaveAt(r, g, b, i);
    }
  }

  /** Every byte of the buffer is a sample of pixel `k / 3` of one of the planes. */
  lemma InterleaveSource(r: seq<Byte>, g: seq<Byte>, b: seq<Byte>, k: int)
    requires |r| == |g| == |b| && 0 <= k < 3 * |r|
    ensures 0 <= k / 3 < |r|
    ensures k % 3 == 0 ==> Interleave(r, g, b)[k] == r[k / 3]
    ensures k % 3 == 1 ==> Interleave(r, g, b)[k] == g[k / 3]
    ensures k % 3 == 2 ==> Interleave(r, g, b)[k] == b[k / 3]
  {
    var i := PixelOf(k, |r|);
    InterleaveAt(r, g, b, i);
    DivUnique(k, 3, i, k - 3 * i);
    var s := Interleave(r, g, b);
    if k == 3 * i {
      assert s[k] == r[i];
    } else if k == 3 * i + 1 {
      assert s[k] == g[i];
    } else {
      assert s[k] == b[i];
    }
  }

  /** Channel `c` (0 red, 1 green, 2 blue) of an interleaved buffer. */
  function Deinterleave(s: seq<Byte>, c: int): (p: seq<Byte>)
    requires 0 <= c < 3
  {
    seq(|s| / 3, i requires 0 <= i < |s| / 3 => s[3 * i + c])
  }

  /** The pixel a byte of a packed buffer of `n` pixels belongs to. */
  function PixelOf(k: int, n: int): (i: int)
    requires 0 <= k < 3 * n
    ensures 0 <= i < n
    ensures k == 3 * i || k == 3 * i + 1 || k == 3 * i + 2
  {
    QuotientBelow(k, 3, n);
    k / 3
  }

  /** A buffer that holds `r`, `g` and `b` at the packed positions is their interleaving. */
  lemma {:induction false} InterleaveUnique(s: seq<Byte>, r: seq<Byte>, g: seq<Byte>, b: seq<Byte>)
    requires |r| == |g| == |b| && |s| == 3 * |r|
    requires forall i :: 0 <= i < |r| ==> s[3 * i] == r[i] && s[3 * i + 1] == g[i] && s[3 * i + 2] == b[i]
    ensures s == Interleave(r, g, b)
    decreases |r|
  {
    if |r| > 0 {
      var rest := s[3..];
      forall i | 0 <= i < |r| - 1
        ensures rest[3 * i] == r[1..][i] && rest[3 * i + 1] == g[1..][i] && rest[3 * i + 2] == b[1..][i]
      {
        assert 3 * (i + 1) == 3 * i + 3;
      }
      InterleaveUnique(rest, r[1..], g[1..], b[1..]);
      assert s == [s[0], s[1], s[2]] + rest;
    }
  }

  /** Unpacking a packed buffer gives back each plane. */
  lemma DeinterleaveInterleave(r: seq<Byte>, g: seq<Byte>, b: seq<Byte>)
    requires |r| == |g| == |b|
    ensures Deinterleave(Interleave(r, g, b), 0) == r
    ensures Deinterleave(Interleave(r, g, b), 1) == g
    ensures Deinterleave(Interleave(r, g, b), 2) == b
  {
    var s := Interleave(r, g, b);
    DivUnique(|s|, 3, |r|, 0);
    var dr, dg, db := Deinterleave(s, 0), Deinterleave(s, 1), Deinterleave(s, 2);
    assert |dr| == |dg| == |db| == |r|;
    forall i | 0 <= i < |r|
      ensures dr[i] == r[i] && dg[i] == g[i] && db[i] == b[i]
    {
      InterleaveAt(r, g, b, i);
      assert dr[i] == s[3 * i] && dg[i] == s[3 * i + 1] && db[i] == s[3 * i + 2];
    }
  }

  /** Every buffer of whole pixels is the interleaving of its three channels. */
  lemma InterleaveDeinterleave(s: seq<Byte>)
    requires |s| % 3 == 0
    ensures Interleave(Deinterleave(s, 0), Deinterleave(s, 1), Deinterleave(s, 2)) == s
  {
    InterleaveUnique(s, Deinterleave(s, 0), Deinterleave(s, 1), Deinterleave(s, 2));
  }

  /** The copy loop of lines 284-290 into a fresh buffer of `3 * newSize` bytes. */
  method Pack(newR: array<Byte>, newG: array<Byte>, newB: array<Byte>) returns (inData: array<Byte>)
    requires newR.Length == newG.Length == newB.Length
    ensures fresh(inData)
    ensures inData[..] == Interleave(newR[..], newG[..], newB[..])
  {
    var newSize := newR.Length;
    inData := new Byte[newSize * 3];
    for i := 0 to newSize
      invariant forall j :: 0 <= j < i ==>
                  inData[3 * j] == newR[j] && inData[3 * j + 1] == newG[j] && inData[3 * j + 2] == newB[j]
    {
      inData[3 * i] := newR[i];
      inData[3 * i + 1] := newG[i];
      inData[3 * i + 2] := newB[i];
    }
    InterleaveUnique(inData[..], newR[..], newG[..], newB[..]);
  }
}
