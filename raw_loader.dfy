/**
 * The raw loader: the file holds all red samples of the image, then all green,
 * then all blue, each plane `width * height` bytes in row-major order. The
 * three reads into zero-initialised buffers leave any byte past the end of a
 * short file at zero; bytes past the third plane are ignored.
 */
module RawLoader {
  import opened Bytes

  /** The three colour planes of the source image. */
  datatype Planes = Planes(r: seq<Byte>, g: seq<Byte>, b: seq<Byte>) {
    /** Every plane holds `n` samples. */
    predicate Valid(n: int) {
      |r| == n && |g| == n && |b| == n
    }
  }

  /** Byte `j` of the file, or the buffer's initial zero when the file is shorter. */
  function FileByte(file: seq<Byte>, j: int): Byte {
    if 0 <= j < |file| then file[j] else 0
  }

  /** Plane `c` (0 red, 1 green, 2 blue) of an image of `n` pixels. */
  function ReadPlane(file: seq<Byte>, c: nat, n: nat): (p: seq<Byte>)
    ensures |p| == n
  {
    seq<Byte>(n, i => FileByte(file, c * n + i))
  }

  /** A read that the file covers is the slice at offset `c * n`; a read that
      starts past the end leaves the zeros of the buffer. */
  lemma ReadPlaneSlice(file: seq<Byte>, c: nat, n: nat)
    ensures (c + 1) * n <= |file| ==> ReadPlane(file, c, n) == file[c * n .. (c + 1) * n]
    ensures |file| <= c * n ==> ReadPlane(file, c, n) == seq(n, _ => 0)
  {
    var p := ReadPlane(file, c, n);
    if (c + 1) * n <= |file| {
      assert c * n + n == (c + 1) * n;
      assert forall i :: 0 <= i < n ==> p[i] == file[c * n .. (c + 1) * n][i];
    }
    if |file| <= c * n {
      forall i | 0 <= i < n
        ensures p[i] == 0
      {
        assert p[i] == FileByte(file, c * n + i);
      }
      assert p == seq(n, _ => 0);
    }
  }

  /** The three reads of lines 186-188: red, green and blue, in that order. */
  function LoadPlanes(file: seq<Byte>, n: nat): (pl: Planes)
    ensures pl.Valid(n)
    ensures forall i :: 0 <= i < n ==>
              pl.r[i] == FileByte(file, i) && pl.g[i] == FileByte(file, n + i) && pl.b[i] == FileByte(file, 2 * n + i)
  {
    Planes(ReadPlane(file, 0, n), ReadPlane(file, 1, n), ReadPlane(file, 2, n))
  }

  /** The planar file layout of an image: red plane, green plane, blue plane. */
  function Planar(pl: Planes): (file: seq<Byte>)
    ensures |file| == |pl.r| + |pl.g| + |pl.b|
  {
    pl.r + pl.g + pl.b
  }

  /** Loading a planar file recovers its planes. */
  lemma LoadPlanar(pl: Planes, n: nat)
    requires pl.Valid(n)
    ensures LoadPlanes(Planar(pl), n) == pl
  {
    var file := Planar(pl);
    var got := LoadPlanes(file, n);
    forall i | 0 <= i < n
      ensures got.r[i] == pl.r[i] && got.g[i] == pl.g[i] && got.b[i] == pl.b[i]
    {
      assert file[i] == pl.r[i];
      assert file[n + i] == pl.g[i];
      assert file[2 * n + i] == pl.b[i];
    }
    assert got.r == pl.r && got.g == pl.g && got.b == pl.b;
  }

  /** A file of at least three planes is split without loss: its first
      `3 * n` bytes are the planes laid end to end. */
  lemma PlanarOfLoad(file: seq<Byte>, n: nat)
    requires |file| >= 3 * n
    ensures Planar(LoadPlanes(file, n)) == file[..3 * n]
  {
    var s := Planar(LoadPlanes(file, n));
    forall j | 0 <= j < 3 * n
      ensures s[j] == file[j]
    {
      if j < n {
      } else if j < 2 * n {
        assert s[j] == LoadPlanes(file, n).g[j - n];
      } else {
        assert s[j] == LoadPlanes(file, n).b[j - 2 * n];
      }
    }
  }

  /** A short file leaves every sample it does not reach at zero. */
  lemma ShortReadIsZero(file: seq<Byte>, n: nat, i: int)
    requires 0 <= i < n
    ensures |file| <= i ==> LoadPlanes(file, n).r[i] == 0
    ensures |file| <= n + i ==> LoadPlanes(file, n).g[i] == 0
    ensures |file| <= 2 * n + i ==> LoadPlanes(file, n).b[i] == 0
  {}
}
