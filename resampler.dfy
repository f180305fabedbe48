/**
 * The resampler of lines 206-229 and 249. The scale is modelled as `1 / factor`
 * for an integer `factor >= 1`, so `reverseScale` is `factor` and the float
 * products of lines 207, 223-226 are exact. Output pixel `i` reads source
 * pixel `(x, y)` with `x` its column times `factor` and `y` its row times
 * `factor`; below scale 1 an interior pixel is replaced by the 9-tap box
 * filter, which divides each tap by 9 before summing.
 */
module Resampler {
  import opened Bytes

  /** Largest pixel count whose three planes' byte count, and the packed
      buffer's, fit an `int`. */
  const MaxPixels: int := IntMax / 3

  /** Source dimensions and the integer downscale factor (scale = 1 / factor). */
  datatype Geometry = Geometry(width: int, height: int, factor: int) {
    predicate Valid() {
      width >= 1 && height >= 1 && factor >= 1 && width * height <= MaxPixels
    }

    /** The length of one source plane. */
    function Pixels(): int {
      width * height
    }

    /** `(int)(width * scale)`. */
    function OutWidth(): (ow: int)
      requires Valid()
      ensures ow >= 0
      ensures ow * factor <= width < ow * factor + factor
    {
      width / factor
    }

    /** `(int)(height * scale)`. */
    function OutHeight(): (oh: int)
      requires Valid()
      ensures oh >= 0
      ensures oh * factor <= height < oh * factor + factor
    {
      height / factor
    }

    /** The number of output pixels, one per output row and column. */
    function NewSize(): (n: int)
      requires Valid()
      ensures n >= 0
    {
      MulMonotone(0, OutWidth(), OutHeight());
      OutWidth() * OutHeight()
    }
  }

  /** Some output pixel exists only when both output dimensions are positive. */
  lemma OutputDims(g: Geometry, i: int)
    requires g.Valid() && 0 <= i < g.NewSize()
    ensures g.OutWidth() >= 1 && g.OutHeight() >= 1
    ensures g.OutWidth() * g.factor <= g.width && g.OutHeight() * g.factor <= g.height
  {
  }

  /** An output row or column `c` below `m`, scaled by `k`, stays at least
      `k` short of a source dimension `d >= m * k`. */
  lemma ScaledBelow(c: int, m: int, k: int, d: int)
    requires 0 <= c < m && k >= 1 && m * k <= d
    ensures 0 <= c * k <= d - k && (c * k) % k == 0
  {
    MulMonotone(c, m - 1, k);
    MulMonotone(0, c, k);
    DivUnique(c * k, k, c, 0);
  }

  /** The source column of output pixel `i`: its output column times `factor`. */
  function SourceX(g: Geometry, i: int): (x: int)
    requires g.Valid() && 0 <= i < g.NewSize()
    ensures 0 <= x <= g.width - g.factor
    ensures x % g.factor == 0
  {
    OutputDims(g, i);
    ScaledBelow(i % g.OutWidth(), g.OutWidth(), g.factor, g.width);
    (i % g.OutWidth()) * g.factor
  }

  /** The source row of output pixel `i`: its output row times `factor`. */
  function SourceY(g: Geometry, i: int): (y: int)
    requires g.Valid() && 0 <= i < g.NewSize()
    ensures 0 <= y <= g.height - g.factor
    ensures y % g.factor == 0
  {
    OutputDims(g, i);
    QuotientBelow(i, g.OutWidth(), g.OutHeight());
    ScaledBelow(i / g.OutWidth(), g.OutHeight(), g.factor, g.height);
    (i / g.OutWidth()) * g.factor
  }

  /** A pixel inside a `w x h` image has its row-major index inside the plane. */
  lemma IndexInPlane(x: int, y: int, w: int, h: int)
    requires 0 <= x < w && 0 <= y < h
    ensures 0 <= y * w + x < w * h
  {
    MulMonotone(y, h - 1, w);
    MulMonotone(0, y, w);
  }

  /** The linear index `y * width + x` of the source pixel output pixel `i`
      reads: always inside the plane. */
  function SourceIndex(g: Geometry, i: int): (idx: int)
    requires g.Valid() && 0 <= i < g.NewSize()
    ensures 0 <= idx < g.Pixels()
  {
    var x, y := SourceX(g, i), SourceY(g, i);
    IndexInPlane(x, y, g.width, g.height);
    y * g.width + x
  }

  /** At scale 1 every output pixel reads the source pixel of the same index. */
  lemma ScaleOneIsIdentity(g: Geometry, i: int)
    requires g.Valid() && g.factor == 1 && 0 <= i < g.NewSize()
    ensures g.NewSize() == g.Pixels()
    ensures SourceIndex(g, i) == i
  {
    assert g.OutWidth() == g.width && g.OutHeight() == g.height;
  }

  /** The uniform-mode filter guard of line 228, on source coordinates. */
  predicate CoordGuard(g: Geometry, x: int, y: int) {
    g.factor > 1 && x - 1 >= 0 && x + 1 < g.width && y + 1 < g.height && y - 1 >= 0
  }

  /** The non-uniform-mode filter guard of line 249, on the linear index. */
  predicate LinearGuard(g: Geometry, x: int, y: int) {
    g.factor > 1 && y * g.width + x - g.width - 1 >= 0 && y * g.width + x + g.width + 1 < g.width * g.height
  }

  /** Row and column offsets of the nine taps, in the order the source adds them. */
  const TapRows: seq<int> := [0, 0, 0, 1, 1, 1, -1, -1, -1]
  const TapCols: seq<int> := [0, -1, 1, 0, -1, 1, 0, -1, 1]

  lemma TapOffsetsSmall()
    ensures forall j :: 0 <= j < 9 ==> -1 <= TapRows[j] <= 1 && -1 <= TapCols[j] <= 1
  {}

  /** The nine tap indices around linear index `idx` in a plane of width `w`,
      in the order the source adds them. */
  function Taps(w: int, idx: int): (ts: seq<int>)
    requires w >= 0
    ensures |ts| == 9
    ensures forall j :: 0 <= j < 9 ==> idx - w - 1 <= ts[j] <= idx + w + 1
  {
    [idx, idx - 1, idx + 1, idx + w, idx - 1 + w, idx + 1 + w, idx - w, idx - 1 - w, idx + 1 - w]
  }

  /** The extreme taps lie inside a plane of `n` samples. */
  predicate TapsInBounds(n: int, w: int, idx: int) {
    w >= 0 && idx - w - 1 >= 0 && idx + w + 1 < n
  }

  /** One tap's share, `sample / 9`, truncated as the integer division of the source. */
  function Ninth(v: Byte): (r: int)
    ensures 0 <= r <= 28 && 9 * r <= v < 9 * r + 9
  {
    v / 9
  }

  /** The box filter: the sum over the nine taps of `sample / 9`. */
  function BoxFilter(p: seq<Byte>, w: int, idx: int): (r: int)
    requires TapsInBounds(|p|, w, idx)
    ensures 0 <= r <= 9 * 28
  {
    Ninth(p[idx]) + Ninth(p[idx - 1]) + Ninth(p[idx + 1])
    + Ninth(p[idx + w]) + Ninth(p[idx - 1 + w]) + Ninth(p[idx + 1 + w])
    + Ninth(p[idx - w]) + Ninth(p[idx - 1 - w]) + Ninth(p[idx + 1 - w])
  }

  /** The filter of line 229 is the sum of `sample / 9` over the nine taps, in order. */
  lemma BoxFilterIsTapSum(p: seq<Byte>, w: int, idx: int)
    requires TapsInBounds(|p|, w, idx)
    ensures forall j :: 0 <= j < 9 ==> 0 <= Taps(w, idx)[j] < |p|
    ensures var ts := Taps(w, idx);
      BoxFilter(p, w, idx)
      == Ninth(p[ts[0]]) + Ninth(p[ts[1]]) + Ninth(p[ts[2]]) + Ninth(p[ts[3]]) + Ninth(p[ts[4]])
         + Ninth(p[ts[5]]) + Ninth(p[ts[6]]) + Ninth(p[ts[7]]) + Ninth(p[ts[8]])
  {}

  /** The sum of the nine taps, before any division. */
  function TapTotal(p: seq<Byte>, w: int, idx: int): (s: int)
    requires TapsInBounds(|p|, w, idx)
    ensures 0 <= s <= 9 * 255
  {
    var t0: int, t1: int, t2: int := p[idx], p[idx - 1], p[idx + 1];
    var t3: int, t4: int, t5: int := p[idx + w], p[idx - 1 + w], p[idx + 1 + w];
    var t6: int, t7: int, t8: int := p[idx - w], p[idx - 1 - w], p[idx + 1 - w];
    t0 + t1 + t2 + t3 + t4 + t5 + t6 + t7 + t8
  }

  /** Dividing before summing never exceeds the true mean of the nine taps
      and falls short of it by at most 8. */
  lemma BoxFilterVersusMean(p: seq<Byte>, w: int, idx: int)
    requires TapsInBounds(|p|, w, idx)
    ensures TapTotal(p, w, idx) / 9 - 8 <= BoxFilter(p, w, idx) <= TapTotal(p, w, idx) / 9
  {}

  /** On a uniform neighbourhood the filter returns the sample rounded down to a multiple of 9. */
  lemma BoxFilterOfConstant(p: seq<Byte>, w: int, idx: int, c: Byte)
    requires TapsInBounds(|p|, w, idx)
    requires forall j :: 0 <= j < 9 ==> p[Taps(w, idx)[j]] == c
    ensures BoxFilter(p, w, idx) == 9 * (c / 9)
  {
    var ts := Taps(w, idx);
    assert p[ts[0]] == c && p[ts[1]] == c && p[ts[2]] == c;
    assert p[ts[3]] == c && p[ts[4]] == c && p[ts[5]] == c;
    assert p[ts[6]] == c && p[ts[7]] == c && p[ts[8]] == c;
  }

  /** The index `dr` rows and `dc` columns away from `(x, y)` lies in row
      `y + dr` and column `x + dc` when that column exists. */
  lemma Cell(w: int, x: int, y: int, dr: int, dc: int)
    requires 0 <= x + dc < w
    ensures ((y * w + x) + dr * w + dc) / w == y + dr
    ensures ((y * w + x) + dr * w + dc) % w == x + dc
  {
    assert (y * w + x) + dr * w + dc == (y + dr) * w + (x + dc);
    DivUnique((y + dr) * w + (x + dc), w, y + dr, x + dc);
  }

  /** The coordinate guard keeps the whole 3 x 3 neighbourhood inside the image. */
  lemma CoordGuardTapsInBounds(g: Geometry, x: int, y: int)
    requires g.Valid() && CoordGuard(g, x, y)
    ensures TapsInBounds(g.Pixels(), g.width, y * g.width + x)
  {
    IndexInPlane(x - 1, y - 1, g.width, g.height);
    IndexInPlane(x + 1, y + 1, g.width, g.height);
  }

  /** Tap `j` is `TapRows[j]` rows and `TapCols[j]` columns away from `idx`. */
  lemma TapAt(w: int, idx: int, j: int)
    requires w >= 0 && 0 <= j < 9
    ensures Taps(w, idx)[j] == idx + TapRows[j] * w + TapCols[j]
  {}

  /** Under the coordinate guard every tap of pixel `idx == (x, y)` lies in the
      plane and in its 3 x 3 neighbourhood: rows `y - 1 .. y + 1`, columns
      `x - 1 .. x + 1`. */
  lemma CoordGuardNeighbourhood(g: Geometry, x: int, y: int, idx: int)
    requires g.Valid() && CoordGuard(g, x, y) && idx == y * g.width + x
    ensures TapsInBounds(g.Pixels(), g.width, idx)
    ensures forall j :: 0 <= j < 9 ==> 0 <= Taps(g.width, idx)[j] < g.Pixels()
    ensures forall j :: 0 <= j < 9 ==>
              Taps(g.width, idx)[j] / g.width == y + TapRows[j] && Taps(g.width, idx)[j] % g.width == x + TapCols[j]
  {
    CoordGuardTapsInBounds(g, x, y);
    TapOffsetsSmall();
    forall j | 0 <= j < 9
      ensures Taps(g.width, idx)[j] / g.width == y + TapRows[j]
      ensures Taps(g.width, idx)[j] % g.width == x + TapCols[j]
    {
      TapAt(g.width, idx, j);
      Cell(g.width, x, y, TapRows[j], TapCols[j]);
    }
  }

  /** What the coordinate guard admits, the linear guard admits too. */
  lemma CoordGuardImpliesLinear(g: Geometry, x: int, y: int)
    requires g.Valid() && CoordGuard(g, x, y)
    ensures LinearGuard(g, x, y)
  {
    CoordGuardTapsInBounds(g, x, y);
  }

  /** The linear guard admits the left edge from row 2 to row `height - 2`. */
  lemma LinearGuardAtLeftEdge(g: Geometry, y: int)
    requires g.Valid() && g.factor > 1 && g.width >= 2 && 2 <= y && y + 1 < g.height
    ensures LinearGuard(g, 0, y)
  {
    MulMonotone(1, y - 1, g.width);
    MulMonotone(y + 2, g.height, g.width);
  }

  /** Away from the right edge, only the left edge separates the two guards. */
  lemma LinearGuardBeyondCoord(g: Geometry, x: int, y: int)
    requires g.Valid() && 0 <= x <= g.width - 2 && 0 <= y < g.height
    requires LinearGuard(g, x, y) && !CoordGuard(g, x, y)
    ensures x == 0 && 2 <= y && y + 1 < g.height
  {
    var w, h := g.width, g.height;
    if y + 1 >= h {
      MulMonotone(h, y + 1, w);
    }
  }

  /** Away from the right edge, the two guards differ exactly at the left
      edge: the linear guard also admits `x == 0` from row 2 to row
      `height - 2`, where the coordinate guard does not. */
  lemma GuardsDifferAtLeftEdge(g: Geometry, x: int, y: int)
    requires g.Valid() && 0 <= x <= g.width - 2 && 0 <= y < g.height
    ensures LinearGuard(g, x, y) <==>
              CoordGuard(g, x, y) || (g.factor > 1 && x == 0 && 2 <= y && y + 1 < g.height)
  {
    if CoordGuard(g, x, y) {
      CoordGuardImpliesLinear(g, x, y);
    }
    if g.factor > 1 && x == 0 && 2 <= y && y + 1 < g.height {
      LinearGuardAtLeftEdge(g, y);
    }
    if LinearGuard(g, x, y) && !CoordGuard(g, x, y) {
      LinearGuardBeyondCoord(g, x, y);
    }
  }

  /** At the left edge the non-uniform branch filters with a tap `x - 1` that
      is the last pixel of the previous row. */
  lemma LeftEdgeWrapsRow(g: Geometry, y: int)
    requires g.Valid() && g.factor > 1 && g.width >= 2 && 2 <= y && y + 1 < g.height
    ensures LinearGuard(g, 0, y) && !CoordGuard(g, 0, y)
    ensures Taps(g.width, y * g.width)[1] / g.width == y - 1
    ensures Taps(g.width, y * g.width)[1] % g.width == g.width - 1
  {
    LinearGuardAtLeftEdge(g, y);
    Cell(g.width, g.width - 1, y - 1, 0, 0);
    assert Taps(g.width, y * g.width)[1] == (y - 1) * g.width + (g.width - 1);
  }

  /** Under the guard of line 249 every tap of the filter of line 250 is inside the plane. */
  lemma LinearGuardTapsInPlane(g: Geometry, x: int, y: int, idx: int)
    requires g.Valid() && LinearGuard(g, x, y) && idx == y * g.width + x
    ensures TapsInBounds(g.Pixels(), g.width, idx)
    ensures forall j :: 0 <= j < 9 ==> 0 <= Taps(g.width, idx)[j] < g.Pixels()
  {}

  /** The filtered-or-raw sample (the source's `round` before quantization):
      uniform mode filters under the coordinate guard, non-uniform mode under
      the linear guard, and otherwise the source pixel is taken as it is. */
  function Sample(p: seq<Byte>, g: Geometry, uniform: bool, i: int): (v: int)
    requires g.Valid() && |p| == g.Pixels() && 0 <= i < g.NewSize()
    ensures 0 <= v <= 255
  {
    var x, y := SourceX(g, i), SourceY(g, i);
    var idx := SourceIndex(g, i);
    if uniform then
      if CoordGuard(g, x, y) then CoordGuardTapsInBounds(g, x, y); BoxFilter(p, g.width, idx) else p[idx]
    else
      if LinearGuard(g, x, y) then BoxFilter(p, g.width, idx) else p[idx]
  }

  /** At scale 1 neither guard holds and output pixel `i` is source pixel `i`. */
  lemma ScaleOneSample(p: seq<Byte>, g: Geometry, uniform: bool, i: int)
    requires g.Valid() && |p| == g.Pixels() && g.factor == 1 && 0 <= i < g.NewSize()
    ensures Sample(p, g, uniform, i) == p[i]
  {
    ScaleOneIsIdentity(g, i);
  }

  /** `newSize` as the source computes it at line 207: `scale * width * scale * height`. */
  function AsWrittenNewSize(g: Geometry): (n: int)
    requires g.Valid()
    ensures n >= g.NewSize()
  {
    FloorsFitQuotient(g.width, g.height, g.factor, g.OutWidth(), g.OutHeight());
    g.Pixels() / (g.factor * g.factor)
  }

  /** The source index as lines 223-226 compute it: the output row is taken
      as `i / outHeight` rather than `i / outWidth`. */
  function AsWrittenSourceIndex(g: Geometry, i: int): int
    requires g.Valid() && g.OutWidth() >= 1 && g.OutHeight() >= 1
  {
    (i / g.OutHeight()) * g.factor * g.width + (i % g.OutWidth()) * g.factor
  }

  /** At scale 1/3 of a 512 x 512 image line 207 asks for 29127 output pixels,
      227 more than the 170 x 170 grid has; the last of them reads row 513. */
  lemma AsWrittenSizeOverruns()
    ensures Geometry(512, 512, 3).Valid()
    ensures AsWrittenNewSize(Geometry(512, 512, 3)) == 29127
    ensures Geometry(512, 512, 3).NewSize() == 28900
    ensures AsWrittenSourceIndex(Geometry(512, 512, 3), 29126) == 513 * 512 + 168
    ensures AsWrittenSourceIndex(Geometry(512, 512, 3), 29126) >= Geometry(512, 512, 3).Pixels()
  {}

  /** On a 4 x 2 image at scale 1, output pixel 7 is taken from row 7 / 2 = 3,
      past the last row. */
  lemma AsWrittenRowOverruns()
    ensures Geometry(4, 2, 1).Valid()
    ensures AsWrittenNewSize(Geometry(4, 2, 1)) == Geometry(4, 2, 1).NewSize() == 8
    ensures AsWrittenSourceIndex(Geometry(4, 2, 1), 7) == 15
    ensures AsWrittenSourceIndex(Geometry(4, 2, 1), 7) >= Geometry(4, 2, 1).Pixels()
  {}

  /** At scale 1/5 of a 512 x 512 image line 207 asks for 10485 output pixels,
      81 more than the 102 x 102 grid has; each extra pixel reads row 510 and
      stays inside the plane, so the source returns them as trailing bytes. */
  lemma AsWrittenExtraPixelsInPlane(i: int)
    requires Geometry(512, 512, 5).NewSize() <= i < AsWrittenNewSize(Geometry(512, 512, 5))
    ensures Geometry(512, 512, 5).NewSize() == 10404
    ensures AsWrittenNewSize(Geometry(512, 512, 5)) == 10485
    ensures AsWrittenSourceIndex(Geometry(512, 512, 5), i) == 510 * 512 + (i - 10404) * 5
    ensures 0 <= AsWrittenSourceIndex(Geometry(512, 512, 5), i) < Geometry(512, 512, 5).Pixels()
  {
    var g := Geometry(512, 512, 5);
    assert g.OutWidth() == 102 && g.OutHeight() == 102;
    DivUnique(i, 102, 102, i - 10404);
  }

  /** A factor that does not divide the dimensions need not overrun: at scales
      1/400 and 1/511 of a 512 x 512 image line 207 asks for the one pixel of
      the 1 x 1 grid. */
  lemma AsWrittenSizeMayFit()
    ensures AsWrittenNewSize(Geometry(512, 512, 400)) == Geometry(512, 512, 400).NewSize() == 1
    ensures AsWrittenNewSize(Geometry(512, 512, 511)) == Geometry(512, 512, 511).NewSize() == 1
  {}

  /** On a square image the as-written coordinates are the corrected ones, and
      when `factor` divides both dimensions so is the as-written size: the
      512 x 512 image at scales 1, 1/2, 1/4, ... is resampled as modelled. */
  lemma AsWrittenAgrees(g: Geometry, i: int)
    requires g.Valid()
    ensures g.width == g.height && 0 <= i < g.NewSize() ==> AsWrittenSourceIndex(g, i) == SourceIndex(g, i)
    ensures g.width % g.factor == 0 && g.height % g.factor == 0 ==> AsWrittenNewSize(g) == g.NewSize()
  {
    if g.width == g.height && 0 <= i < g.NewSize() {
      OutputDims(g, i);
    }
    if g.width % g.factor == 0 && g.height % g.factor == 0 {
      var a, b, k := g.OutWidth(), g.OutHeight(), g.factor;
      DivUnique(g.width, k, a, 0);
      DivUnique(g.height, k, b, 0);
      assert g.Pixels() == (a * b) * (k * k);
      DivUnique(g.Pixels(), k * k, a * b, 0);
    }
  }
}
