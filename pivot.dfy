/**
 * Pivot resolution (lines 193-204). With mode -2 the pivot is computed from a
 * strided sample of the three planes: pixels 0, 100, 200, ... of R, G and B,
 * read through plain (signed) `char`, are summed into a `long`, which is
 * divided by `(width * height) / 5` and then by 3. Any other mode is kept.
 */
module PivotResolution {
  import opened Bytes
  import opened RawLoader

  /** The mode that selects uniform quantization. */
  const UniformMode: int := -1
  /** The mode that asks for the pivot to be computed from the image. */
  const AutoPivotMode: int := -2
  /** The stride of the pivot sample. */
  const Stride: int := 100

  /** What one sampled pixel adds to the sum: its three samples as signed chars. */
  function SampleTerm(pl: Planes, n: int, i: int): (t: int)
    requires pl.Valid(n) && 0 <= i < n
    ensures -384 <= t <= 381
  {
    SignedChar(pl.r[i]) + SignedChar(pl.g[i]) + SignedChar(pl.b[i])
  }

  /** The sum of the sampled pixels from index `i` on (i, i + 100, ... below n). */
  function StridedSum(pl: Planes, n: int, i: int): int
    requires pl.Valid(n) && 0 <= i
    decreases n - i
  {
    if i >= n then 0 else SampleTerm(pl, n, i) + StridedSum(pl, n, i + Stride)
  }

  /** How many pixels the stride visits from index `i` on. */
  function SampleCount(n: int, i: int): (c: int)
    ensures c >= 0
  {
    if i >= n then 0 else (n - i + Stride - 1) / Stride
  }

  /** Each step of the stride visits one more pixel while it is below `n`. */
  lemma SampleCountStep(n: int, i: int)
    requires i < n
    ensures SampleCount(n, i) == SampleCount(n, i + Stride) + 1
  {
    if i + Stride < n {
      var m := n - i - Stride + Stride - 1;
      DivUnique(m + Stride, Stride, m / Stride + 1, m % Stride);
    } else {
      DivUnique(n - i + Stride - 1, Stride, 1, n - i - 1);
    }
  }

  /** The resolved pivot: the quotient of lines 200-201 for mode -2, the mode itself otherwise. */
  function ResolvedPivot(pl: Planes, n: int, mode: int): (pivot: int)
    requires pl.Valid(n) && (mode == AutoPivotMode ==> n >= 5)
    ensures mode != AutoPivotMode ==> pivot == mode
    ensures mode == AutoPivotMode ==> -128 <= pivot <= 127
  {
    if mode == AutoPivotMode then
      SumBounds(pl, n, 0);
      AutoPivotBounded(StridedSum(pl, n, 0), n);
      TruncDiv(TruncDiv(StridedSum(pl, n, 0), n / 5), 3)
    else
      mode
  }

  /** The loop of lines 195-199 and the divisions of lines 200-201. */
  method ResolvePivot(pl: Planes, n: int, mode: int) returns (pivot: int)
    requires pl.Valid(n) && (mode == AutoPivotMode ==> n >= 5)
    ensures pivot == ResolvedPivot(pl, n, mode)
  {
    pivot := mode;
    if mode == AutoPivotMode {
      var avg := 0;
      var i := 0;
      while i < n
        invariant 0 <= i < n + Stride
        invariant avg + StridedSum(pl, n, i) == StridedSum(pl, n, 0)
        decreases n - i
      {
        avg := avg + SignedChar(pl.r[i]);
        avg := avg + SignedChar(pl.g[i]);
        avg := avg + SignedChar(pl.b[i]);
        i := i + Stride;
      }
      avg := TruncDiv(avg, n / 5);
      avg := TruncDiv(avg, 3);
      pivot := avg;
    }
  }

  /** Each sampled pixel adds between -384 and 381 to the sum. */
  lemma {:induction false} SumBounds(pl: Planes, n: int, i: int)
    requires pl.Valid(n) && 0 <= i < n + Stride
    ensures -384 * SampleCount(n, i) <= StridedSum(pl, n, i) <= 381 * SampleCount(n, i)
    decreases n - i
  {
    if i < n {
      SumBounds(pl, n, i + Stride);
      SampleCountStep(n, i);
    }
  }

  /** The arithmetic of lines 200-201 on a sum of that size. */
  lemma AutoPivotBounded(sum: int, n: int)
    requires n >= 5
    requires -384 * SampleCount(n, 0) <= sum <= 381 * SampleCount(n, 0)
    ensures -128 <= TruncDiv(TruncDiv(sum, n / 5), 3) <= 127
  {
    assert SampleCount(n, 0) <= n / 5;
    QuotientBounded(sum, n / 5);
  }

  /** A sum of at most `d` sampled pixels, divided by `d`, lies in [-384, 381]. */
  lemma QuotientBounded(sum: int, d: int)
    requires d >= 1 && -384 * d <= sum <= 381 * d
    ensures -384 <= TruncDiv(sum, d) <= 381
  {
    if sum >= 0 {
      DivAtMost(sum, d, 381);
    } else {
      DivAtMost(-sum, d, 384);
    }
  }

  /** On an image whose every sample is `c`, each sampled pixel adds `3 * SignedChar(c)`. */
  lemma {:induction false} ConstantSum(pl: Planes, n: int, c: Byte, i: int)
    requires pl.Valid(n) && 0 <= i < n + Stride
    requires forall j :: 0 <= j < n ==> pl.r[j] == c && pl.g[j] == c && pl.b[j] == c
    ensures StridedSum(pl, n, i) == 3 * SignedChar(c) * SampleCount(n, i)
    decreases n - i
  {
    if i < n {
      ConstantSum(pl, n, c, i + Stride);
      SampleCountStep(n, i);
      assert pl.r[i] == c && pl.g[i] == c && pl.b[i] == c;
      MulSuccessor(3 * SignedChar(c), SampleCount(n, i + Stride));
    }
  }

  /** A 512 x 512 image of constant 90 resolves to pivot 4, not 90: the sum
      of its 2622 sampled pixels is divided by 52428 and by 3. */
  lemma ConstantNinetyPivot(pl: Planes)
    requires pl.Valid(512 * 512)
    requires forall j :: 0 <= j < 512 * 512 ==> pl.r[j] == 90 && pl.g[j] == 90 && pl.b[j] == 90
    ensures StridedSum(pl, 512 * 512, 0) == 3 * 90 * 2622
    ensures ResolvedPivot(pl, 512 * 512, AutoPivotMode) == 4
  {
    ConstantSum(pl, 512 * 512, 90, 0);
  }

  /** A 512 x 512 image of constant 236 (the signed char -20) resolves to
      pivot -1, which the quantization loop then reads as uniform mode. */
  lemma ConstantTwoThirtySixPivot(pl: Planes)
    requires pl.Valid(512 * 512)
    requires forall j :: 0 <= j < 512 * 512 ==> pl.r[j] == 236 && pl.g[j] == 236 && pl.b[j] == 236
    ensures ResolvedPivot(pl, 512 * 512, AutoPivotMode) == UniformMode
  {
    ConstantSum(pl, 512 * 512, 236, 0);
  }
}
