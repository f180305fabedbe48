/**
 * `readImageData` (lines 164-293) end to end: the file is split into planes,
 * the pivot is resolved, every output pixel is sampled (filtered or not) and
 * quantized, uniformly when the resolved mode is -1 and logarithmically
 * otherwise, and the three planes are packed into one RGB buffer.
 */
module ImagePipeline {
  import opened Bytes
  import opened RawLoader
  import opened PivotResolution
  import opened Quantizer
  import opened Resampler
  import opened Packer

  /** What `readImageData`, run on the corrected output grid, needs of its
      arguments to run without undefined behaviour: a non-empty geometry whose
      buffers fit an `int`, at least 5 pixels when the pivot is averaged (else
      the division by `(width * height) / 5` is by zero), `2^quant` that fits
      an `int`, and for uniform quantization at most 8 bits (else
      `bitIntervals` is 0). The floating-point interior of `logQuant` is not
      covered: it is undefined for some explicit pivots outside [0, 255], such
      as 800. */
  predicate Defined(file: seq<Byte>, g: Geometry, quant: int, mode: int) {
    g.Valid() && (mode == AutoPivotMode ==> g.Pixels() >= 5) && quant <= 30
    && (ResolvedPivot(LoadPlanes(file, g.Pixels()), g.Pixels(), mode) == UniformMode ==> quant <= 8)
  }

  /** Output sample `i` of plane `p` under the resolved `pivot`: the sample
      of line 228 or 249 through the uniform quantizer in mode -1 and through
      `logQuant` otherwise. */
  function Quantized(p: seq<Byte>, g: Geometry, quant: int, pivot: int, interior: LogInterior, i: int): (v: Byte)
    requires g.Valid() && |p| == g.Pixels() && 0 <= i < g.NewSize()
    requires pivot == UniformMode ==> quant <= 8
    ensures pivot == UniformMode ==> v in UniformLevels(quant)
    ensures pivot == UniformMode && quant == 8 ==> v == Sample(p, g, true, i)
    ensures pivot != UniformMode && Sample(p, g, false, i) == pivot ==> v == pivot
  {
    if pivot == UniformMode then
      var s := Sample(p, g, true, i);
      UniformQuantInRange(s, quant);
      UniformQuantIsLevel(s, quant);
      FullDepthIsIdentity(s);
      UniformQuant(s, BitIntervalsOf(quant))
    else
      var s := Sample(p, g, false, i);
      LogQuantInRange(s, pivot, NumIntervalsOf(quant), interior);
      LogQuant(s, pivot, NumIntervalsOf(quant), interior)
  }

  /** One resampled, quantized plane. */
  function ChannelOut(p: seq<Byte>, g: Geometry, quant: int, pivot: int, interior: LogInterior): (c: seq<Byte>)
    requires g.Valid() && |p| == g.Pixels()
    requires pivot == UniformMode ==> quant <= 8
    ensures |c| == g.NewSize()
  {
    var n := g.NewSize();
    seq(n, i requires 0 <= i < n => Quantized(p, g, quant, pivot, interior, i))
  }

  /** The buffer `readImageData` returns for `file`. */
  function PipelineOutput(file: seq<Byte>, g: Geometry, quant: int, mode: int, interior: LogInterior): (out: seq<Byte>)
    requires Defined(file, g, quant, mode)
    ensures |out| == 3 * g.NewSize()
  {
    var pl := LoadPlanes(file, g.Pixels());
    var pivot := ResolvedPivot(pl, g.Pixels(), mode);
    Interleave(ChannelOut(pl.r, g, quant, pivot, interior),
               ChannelOut(pl.g, g, quant, pivot, interior),
               ChannelOut(pl.b, g, quant, pivot, interior))
  }

  /** One channel of one output pixel, as the branches of lines 227-268
      compute it from source coordinates `(x, y)`. */
  method QuantizeSample(p: seq<Byte>, g: Geometry, quant: int, pivot: int, numIntervals: int,
                        bitIntervals: int, interior: LogInterior, i: int, x: int, y: int) returns (v: Byte)
    requires g.Valid() && |p| == g.Pixels() && 0 <= i < g.NewSize()
    requires pivot == UniformMode ==> quant <= 8
    requires numIntervals == NumIntervalsOf(quant) && bitIntervals == BitIntervalsOf(quant)
    requires x == SourceX(g, i) && y == SourceY(g, i)
    ensures v == Quantized(p, g, quant, pivot, interior, i)
  {
    var idx := y * g.width + x;
    assert idx == SourceIndex(g, i);
    var round: int;
    if pivot == UniformMode {
      if g.factor > 1 && x - 1 >= 0 && x + 1 < g.width && y + 1 < g.height && y - 1 >= 0 {
        CoordGuardTapsInBounds(g, x, y);
        round := BoxFilter(p, g.width, idx);
        round := round / bitIntervals * bitIntervals;
        round := round + bitIntervals / 2;
        assert round == UniformQuant(Sample(p, g, true, i), bitIntervals);
      } else {
        round := p[idx] / bitIntervals * bitIntervals + bitIntervals / 2;
        assert round == UniformQuant(Sample(p, g, true, i), bitIntervals);
      }
    } else {
      if g.factor > 1 && idx - g.width - 1 >= 0 && idx + g.width + 1 < g.width * g.height {
        round := BoxFilter(p, g.width, idx);
      } else {
        round := p[idx];
      }
      assert round == Sample(p, g, false, i);
      round := LogQuant(round, pivot, numIntervals, interior);
    }
    assert round == Quantized(p, g, quant, pivot, interior, i);
    v := round;
  }

  /** One iteration of the resampling loop (lines 223-269): the source
      coordinates of output pixel `i`, then its red, green and blue samples. */
  method OutputPixel(pl: Planes, g: Geometry, quant: int, pivot: int, numIntervals: int,
                     bitIntervals: int, interior: LogInterior, i: int) returns (vr: Byte, vg: Byte, vb: Byte)
    requires g.Valid() && pl.Valid(g.Pixels()) && 0 <= i < g.NewSize()
    requires pivot == UniformMode ==> quant <= 8
    requires numIntervals == NumIntervalsOf(quant) && bitIntervals == BitIntervalsOf(quant)
    ensures vr == ChannelOut(pl.r, g, quant, pivot, interior)[i]
    ensures vg == ChannelOut(pl.g, g, quant, pivot, interior)[i]
    ensures vb == ChannelOut(pl.b, g, quant, pivot, interior)[i]
  {
    OutputDims(g, i);
    var currHeight := i / (g.width / g.factor);
    var currWidth := i % (g.width / g.factor);
    var x := currWidth * g.factor;
    var y := currHeight * g.factor;
    vr := QuantizeSample(pl.r, g, quant, pivot, numIntervals, bitIntervals, interior, i, x, y);
    vg := QuantizeSample(pl.g, g, quant, pivot, numIntervals, bitIntervals, interior, i, x, y);
    vb := QuantizeSample(pl.b, g, quant, pivot, numIntervals, bitIntervals, interior, i, x, y);
  }

  /** The resampling loop of lines 222-270, over the corrected output grid,
      writing into three distinct planes of `newSize` samples. */
  method FillPlanes(pl: Planes, g: Geometry, quant: int, pivot: int, numIntervals: int, bitIntervals: int,
                    interior: LogInterior, newR: array<Byte>, newG: array<Byte>, newB: array<Byte>)
    requires g.Valid() && pl.Valid(g.Pixels())
    requires pivot == UniformMode ==> quant <= 8
    requires numIntervals == NumIntervalsOf(quant) && bitIntervals == BitIntervalsOf(quant)
    requires newR.Length == newG.Length == newB.Length == g.NewSize()
    requires newR != newG && newR != newB && newG != newB
    modifies newR, newG, newB
    ensures newR[..] == ChannelOut(pl.r, g, quant, pivot, interior)
    ensures newG[..] == ChannelOut(pl.g, g, quant, pivot, interior)
    ensures newB[..] == ChannelOut(pl.b, g, quant, pivot, interior)
  {
    ghost var outR := ChannelOut(pl.r, g, quant, pivot, interior);
    ghost var outG := ChannelOut(pl.g, g, quant, pivot, interior);
    ghost var outB := ChannelOut(pl.b, g, quant, pivot, interior);
    for i := 0 to newR.Length
      invariant forall j :: 0 <= j < i ==> newR[j] == outR[j]
      invariant forall j :: 0 <= j < i ==> newG[j] == outG[j]
      invariant forall j :: 0 <= j < i ==> newB[j] == outB[j]
    {
      var vr, vg, vb := OutputPixel(pl, g, quant, pivot, numIntervals, bitIntervals, interior, i);
      newR[i], newG[i], newB[i] := vr, vg, vb;
    }
  }

  /** Lines 207-222: the three output planes and the two interval counts, then
      the resampling loop. */
  method ResampleQuantize(pl: Planes, g: Geometry, quant: int, pivot: int, interior: LogInterior)
    returns (newR: array<Byte>, newG: array<Byte>, newB: array<Byte>)
    requires g.Valid() && pl.Valid(g.Pixels()) && quant <= 30
    requires pivot == UniformMode ==> quant <= 8
    ensures fresh(newR) && fresh(newG) && fresh(newB)
    ensures newR[..] == ChannelOut(pl.r, g, quant, pivot, interior)
    ensures newG[..] == ChannelOut(pl.g, g, quant, pivot, interior)
    ensures newB[..] == ChannelOut(pl.b, g, quant, pivot, interior)
  {
    var newSize := g.NewSize();
    newR := new Byte[newSize];
    newG := new Byte[newSize];
    newB := new Byte[newSize];
    var numIntervals := NumIntervals(quant);
    var bitIntervals := 256 / numIntervals;
    FillPlanes(pl, g, quant, pivot, numIntervals, bitIntervals, interior, newR, newG, newB);
  }

  /** `readImageData`: split, resolve the pivot, resample and quantize, pack. */
  method ReadImageData(file: seq<Byte>, g: Geometry, quant: int, mode: int, interior: LogInterior)
    returns (inData: array<Byte>)
    requires Defined(file, g, quant, mode)
    ensures fresh(inData)
    ensures inData[..] == PipelineOutput(file, g, quant, mode, interior)
  {
    var n := g.Pixels();
    var pl := LoadPlanes(file, n);
    var pivot := ResolvePivot(pl, n, mode);
    var newR, newG, newB := ResampleQuantize(pl, g, quant, pivot, interior);
    inData := Pack(newR, newG, newB);
  }

  /** In uniform mode every output byte is one of the `2^quant` bucket
      midpoints, so at most `2^quant` distinct values come out. */
  lemma UniformOutputLevels(file: seq<Byte>, g: Geometry, quant: int, mode: int, interior: LogInterior)
    requires Defined(file, g, quant, mode)
    requires ResolvedPivot(LoadPlanes(file, g.Pixels()), g.Pixels(), mode) == UniformMode
    ensures forall k :: 0 <= k < |PipelineOutput(file, g, quant, mode, interior)| ==>
              PipelineOutput(file, g, quant, mode, interior)[k] in UniformLevels(quant)
    ensures |set k | 0 <= k < |PipelineOutput(file, g, quant, mode, interior)| :: PipelineOutput(file, g, quant, mode, interior)[k]|
              <= NumIntervalsOf(quant)
  {
    var out := PipelineOutput(file, g, quant, mode, interior);
    var pl := LoadPlanes(file, g.Pixels());
    var r := ChannelOut(pl.r, g, quant, UniformMode, interior);
    var green := ChannelOut(pl.g, g, quant, UniformMode, interior);
    var b := ChannelOut(pl.b, g, quant, UniformMode, interior);
    forall k | 0 <= k < |out|
      ensures out[k] in UniformLevels(quant)
    {
      InterleaveSource(r, green, b, k);
    }
    var values := set k | 0 <= k < |out| :: out[k];
    SubsetCard(values, UniformLevels(quant));
  }

  /** At scale 1 with 8 bits in uniform mode the buffer is the file's planes,
      interleaved: the red, green and blue samples of pixel `i` are file bytes
      `i`, `n + i` and `2 * n + i` (zero past a short file). */
  lemma ScaleOneFullDepth(file: seq<Byte>, g: Geometry, interior: LogInterior, i: int)
    requires g.Valid() && g.factor == 1 && 0 <= i < g.Pixels()
    ensures Defined(file, g, 8, UniformMode)
    ensures |PipelineOutput(file, g, 8, UniformMode, interior)| == 3 * g.Pixels()
    ensures PipelineOutput(file, g, 8, UniformMode, interior)[3 * i] == FileByte(file, i)
    ensures PipelineOutput(file, g, 8, UniformMode, interior)[3 * i + 1] == FileByte(file, g.Pixels() + i)
    ensures PipelineOutput(file, g, 8, UniformMode, interior)[3 * i + 2] == FileByte(file, 2 * g.Pixels() + i)
  {
    var pl := LoadPlanes(file, g.Pixels());
    ScaleOneIsIdentity(g, i);
    ScaleOneSample(pl.r, g, true, i);
    ScaleOneSample(pl.g, g, true, i);
    ScaleOneSample(pl.b, g, true, i);
    InterleaveAt(ChannelOut(pl.r, g, 8, UniformMode, interior),
                 ChannelOut(pl.g, g, 8, UniformMode, interior),
                 ChannelOut(pl.b, g, 8, UniformMode, interior), i);
  }

  /** At scale 1 in uniform mode, output sample `i` is source sample `i`
      through the uniform quantizer, at any bit depth. */
  lemma ScaleOneUniform(p: seq<Byte>, g: Geometry, quant: int, interior: LogInterior, i: int)
    requires g.Valid() && |p| == g.Pixels() && g.factor == 1 && 0 <= i < g.Pixels() && quant <= 8
    ensures ChannelOut(p, g, quant, UniformMode, interior)[i] == UniformQuant(p[i], BitIntervalsOf(quant))
  {
    ScaleOneIsIdentity(g, i);
    ScaleOneSample(p, g, true, i);
  }

  /** At scale 1 in logarithmic mode, output sample `i` is `logQuant` of source sample `i`. */
  lemma ScaleOneLogarithmic(p: seq<Byte>, g: Geometry, quant: int, pivot: int, interior: LogInterior, i: int)
    requires g.Valid() && |p| == g.Pixels() && g.factor == 1 && 0 <= i < g.Pixels() && pivot != UniformMode
    ensures ChannelOut(p, g, quant, pivot, interior)[i] == LogQuant(p[i], pivot, NumIntervalsOf(quant), interior)
  {
    ScaleOneIsIdentity(g, i);
    ScaleOneSample(p, g, false, i);
  }

  /** With 1 bit in uniform mode every sample of a plane is quantized to 64 or 192. */
  lemma OneBitChannel(p: seq<Byte>, g: Geometry, interior: LogInterior, i: int)
    requires g.Valid() && |p| == g.Pixels() && 0 <= i < g.NewSize()
    ensures ChannelOut(p, g, 1, UniformMode, interior)[i] in {64, 192}
  {
    OneBitLevels(Sample(p, g, true, i));
  }

  /** With 1 bit in uniform mode every output byte is 64 or 192, at any scale. */
  lemma OneBitOutput(file: seq<Byte>, g: Geometry, interior: LogInterior, k: int)
    requires g.Valid() && 0 <= k < 3 * g.NewSize()
    ensures Defined(file, g, 1, UniformMode)
    ensures PipelineOutput(file, g, 1, UniformMode, interior)[k] in {64, 192}
  {
    var pl := LoadPlanes(file, g.Pixels());
    var r := ChannelOut(pl.r, g, 1, UniformMode, interior);
    var green := ChannelOut(pl.g, g, 1, UniformMode, interior);
    var b := ChannelOut(pl.b, g, 1, UniformMode, interior);
    InterleaveSource(r, green, b, k);
    OneBitChannel(pl.r, g, interior, k / 3);
    OneBitChannel(pl.g, g, interior, k / 3);
    OneBitChannel(pl.b, g, interior, k / 3);
  }

  /** An averaged pivot of -1 is not a pivot: the image is then quantized
      exactly as in uniform mode. */
  lemma AutoPivotMayTurnUniform(file: seq<Byte>, g: Geometry, quant: int, interior: LogInterior)
    requires Defined(file, g, quant, AutoPivotMode)
    requires ResolvedPivot(LoadPlanes(file, g.Pixels()), g.Pixels(), AutoPivotMode) == UniformMode
    ensures Defined(file, g, quant, UniformMode)
    ensures PipelineOutput(file, g, quant, AutoPivotMode, interior) == PipelineOutput(file, g, quant, UniformMode, interior)
  {}

  /** In logarithmic mode a sample equal to the pivot is passed through: the
      three bytes of pixel `i` keep each channel's sample when it is the pivot. */
  lemma PivotSamplesKept(file: seq<Byte>, g: Geometry, quant: int, mode: int, interior: LogInterior, i: int)
    requires Defined(file, g, quant, mode) && 0 <= i < g.NewSize()
    requires ResolvedPivot(LoadPlanes(file, g.Pixels()), g.Pixels(), mode) != UniformMode
    ensures var pl := LoadPlanes(file, g.Pixels());
            var pivot := ResolvedPivot(pl, g.Pixels(), mode);
            var out := PipelineOutput(file, g, quant, mode, interior);
            && (Sample(pl.r, g, false, i) == pivot ==> out[3 * i] == pivot)
            && (Sample(pl.g, g, false, i) == pivot ==> out[3 * i + 1] == pivot)
            && (Sample(pl.b, g, false, i) == pivot ==> out[3 * i + 2] == pivot)
  {
    var pl := LoadPlanes(file, g.Pixels());
    var pivot := ResolvedPivot(pl, g.Pixels(), mode);
    InterleaveAt(ChannelOut(pl.r, g, quant, pivot, interior),
                 ChannelOut(pl.g, g, quant, pivot, interior),
                 ChannelOut(pl.b, g, quant, pivot, interior), i);
  }
}
