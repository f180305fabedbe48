# ImageDisplay: the integer image pipeline of `readImageData`, in Dafny

This project models the computational core of the ImageDisplay viewer.
`readImageData` reads a raw planar RGB file (`RRR...GGG...BBB...`). Unless a
pivot is given, it derives one from a strided average of the samples. It
resamples the image down by an integer factor, optionally through a 3 x 3 box
filter. It quantizes each sample either uniformly to `2^quant` levels (mode -1)
or logarithmically around the pivot. Finally it packs the three planes into one
interleaved `RGBRGB...` buffer. `logQuant` is modelled only as its integer
shell: the pivot short-circuit and the final clamp.

The modules follow the stages of the function:

- `Bytes` — bytes, the signed reading of a plain `char`, C++ truncating
  division, and small division facts.
- `RawLoader` — the planar split of the file (lines 175-188).
- `PivotResolution` — the auto-pivot loop and its divisions (lines 193-204).
- `Quantizer` — the `numIntervals` doubling loop, the uniform quantizer, and
  the integer shell of `logQuant`.
- `Resampler` — the geometry, the coordinate mapping, the two filter guards
  and the box filter.
- `Packer` — the interleaving copy loop (lines 284-290).
- `ImagePipeline` — `readImageData` end to end.

Each loop of the source is a `method` with loop invariants, proved against a
specification function. The properties of that function are lemmas.

Modelling conventions:

- The `scale` argument is `1 / factor` for an integer `factor >= 1`, so
  `reverseScale` is `factor`.
- `char` is signed (two's complement, as on x86-64).
- The file is a sequence of bytes.
- The floating-point interior of `logQuant` is a function parameter
  `interior`.
- `Resampler.Geometry.Valid` bounds `width * height` by a third of the `int`
  range. This is a bound of the model, not a demand of the source (see
  "## Left out").
- `ImagePipeline.Defined` states what the source, run on the corrected output
  grid, needs of its arguments to avoid undefined behaviour (the code as
  written has more, see "## Findings"). The floating-point interior of
  `logQuant` is left out of it: that interior is undefined for some explicit
  pivots outside [0, 255], for example 800. `Defined` asks for:
  - at least 5 pixels for the auto-pivot division;
  - `quant <= 30`, so that `2^quant` fits an `int`;
  - in uniform mode, at most 8 bits, so that `bitIntervals` is not 0.

## Model

| member | source | states |
|---|---|---|
| Bytes.SignedChar | ImageDisplay_C++_cross_platform/src/Main.cpp:196-198 | a byte read through a signed `char` lies in [-128, 127], is congruent to the byte mod 256, and equals it exactly below 128 |
| Bytes.TruncDiv | ImageDisplay_C++_cross_platform/src/Main.cpp:200-201 | C++ division by a positive divisor: the remainder has the sign of the dividend and is smaller than the divisor |
| RawLoader.FileByte | ImageDisplay_C++_cross_platform/src/Main.cpp:175-188 | byte `j` of the file, or 0 past its end: the zero-initialised buffers of lines 175-177 keep their zeros past a short read |
| RawLoader.ReadPlaneSlice | ImageDisplay_C++_cross_platform/src/Main.cpp:186-188 | a read the file covers is exactly the slice `file[c * n .. (c + 1) * n]`, and a read that starts at or past the end of the file leaves `n` zeros; `LoadPlanar`, `PlanarOfLoad` and `ShortReadIsZero` state the same of all three reads together |
| RawLoader.LoadPlanes | ImageDisplay_C++_cross_platform/src/Main.cpp:175-188 | the three reads give planes of `n` samples each; sample `i` of red, green and blue is file byte `i`, `n + i` and `2n + i`, or 0 past the end of the file; `LoadPlanar`, `PlanarOfLoad` and `ShortReadIsZero` state what that split means: it inverts the planar layout and leaves zeros where a short file ends |
| RawLoader.Planar | ImageDisplay_C++_cross_platform/src/Main.cpp:180-183 | the planar file layout of three planes: red, then green, then blue, end to end, one byte per sample |
| RawLoader.LoadPlanar | ImageDisplay_C++_cross_platform/src/Main.cpp:180-188 | loading a file laid out as the planes end to end gives back those planes |
| RawLoader.PlanarOfLoad | ImageDisplay_C++_cross_platform/src/Main.cpp:186-188 | for a file of at least three planes, the planes laid end to end are exactly its first `3n` bytes |
| RawLoader.ShortReadIsZero | ImageDisplay_C++_cross_platform/src/Main.cpp:175-177 | a sample the short file does not reach keeps the buffer's initial 0 |
| PivotResolution.StridedSum | ImageDisplay_C++_cross_platform/src/Main.cpp:195-199 | the sum the loop accumulates from index `i` on: the signed-char R, G and B samples of pixels `i`, `i + 100`, ... below `n`; `SumBounds` and `ConstantSum` state its value range and its value on a constant image |
| PivotResolution.ResolvedPivot | ImageDisplay_C++_cross_platform/src/Main.cpp:193-204 | every mode but -2 is kept; mode -2 resolves to a pivot in [-128, 127] |
| PivotResolution.ResolvePivot | ImageDisplay_C++_cross_platform/src/Main.cpp:193-202 | the strided loop and the two truncating divisions compute exactly the resolved pivot |
| PivotResolution.SumBounds | ImageDisplay_C++_cross_platform/src/Main.cpp:195-199 | the strided sum lies between -384 and 381 times the number of sampled pixels |
| PivotResolution.AutoPivotBounded | ImageDisplay_C++_cross_platform/src/Main.cpp:200-201 | a sum of that size, divided by `n / 5` and then by 3, lies in [-128, 127] |
| PivotResolution.QuotientBounded | ImageDisplay_C++_cross_platform/src/Main.cpp:200 | a sum of at most `d` terms in [-384, 381], divided by `d`, stays in [-384, 381] |
| PivotResolution.ConstantSum | ImageDisplay_C++_cross_platform/src/Main.cpp:195-199 | on a constant image the sum is three times the signed sample times the number of sampled pixels |
| PivotResolution.ConstantNinetyPivot | ImageDisplay_C++_cross_platform/src/Main.cpp:193-202 | an all-90 512 x 512 image resolves to pivot 4, not 90 |
| PivotResolution.ConstantTwoThirtySixPivot | ImageDisplay_C++_cross_platform/src/Main.cpp:193-202 | an all-236 512 x 512 image resolves to -1, which is the uniform mode |
| Quantizer.NumIntervalsOf | ImageDisplay_C++_cross_platform/src/Main.cpp:216-218 | the count the doubling loop reaches: 1 when `quant <= 0` (the loop does not run), `2^quant` otherwise, never below 1 |
| Quantizer.NumIntervals | ImageDisplay_C++_cross_platform/src/Main.cpp:216-218 | the doubling loop yields `2^quant` (1 when `quant <= 0`), at most `2^30` |
| Quantizer.BitIntervalsOf | ImageDisplay_C++_cross_platform/src/Main.cpp:219 | for up to 8 bits, `256 / numIntervals` is a bucket width in [1, 256] whose buckets tile the 256 byte values exactly; it is 1 or even |
| Quantizer.UniformQuant | ImageDisplay_C++_cross_platform/src/Main.cpp:230-231 | the result minus half a bucket is a multiple of the bucket width, and the sample lies in the bucket the result is the midpoint of |
| Quantizer.BucketOfByte | ImageDisplay_C++_cross_platform/src/Main.cpp:241 | every byte falls into one of the `numIntervals` buckets |
| Quantizer.UniformQuantInRange | ImageDisplay_C++_cross_platform/src/Main.cpp:230-231 | with at most 8 bits, a quantized byte is a byte, so storing it into the output plane loses nothing |
| Quantizer.UniformQuantMonotone | ImageDisplay_C++_cross_platform/src/Main.cpp:241 | quantization preserves the order of samples |
| Quantizer.UniformQuantIdempotent | ImageDisplay_C++_cross_platform/src/Main.cpp:241 | quantizing a quantized value changes nothing |
| Quantizer.LevelSet | ImageDisplay_C++_cross_platform/src/Main.cpp:216-219 | the first `count` bucket midpoints form a set of at most `count` values |
| Quantizer.InLevelSet | ImageDisplay_C++_cross_platform/src/Main.cpp:230-231 | the midpoint of every bucket below `count` is in the level set |
| Quantizer.UniformLevels | ImageDisplay_C++_cross_platform/src/Main.cpp:216-219 | the uniform levels for `quant` bits number at most `2^quant` |
| Quantizer.UniformQuantIsLevel | ImageDisplay_C++_cross_platform/src/Main.cpp:241 | every quantized byte is one of the `2^quant` levels |
| Quantizer.UniformDistinctValues | ImageDisplay_C++_cross_platform/src/Main.cpp:216-241 | any set of bytes quantizes to at most `2^quant` distinct values |
| Quantizer.FullDepthIsIdentity | ImageDisplay_C++_cross_platform/src/Main.cpp:216-219 | with 8 bits the bucket width is 1 and quantization is the identity |
| Quantizer.OneBitLevels | ImageDisplay_C++_cross_platform/src/Main.cpp:216-219 | with 1 bit the bucket width is 128 and every byte goes to 64 or 192 |
| Quantizer.Clamp | ImageDisplay_C++_cross_platform/src/Main.cpp:160 | the result equals the input exactly when the input is in [0, 255]; otherwise it is 0 below the range and 255 above |
| Quantizer.LogQuant | ImageDisplay_C++_cross_platform/src/Main.cpp:141-161 | a value equal to the pivot is returned unchanged; any other value yields a byte, whatever the interior computes |
| Quantizer.LogQuantInRange | ImageDisplay_C++_cross_platform/src/Main.cpp:142-160 | on a byte, `logQuant` returns a byte for every pivot and interior |
| Resampler.Geometry.OutWidth | ImageDisplay_C++_cross_platform/src/Main.cpp:224 | `(int)(width * scale)` at scale `1 / factor`: the largest `ow` with `ow * factor <= width` |
| Resampler.Geometry.OutHeight | ImageDisplay_C++_cross_platform/src/Main.cpp:223 | `(int)(height * scale)` at scale `1 / factor`: the largest `oh` with `oh * factor <= height` |
| Resampler.Geometry.NewSize | ImageDisplay_C++_cross_platform/src/Main.cpp:207 | the corrected output size: one pixel per output column and row, `outWidth * outHeight`, never negative |
| Resampler.OutputDims | ImageDisplay_C++_cross_platform/src/Main.cpp:223-224 | if an output pixel exists, both output dimensions are at least 1 and, scaled back, fit the source |
| Resampler.ScaledBelow | ImageDisplay_C++_cross_platform/src/Main.cpp:225-226 | an output row or column scaled by the factor stays a whole factor short of the source dimension and is a multiple of the factor |
| Resampler.SourceX | ImageDisplay_C++_cross_platform/src/Main.cpp:224-225 | the source column is a multiple of the factor in [0, width - factor] |
| Resampler.SourceY | ImageDisplay_C++_cross_platform/src/Main.cpp:223-226 | the source row (from the corrected row divisor) is a multiple of the factor in [0, height - factor] |
| Resampler.SourceIndex | ImageDisplay_C++_cross_platform/src/Main.cpp:222-226 | every output pixel of the corrected grid reads a source pixel inside the plane |
| Resampler.ScaleOneIsIdentity | ImageDisplay_C++_cross_platform/src/Main.cpp:207-226 | at scale 1 there are as many output pixels as source pixels, and pixel `i` reads source pixel `i` |
| Resampler.TapOffsetsSmall | ImageDisplay_C++_cross_platform/src/Main.cpp:229 | each tap is at most one row and one column from the centre |
| Resampler.Taps | ImageDisplay_C++_cross_platform/src/Main.cpp:229 | the nine taps, in the source's order, lie within `width + 1` of the centre index |
| Resampler.TapAt | ImageDisplay_C++_cross_platform/src/Main.cpp:229 | tap `j` is its row offset times the width plus its column offset away from the centre |
| Resampler.Ninth | ImageDisplay_C++_cross_platform/src/Main.cpp:229 | each tap contributes its byte divided by 9 and rounded down (`9 * r <= v < 9 * r + 9`), a value in [0, 28] |
| Resampler.BoxFilter | ImageDisplay_C++_cross_platform/src/Main.cpp:229 | the divide-then-sum filter yields a value in [0, 252] |
| Resampler.BoxFilterIsTapSum | ImageDisplay_C++_cross_platform/src/Main.cpp:229 | the filter is the sum of `sample / 9` over the nine indices of `Taps`, in their order, and each of them is inside the plane, so the lemmas about `Taps` are lemmas about the filter the source runs |
| Resampler.TapTotal | ImageDisplay_C++_cross_platform/src/Main.cpp:229 | the undivided sum of the nine taps lies in [0, 9 * 255] |
| Resampler.BoxFilterVersusMean | ImageDisplay_C++_cross_platform/src/Main.cpp:229 | dividing before summing never exceeds the true mean of the taps and falls short of it by at most 8 |
| Resampler.BoxFilterOfConstant | ImageDisplay_C++_cross_platform/src/Main.cpp:229 | on a uniform neighbourhood of value `c`, the filter gives `c` rounded down to a multiple of 9 |
| Resampler.Cell | ImageDisplay_C++_cross_platform/src/Main.cpp:229 | an index offset by `dr` rows and `dc` columns lies in row `y + dr` and column `x + dc` when that column exists |
| Resampler.CoordGuard | ImageDisplay_C++_cross_platform/src/Main.cpp:228 | the uniform-mode filter guard: scale below 1 and `x - 1 >= 0`, `x + 1 < width`, `y + 1 < height`, `y - 1 >= 0` on the source coordinates; `CoordGuardNeighbourhood` proves it keeps all nine taps inside the 3 x 3 neighbourhood |
| Resampler.LinearGuard | ImageDisplay_C++_cross_platform/src/Main.cpp:249 | the logarithmic-mode filter guard: scale below 1 and the linear indices of the lowest and highest taps inside the plane; for columns up to `width - 2`, `GuardsDifferAtLeftEdge` proves it admits, beyond the coordinate guard, exactly the left-edge pixels of rows 2 to `height - 2`; at factor 2 or more every source column the loop visits is at most `width - 2` (`SourceX`) |
| Resampler.CoordGuardTapsInBounds | ImageDisplay_C++_cross_platform/src/Main.cpp:228-229 | the coordinate guard keeps the extreme taps inside the plane |
| Resampler.CoordGuardNeighbourhood | ImageDisplay_C++_cross_platform/src/Main.cpp:228-229 | under the coordinate guard every tap is in the plane and in the true 3 x 3 neighbourhood of `(x, y)` |
| Resampler.CoordGuardImpliesLinear | ImageDisplay_C++_cross_platform/src/Main.cpp:228-249 | every pixel the uniform-mode guard filters, the logarithmic-mode guard filters too |
| Resampler.LinearGuardAtLeftEdge | ImageDisplay_C++_cross_platform/src/Main.cpp:249 | the linear guard admits column 0 from row 2 to row `height - 2` |
| Resampler.LinearGuardBeyondCoord | ImageDisplay_C++_cross_platform/src/Main.cpp:228-249 | away from the right edge, a pixel the linear guard admits and the coordinate guard rejects is at column 0 between rows 2 and `height - 2` |
| Resampler.GuardsDifferAtLeftEdge | ImageDisplay_C++_cross_platform/src/Main.cpp:228-249 | away from the right edge, the linear guard holds exactly when the coordinate guard does or the pixel is on that stretch of the left edge |
| Resampler.LeftEdgeWrapsRow | ImageDisplay_C++_cross_platform/src/Main.cpp:249-250 | at the left edge the logarithmic-mode filter's left tap is the last pixel of the previous row |
| Resampler.LinearGuardTapsInPlane | ImageDisplay_C++_cross_platform/src/Main.cpp:249-250 | under the guard of line 249 every one of the nine taps of line 250 reads inside the plane |
| Resampler.Sample | ImageDisplay_C++_cross_platform/src/Main.cpp:227-262 | the filtered-or-raw sample that is handed to the quantizer is a byte |
| Resampler.ScaleOneSample | ImageDisplay_C++_cross_platform/src/Main.cpp:228-249 | at scale 1 neither filter runs and output pixel `i` samples source pixel `i` |
| Resampler.AsWrittenNewSize | ImageDisplay_C++_cross_platform/src/Main.cpp:207 | `newSize` as line 207 computes it, `width * height / factor^2` rounded down; never fewer pixels than the `outWidth * outHeight` grid |
| Resampler.AsWrittenSourceIndex | ImageDisplay_C++_cross_platform/src/Main.cpp:223-226 | the source index as lines 223-226 compute it, with the output row taken as `i / outHeight`; `AsWrittenAgrees` and `AsWrittenRowOverruns` state where it matches the corrected index and where it leaves the plane |
| Resampler.AsWrittenSizeOverruns | ImageDisplay_C++_cross_platform/src/Main.cpp:207-226 | at scale 1/3 on 512 x 512, line 207 gives 29127 output pixels against a 28900-pixel grid, and the last one reads row 513 |
| Resampler.AsWrittenRowOverruns | ImageDisplay_C++_cross_platform/src/Main.cpp:223 | on a 4 x 2 image at scale 1, the row divisor of line 223 sends pixel 7 to index 15, outside the 8-pixel plane |
| Resampler.AsWrittenExtraPixelsInPlane | ImageDisplay_C++_cross_platform/src/Main.cpp:207-226 | at scale 1/5 of a 512 x 512 image line 207 asks for 10485 pixels, 81 more than the 102 x 102 grid, and every extra pixel reads row 510, inside the plane |
| Resampler.AsWrittenSizeMayFit | ImageDisplay_C++_cross_platform/src/Main.cpp:207 | at scales 1/400 and 1/511 of a 512 x 512 image, factors that do not divide 512, line 207 asks for exactly the one pixel of the 1 x 1 grid |
| Resampler.AsWrittenAgrees | ImageDisplay_C++_cross_platform/src/Main.cpp:207-226 | the as-written index equals the corrected one on square images, and the as-written size equals the corrected one when the factor divides both dimensions |
| Packer.Interleave | ImageDisplay_C++_cross_platform/src/Main.cpp:284-290 | the packed buffer has three bytes per pixel |
| Packer.InterleaveAt | ImageDisplay_C++_cross_platform/src/Main.cpp:287-289 | pixel `i`'s red, green and blue are at bytes `3i`, `3i + 1` and `3i + 2` |
| Packer.InterleaveLayout | ImageDisplay_C++_cross_platform/src/Main.cpp:287-289 | the same for every pixel at once |
| Packer.InterleaveSource | ImageDisplay_C++_cross_platform/src/Main.cpp:287-289 | byte `k` is a sample of pixel `k / 3` from the plane that `k % 3` selects |
| Packer.InterleaveUnique | ImageDisplay_C++_cross_platform/src/Main.cpp:284-290 | any buffer that holds the planes at the packed positions is their interleaving |
| Packer.DeinterleaveInterleave | ImageDisplay_C++_cross_platform/src/Main.cpp:284-290 | unpacking a packed buffer recovers each plane |
| Packer.InterleaveDeinterleave | ImageDisplay_C++_cross_platform/src/Main.cpp:284-290 | every buffer of whole pixels is the interleaving of its channels |
| Packer.Pack | ImageDisplay_C++_cross_platform/src/Main.cpp:281-290 | the copy loop fills a fresh buffer with exactly the interleaving of the three planes |
| ImagePipeline.Defined | ImageDisplay_C++_cross_platform/src/Main.cpp:193-219 | the arguments on which `readImageData`, run on the corrected output grid, has no undefined behaviour, apart from the floating-point interior of `logQuant`, which is undefined for some explicit pivots outside [0, 255], for example 800: at least 5 pixels for the auto-pivot division of line 200, `quant <= 30` for the doubling loop, and at most 8 bits when the resolved mode is uniform, so that `bitIntervals` of line 219 is not 0; the two findings are further undefined behaviour of the code as written, outside this predicate |
| ImagePipeline.Quantized | ImageDisplay_C++_cross_platform/src/Main.cpp:227-268 | in uniform mode the output is one of the `2^quant` levels, and at 8 bits it is the sample itself; in logarithmic mode a sample equal to the pivot is kept |
| ImagePipeline.ChannelOut | ImageDisplay_C++_cross_platform/src/Main.cpp:222-270 | a quantized plane has one sample per output pixel |
| ImagePipeline.PipelineOutput | ImageDisplay_C++_cross_platform/src/Main.cpp:164-293 | the returned buffer has three bytes per pixel of the output grid |
| ImagePipeline.QuantizeSample | ImageDisplay_C++_cross_platform/src/Main.cpp:227-268 | the branches of the loop body, run on the source's own guard expressions, compute exactly the specified output sample |
| ImagePipeline.OutputPixel | ImageDisplay_C++_cross_platform/src/Main.cpp:223-269 | one iteration of the resampling loop, from the output index through the source coordinates to the three quantized samples, yields exactly the specified samples of that pixel |
| ImagePipeline.FillPlanes | ImageDisplay_C++_cross_platform/src/Main.cpp:222-270 | the resampling loop writes, into three distinct planes, exactly the specified output plane of each channel, every index of the output grid |
| ImagePipeline.ResampleQuantize | ImageDisplay_C++_cross_platform/src/Main.cpp:207-222 | the three planes are fresh, `numIntervals` and `bitIntervals` come from the doubling loop and the division, and after the loop each plane is the specified output plane |
| ImagePipeline.ReadImageData | ImageDisplay_C++_cross_platform/src/Main.cpp:164-293 | the whole function returns a fresh buffer equal to the specified output |
| ImagePipeline.UniformOutputLevels | ImageDisplay_C++_cross_platform/src/Main.cpp:216-247 | in uniform mode every output byte is a level, and at most `2^quant` distinct values appear in the buffer |
| ImagePipeline.ScaleOneFullDepth | ImageDisplay_C++_cross_platform/src/Main.cpp:186-290 | at scale 1 with 8 bits in uniform mode, the buffer is the file's planes interleaved, byte for byte |
| ImagePipeline.ScaleOneUniform | ImageDisplay_C++_cross_platform/src/Main.cpp:227-246 | at scale 1 in uniform mode, at any bit depth, output sample `i` of a plane is source sample `i` through the uniform quantizer: no filter, no resampling |
| ImagePipeline.ScaleOneLogarithmic | ImageDisplay_C++_cross_platform/src/Main.cpp:248-267 | at scale 1 in logarithmic mode, output sample `i` of a plane is `logQuant` of source sample `i` |
| ImagePipeline.OneBitChannel | ImageDisplay_C++_cross_platform/src/Main.cpp:216-247 | with 1 bit in uniform mode every sample of a quantized plane is 64 or 192 |
| ImagePipeline.OneBitOutput | ImageDisplay_C++_cross_platform/src/Main.cpp:216-247 | with 1 bit in uniform mode every output byte is 64 or 192, at any scale |
| ImagePipeline.AutoPivotMayTurnUniform | ImageDisplay_C++_cross_platform/src/Main.cpp:193-227 | an averaged pivot of -1 makes the output identical to uniform mode |
| ImagePipeline.PivotSamplesKept | ImageDisplay_C++_cross_platform/src/Main.cpp:248-268 | in logarithmic mode, a channel sample equal to the pivot comes out as the pivot |

## Left out

- The wxWidgets application is not part of this model. That covers the frame, the scrolled canvas, paint events and command-line parsing: they are GUI, not image math.
- Opening and reading the file is not modelled. The file is a byte sequence parameter. The `exit(1)` taken when the file cannot be opened is I/O.
- The diagnostic output is not modelled: the `values` set and the printing of the pivot and of the red values found (lines 203, 220, 232-233, 242-243, 252-253, 263-264, 272-274).
- `malloc` is not modelled. It becomes a fresh array, and the transfer of ownership to the widget is not modelled.
- `logScale` (lines 135-139) and lines 147-157 of `logQuant` are not modelled. That floating-point interior is the opaque parameter `interior`.
- Quantizer.LogQuant: does not promise that logarithmic mode produces at most `numIntervals` distinct values. That promise depends on the floating-point interior, which is a parameter here.
- Arbitrary float scales are not modelled; only `1 / factor` is.
  - `reverseScale` is taken to be exactly `factor`.
  - Line 207 is read as the exact quotient `width * height / factor^2`, rounded down (`Resampler.AsWrittenNewSize`).
  - Float rounding in these products is not modelled.
- Bytes.SignedChar: assumes `char` is signed. On a platform with unsigned `char` the pivot sum would differ. The filter and the quantizers cast to `unsigned char` first, so they do not depend on it.
- The round trip of the output samples through `vector<char>` and back to `unsigned char` is not modelled. Every stored value is already in [0, 255] (`UniformQuantInRange`, `LogQuantInRange`), so that round trip is the identity.
- Calls outside `ImagePipeline.Defined`, which includes every undefined case, are not modelled. Not every such call is undefined: uniform mode with `quant > 8` on an empty output grid never divides by `bitIntervals`. The undefined cases are:
  - Auto-pivot on fewer than 5 pixels divides by zero.
  - `quant > 30` overflows `numIntervals`.
  - Uniform mode with `quant > 8` divides by zero once the output grid has a pixel.
- ImagePipeline.ReadImageData: models the program with both findings below corrected: `newSize = outWidth * outHeight` and output row `i / outWidth`. So do ImagePipeline.PipelineOutput, ImagePipeline.ChannelOut, ImagePipeline.OutputPixel, ImagePipeline.FillPlanes, ImagePipeline.ResampleQuantize, Resampler.ScaleOneIsIdentity, Resampler.ScaleOneSample, ImagePipeline.ScaleOneFullDepth, ImagePipeline.ScaleOneUniform and ImagePipeline.ScaleOneLogarithmic. They match the source exactly when `width == height` and the factor divides both (`Resampler.AsWrittenAgrees`). When `width == height` but the factor does not divide it, the source computes at least as many pixels as the grid has (`Resampler.AsWrittenNewSize`), more at factors 3 and 5 of a 512 x 512 image and exactly as many at 400 and 511 (`Resampler.AsWrittenSizeMayFit`). Any extra pixels it returns as trailing bytes, which the widget never displays: it shows only `(int)(width * s)` by `(int)(height * s)` pixels (lines 99-106). At 512 x 512 and scale 1/5 the source returns 31455 bytes and the model 31212, the 81 extra pixels all reading inside the plane (`Resampler.AsWrittenExtraPixelsInPlane`); at scale 1/3 some extra pixels read past it (first finding). When `width != height` the row mapping differs too, even where the size is right: on a 4 x 2 image at scale 1 both sizes are 8, but pixel 7 reads index 15 of an 8-sample plane (`Resampler.AsWrittenRowOverruns`, second finding).
- Resampler.Geometry.Valid: bounds `width * height` by `IntMax / 3` at every factor. This is a bound of the model, not undefined behaviour of the source. At scale 1 the packed buffer of `newSize * 3` bytes needs it. At factor 2 or more the source needs only `width * height` (the buffer size of lines 175-177, the loop bound of line 195 and the right side of line 249) and `newSize * 3` to fit an `int`, so larger images that meet those two are not modelled.
- The auto-pivot is not the mean sample: an all-90 image resolves to pivot 4 (`ConstantNinetyPivot`). The model follows the code here, since lines 200-201 divide the sum of about `n / 100` sampled pixels by `n / 5` and then by 3.

## Findings

| source | as written | input that shows it | evidently intended | confidence | as-written member | corrected member |
|---|---|---|---|---|---|---|
| ImageDisplay_C++_cross_platform/src/Main.cpp:207 | `newSize = scale * width * scale * height`, which is never below `outWidth * outHeight` and can exceed it when the factor does not divide the dimensions (at 512 x 512 it does at factors 3 and 5, not at 400 or 511) | 512 x 512 at scale 1/3: 29127 output pixels for a 170 x 170 grid; pixel 29126 reads row 513, index 262824 of a 262144-sample plane | one output pixel per cell of the `outWidth x outHeight` grid | not executed | Resampler.AsWrittenSizeOverruns | Resampler.SourceIndex |
| ImageDisplay_C++_cross_platform/src/Main.cpp:223 | the output row is `i / (int)(height * scale)`, dividing by the output height | 4 x 2 image at scale 1: pixel 7 gets row 3 and reads index 15 of an 8-sample plane | the output row is `i / outWidth` | not executed | Resampler.AsWrittenRowOverruns | Resampler.SourceY |
