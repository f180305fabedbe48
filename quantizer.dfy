/**
 * The quantizers. `numIntervals = 2^quant` comes from a doubling loop
 * (lines 216-219) and `bitIntervals = 256 / numIntervals`. The uniform
 * quantizer snaps a sample to `v / bitIntervals * bitIntervals + bitIntervals / 2`
 * (lines 230-231, 241). The logarithmic quantizer `logQuant` (lines 141-161)
 * is kept only as its integer shell: the pivot short-circuit and the final
 * clamp to [0, 255]; its floating-point interior is a parameter.
 */
module Quantizer {
  import opened Bytes

  function Pow2(e: nat): (r: nat)
    ensures r >= 1
  {
    if e == 0 then 1 else 2 * Pow2(e - 1)
  }

  lemma {:induction false} Pow2Add(a: nat, b: nat)
    ensures Pow2(a + b) == Pow2(a) * Pow2(b)
    decreases a
  {
    if a > 0 {
      Pow2Add(a - 1, b);
    }
  }

  lemma {:induction false} Pow2Monotone(a: nat, b: nat)
    requires a <= b
    ensures Pow2(a) <= Pow2(b)
    decreases b
  {
    if a < b {
      Pow2Monotone(a, b - 1);
    }
  }

  /** The number of levels for `quant` bits: the loop runs `quant` times, none when `quant <= 0`. */
  function NumIntervalsOf(quant: int): (n: nat)
    ensures n >= 1
  {
    if quant <= 0 then 1 else Pow2(quant)
  }

  /** The width of one uniform bucket, `256 / numIntervals`. For up to 8
      bits the buckets tile the 256 byte values exactly. */
  function BitIntervalsOf(quant: int): (bi: int)
    ensures quant <= 8 ==> 1 <= bi <= 256 && bi * NumIntervalsOf(quant) == 256
    ensures quant <= 8 ==> bi == 1 || bi % 2 == 0
  {
    if quant <= 8 then BucketsTileBytes(quant); 256 / NumIntervalsOf(quant)
    else 256 / NumIntervalsOf(quant)
  }

  lemma BucketsTileBytes(quant: int)
    requires quant <= 8
    ensures var bi := 256 / NumIntervalsOf(quant);
      1 <= bi <= 256 && bi * NumIntervalsOf(quant) == 256 && (bi == 1 || bi % 2 == 0)
  {
    if quant > 0 {
      var n, bi := Pow2(quant), Pow2(8 - quant);
      Pow2Split(quant, 8);
      Pow2Eight();
      assert NumIntervalsOf(quant) == n;
      DivUnique(256, n, bi, 0);
      assert 256 / n == bi;
      Pow2Monotone(8 - quant, 8);
      if quant < 8 {
        var half := Pow2(8 - quant - 1);
        assert bi == 2 * half;
        assert bi % 2 == 0;
      }
    }
  }

  /** `2^total` split at `a`, in the order the bucket arithmetic uses. */
  lemma Pow2Split(a: nat, total: nat)
    requires a <= total
    ensures Pow2(total) == Pow2(total - a) * Pow2(a)
  {
    Pow2Add(total - a, a);
  }

  lemma Pow2Eight()
    ensures Pow2(8) == 256
  {}

  /** 2^30, the largest power of two an `int` holds. */
  lemma Pow2Thirty()
    ensures Pow2(30) == 0x4000_0000
  {
    assert Pow2(10) == 1024;
    Pow2Add(10, 10);
    Pow2Add(20, 10);
  }

  /** The doubling loop of lines 216-218. An `int` holds it for `quant <= 30`. */
  method NumIntervals(quant: int) returns (numIntervals: int)
    requires quant <= 30
    ensures numIntervals == NumIntervalsOf(quant)
    ensures 1 <= numIntervals <= 0x4000_0000
  {
    numIntervals := 1;
    var i := 0;
    while i < quant
      invariant 0 <= i <= if quant > 0 then quant else 0
      invariant numIntervals == Pow2(i)
    {
      numIntervals := numIntervals * 2;
      i := i + 1;
    }
    if quant > 0 {
      assert i == quant;
      Pow2Monotone(quant, 30);
      Pow2Thirty();
    } else {
      assert i == 0;
    }
  }

  /** The uniform quantizer with bucket width `bi`. The result less `bi / 2`
      is the multiple of `bi` at or below `v`: `v` lies in the bucket the
      result is the midpoint of. */
  function UniformQuant(v: int, bi: int): (q: int)
    requires bi >= 1
    ensures (q - bi / 2) % bi == 0
    ensures q - bi / 2 <= v < q - bi / 2 + bi
  {
    var j := v / bi;
    DivUnique(j * bi, bi, j, 0);
    j * bi + bi / 2
  }

  /** A byte falls in one of the `numIntervals` buckets. */
  lemma BucketOfByte(v: int, quant: int)
    requires 0 <= v <= 255 && quant <= 8
    ensures 0 <= v / BitIntervalsOf(quant) < NumIntervalsOf(quant)
  {
    QuotientBelow(v, BitIntervalsOf(quant), NumIntervalsOf(quant));
  }

  /** With at most 8 bits, every quantized byte is a byte. */
  lemma UniformQuantInRange(v: int, quant: int)
    requires 0 <= v <= 255 && quant <= 8
    ensures 0 <= UniformQuant(v, BitIntervalsOf(quant)) <= 255
  {
    var bi, n := BitIntervalsOf(quant), NumIntervalsOf(quant);
    BucketOfByte(v, quant);
    MulMonotone(v / bi, n - 1, bi);
    MulPredecessor(n, bi);
  }

  /** The uniform quantizer never reverses the order of two samples. */
  lemma UniformQuantMonotone(v1: int, v2: int, bi: int)
    requires bi >= 1 && v1 <= v2
    ensures UniformQuant(v1, bi) <= UniformQuant(v2, bi)
  {
    DivMonotone(v1, v2, bi);
    MulMonotone(v1 / bi, v2 / bi, bi);
  }

  /** Quantizing a quantized value changes nothing. */
  lemma UniformQuantIdempotent(v: int, bi: int)
    requires bi >= 1
    ensures UniformQuant(UniformQuant(v, bi), bi) == UniformQuant(v, bi)
  {
    var j := v / bi;
    DivUnique(j * bi + bi / 2, bi, j, bi / 2);
  }

  /** The first `count` bucket midpoints `j * bi + bi / 2`. */
  function LevelSet(count: nat, bi: int): (levels: set<int>)
    ensures |levels| <= count
  {
    if count == 0 then {} else LevelSet(count - 1, bi) + {(count - 1) * bi + bi / 2}
  }

  lemma {:induction false} InLevelSet(j: int, count: nat, bi: int)
    requires 0 <= j < count
    ensures j * bi + bi / 2 in LevelSet(count, bi)
    decreases count
  {
    if j < count - 1 {
      InLevelSet(j, count - 1, bi);
    }
  }

  /** The levels a uniform quantizer with `quant` bits can produce. */
  function UniformLevels(quant: int): (levels: set<int>)
    ensures |levels| <= NumIntervalsOf(quant)
  {
    LevelSet(NumIntervalsOf(quant), BitIntervalsOf(quant))
  }

  /** Every quantized byte is one of the `numIntervals` levels. */
  lemma UniformQuantIsLevel(v: int, quant: int)
    requires 0 <= v <= 255 && quant <= 8
    ensures UniformQuant(v, BitIntervalsOf(quant)) in UniformLevels(quant)
  {
    var bi, n := BitIntervalsOf(quant), NumIntervalsOf(quant);
    BucketOfByte(v, quant);
    InLevelSet(v / bi, n, bi);
    UniformQuantIsMidpoint(v, bi);
    assert UniformLevels(quant) == LevelSet(n, bi);
  }

  lemma UniformQuantIsMidpoint(v: int, bi: int)
    requires bi >= 1
    ensures UniformQuant(v, bi) == v / bi * bi + bi / 2
  {}

  lemma SubsetCard(a: set<int>, b: set<int>)
    requires a <= b
    ensures |a| <= |b|
  {
    assert b == a + (b - a);
    assert a * (b - a) == {};
  }

  /** However many bytes are quantized, at most `numIntervals` distinct values come out. */
  lemma UniformDistinctValues(vs: set<int>, quant: int)
    requires quant <= 8
    requires forall v :: v in vs ==> 0 <= v <= 255
    ensures |set v | v in vs :: UniformQuant(v, BitIntervalsOf(quant))| <= NumIntervalsOf(quant)
  {
    var image := set v | v in vs :: UniformQuant(v, BitIntervalsOf(quant));
    forall q | q in image
      ensures q in UniformLevels(quant)
    {
      var v :| v in vs && q == UniformQuant(v, BitIntervalsOf(quant));
      UniformQuantIsLevel(v, quant);
    }
    SubsetCard(image, UniformLevels(quant));
  }

  /** With 8 bits the buckets have width 1 and the quantizer is the identity. */
  lemma FullDepthIsIdentity(v: int)
    ensures BitIntervalsOf(8) == 1
    ensures UniformQuant(v, BitIntervalsOf(8)) == v
  {
    assert Pow2(8) == 256;
  }

  /** With 1 bit every byte goes to 64 or to 192. */
  lemma OneBitLevels(v: int)
    requires 0 <= v <= 255
    ensures BitIntervalsOf(1) == 128
    ensures UniformQuant(v, BitIntervalsOf(1)) in {64, 192}
  {
    assert Pow2(1) == 2;
  }

  /** The floating-point interior of `logQuant` (lines 147-157), from value,
      pivot and `numIntervals` to the unclamped `quantizedValue`. */
  type LogInterior = (int, int, int) -> int

  /** `max(0, min(x, 255))`. */
  function Clamp(x: int): (r: Byte)
    ensures 0 <= x <= 255 <==> r == x
    ensures x < 0 ==> r == 0
    ensures x > 255 ==> r == 255
  {
    if x < 0 then 0 else if x > 255 then 255 else x
  }

  /** `logQuant`: the pivot itself is returned unchanged, anything else is the
      interior's value clamped to a byte. */
  function LogQuant(value: int, pivot: int, numIntervals: int, interior: LogInterior): (r: int)
    ensures value == pivot ==> r == pivot
    ensures value != pivot ==> 0 <= r <= 255
  {
    if value == pivot then pivot else Clamp(interior(value, pivot, numIntervals))
  }

  /** On a byte, `logQuant` returns a byte, whatever its interior computes and
      whatever the pivot is. */
  lemma LogQuantInRange(value: int, pivot: int, numIntervals: int, interior: LogInterior)
    requires 0 <= value <= 255
    ensures 0 <= LogQuant(value, pivot, numIntervals, interior) <= 255
  {}
}
