/**
 * The machine-level conventions of `readImageData` that the rest of the model
 * makes explicit: bytes, the reading of a byte through a signed `char`, the
 * C++ division of a possibly negative `long`, and a few divisibility facts.
 */
module Bytes {

  /** An `unsigned char`: one byte of the raw file or of an output buffer. */
  type Byte = x: int | 0 <= x < 256

  /** Largest value of a 32-bit `int`. */
  const IntMax: int := 0x7fff_ffff

  /** The value a byte has when it is read through a plain `char`, on a platform
      where `char` is signed and two's complement (x86-64). */
  function SignedChar(b: Byte): (v: int)
    ensures -128 <= v <= 127
    ensures v % 256 == b
    ensures b < 128 <==> v == b
  {
    if b < 128 then b else b - 256
  }

  /** C++ division of `a` by a positive `d`: the quotient is truncated toward
      zero, so the remainder takes the sign of `a` (Dafny's `/` is Euclidean). */
  function TruncDiv(a: int, d: int): (q: int)
    requires d > 0
    ensures a >= 0 ==> 0 <= a - q * d < d
    ensures a < 0 ==> -d < a - q * d <= 0
  {
    if a >= 0 then a / d else -((-a) / d)
  }

  lemma MulAtLeast(x: int, d: int)
    requires x >= 1 && d > 0
    ensures x * d >= d
  {}

  lemma MulMonotone(a: int, b: int, d: int)
    requires a <= b && d >= 0
    ensures a * d <= b * d
  {}

  lemma MulPredecessor(n: int, b: int)
    ensures (n - 1) * b == b * n - b
  {}

  lemma MulSuccessor(s: int, m: int)
    ensures s * (m + 1) == s * m + s
  {}

  /** A quotient below `n` follows from a dividend below `n * d`. */
  lemma QuotientBelow(a: int, d: int, n: int)
    requires d > 0 && 0 <= a < n * d
    ensures a / d < n
  {
    assert a / d * d <= a;
    if a / d >= n {
      MulMonotone(n, a / d, d);
    }
  }

  /** Division by a positive divisor preserves order. */
  lemma DivMonotone(a: int, b: int, d: int)
    requires a <= b && d > 0
    ensures a / d <= b / d
  {
    var p, q := a / d, b / d;
    assert p * d <= a && b < q * d + d;
    if p > q {
      MulMonotone(q + 1, p, d);
    }
  }

  /** Euclidean division is determined by quotient and remainder. */
  lemma DivUnique(a: int, d: int, j: int, r: int)
    requires d > 0 && a == j * d + r && 0 <= r < d
    ensures a / d == j && a % d == r
  {
    var q, m := a / d, a % d;
    assert a == q * d + m;
    assert (j - q) * d == m - r;
    if j - q >= 1 {
      MulAtLeast(j - q, d);
    } else if q - j >= 1 {
      MulAtLeast(q - j, d);
    }
  }

  /** An upper bound on the dividend bounds the quotient. */
  lemma DivAtMost(a: int, d: int, c: int)
    requires d > 0 && a <= c * d
    ensures a / d <= c
  {
    var q := a / d;
    assert a == q * d + a % d;
    if q > c {
      MulAtLeast(q - c, d);
    }
  }

  /** Two quotients by `k`, multiplied, do not exceed the product's quotient by `k * k`. */
  lemma FloorsFitQuotient(w: int, h: int, k: int, a: int, b: int)
    requires k >= 1 && 0 <= a && a * k <= w && 0 <= b && b * k <= h
    ensures a * b <= (w * h) / (k * k)
  {
    MulMonotone(a * k, w, b * k);
    MulMonotone(b * k, h, w);
    assert (a * b) * (k * k) == (a * k) * (b * k);
    MulMonotone(0, a, b);
    DivAtLeast(w * h, k * k, a * b);
  }

  /** A lower bound on a non-negative dividend bounds the quotient. */
  lemma DivAtLeast(a: int, d: int, c: int)
    requires d > 0 && c >= 0 && a >= c * d
    ensures a / d >= c
  {
    var q := a / d;
    assert a == q * d + a % d;
    if q < c {
      MulAtLeast(c - q, d);
    }
  }
}
