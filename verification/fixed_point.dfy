/** Integer helpers shared by both copies of the fuzzy reference model:
    Q1.15 saturation, signed 8-bit clamping, percent-to-Q1.15 conversion,
    a rounded Q1.15 multiply, and the bit-width emulation (`sxt`) that the
    estimator uses to reproduce fixed-width hardware buses. */
module FixedPoint {

  /** Largest value of the unsigned Q1.15 format. */
  const Q15Max: int := 32767

  function Min(x: int, y: int): int { if x <= y then x else y }
  function Max(x: int, y: int): int { if x >= y then x else y }

  /** 2^n; Python's `1 << n`. */
  function Pow2(n: nat): (r: int)
    ensures r >= 1
  {
    if n == 0 then 1 else 2 * Pow2(n - 1)
  }

  lemma Pow2Values()
    ensures Pow2(7) == 128 && Pow2(8) == 256 && Pow2(9) == 512
    ensures Pow2(15) == 32768 && Pow2(16) == 65536
    ensures Pow2(23) == 8388608 && Pow2(24) == 16777216
    ensures Pow2(31) == 2147483648 && Pow2(32) == 4294967296
  {
  }

  /** Saturation to [0, Q15Max]: values in range pass unchanged, others go to the nearer bound. */
  function SatQ15(x: int): (r: int)
    ensures 0 <= r <= Q15Max
    ensures r == x <==> 0 <= x <= Q15Max
    ensures x < 0 ==> r == 0
    ensures x > Q15Max ==> r == Q15Max
  {
    if x < 0 then 0 else if x > Q15Max then Q15Max else x
  }

  /** Clamp to the signed 8-bit range [-128, 127]. */
  function ClampS8(x: int): (r: int)
    ensures -128 <= r <= 127
    ensures r == x <==> -128 <= x <= 127
    ensures x < -128 ==> r == -128
    ensures x > 127 ==> r == 127
  {
    if x < -128 then -128 else if x > 127 then 127 else x
  }

  /** Clip x to [lo, hi]: values in range pass unchanged, others go to the nearer bound;
      lo wins when the range is empty. */
  function ClipToRange(x: int, lo: int, hi: int): (r: int)
    ensures lo <= hi ==> lo <= r <= hi
    ensures lo <= x <= hi ==> r == x
    ensures x < lo ==> r == lo
    ensures lo <= x && x > hi ==> r == hi
  {
    if x < lo then lo else if x > hi then hi else x
  }

  /** Percent to Q1.15, rounding half up before the division by 100, then saturating. */
  function G2Q15Percent(gpct: int): (r: int)
    ensures 0 <= r <= Q15Max
    ensures 0 <= gpct <= 100 ==> 100 * r <= gpct * Q15Max + 50 < 100 * r + 100
    ensures gpct <= 0 ==> r == 0
    ensures gpct >= 100 ==> r == Q15Max
  {
    SatQ15((gpct * Q15Max + 50) / 100)
  }

  /** Q1.15 product with +0.5 LSB rounding before the shift by 15, saturated. For two
      Q1.15 fractions the result is the product rounded to nearest and never exceeds
      either factor. */
  function MulQ15Round(aQ15: int, bQ15: int): (r: int)
    ensures 0 <= r <= Q15Max
    ensures 0 <= aQ15 <= Q15Max && 0 <= bQ15 <= Q15Max ==>
              32768 * r <= aQ15 * bQ15 + 16384 < 32768 * r + 32768 && r <= aQ15 && r <= bQ15
  {
    var mul := aQ15 * bQ15 + 16384;
    if 0 <= aQ15 <= Q15Max && 0 <= bQ15 <= Q15Max then
      MulBelowFactor(aQ15, bQ15);
      MulBelowFactor(bQ15, aQ15);
      SatQ15(mul / 32768)
    else
      SatQ15(mul / 32768)
  }

  lemma MulBelowFactor(a: int, b: int)
    requires 0 <= a <= Q15Max && 0 <= b <= Q15Max
    ensures 0 <= (a * b + 16384) / 32768 <= a
  {
    assert a * b <= a * Q15Max by { MulLeft(a, b, Q15Max); }
  }

  lemma MulLeft(k: int, x: int, y: int)
    requires k >= 0 && x <= y
    ensures k * x <= k * y
  {
  }

  /** Python's `v & ((1 << bits) - 1)`: the low `bits` bits as an unsigned value, that is
      the unique value in [0, 2^bits) congruent to v modulo 2^bits. */
  function Mask(v: int, bits: nat): (r: int)
    ensures 0 <= r < Pow2(bits)
    ensures (v - r) % Pow2(bits) == 0
    ensures 0 <= v < Pow2(bits) ==> r == v
  {
    var m := Pow2(bits);
    ModBounds(v, m);
    DivMod(v, m);
    v % m
  }

  /** Two's-complement reading of the low `bits` bits of v (the source's `sxt`):
      the unique value in [-2^(bits-1), 2^(bits-1)) congruent to v modulo 2^bits.
      The source computes `(u ^ h) - h` with `u` the masked value and `h` the sign
      bit, which equals `u - 2^bits` when the sign bit is set and `u` otherwise. */
  function Sxt(v: int, bits: nat): (r: int)
    requires bits >= 1
    ensures -Pow2(bits - 1) <= r < Pow2(bits - 1)
    ensures (v - r) % Pow2(bits) == 0
    ensures -Pow2(bits - 1) <= v < Pow2(bits - 1) ==> r == v
  {
    var m := Pow2(bits);
    var h := Pow2(bits - 1);
    var u := Mask(v, bits);
    SxtFacts(v, m, h);
    if u >= h then u - m else u
  }

  lemma SxtFacts(v: int, m: int, h: int)
    requires h >= 1 && m == 2 * h
    ensures var u := v % m; var r := if u >= h then u - m else u;
              -h <= r < h && (v - r) % m == 0 && (-h <= v < h ==> r == v)
  {
    var u := v % m;
    DivMod(v, m);
    if -h <= v < 0 {
      ModShift(v, m);
    } else if 0 <= v < h {
      ModBounds(v, m);
    }
  }

  lemma ModBounds(v: int, m: int)
    requires m > 0
    ensures 0 <= v % m < m
    ensures 0 <= v < m ==> v % m == v
  {
  }

  lemma ModShift(v: int, m: int)
    requires m > 0 && -m <= v < 0
    ensures v % m == v + m
  {
    ModUnique(v, m, -1, v + m);
  }

  /** Euclidean division is unique: any decomposition v == m*q + r with 0 <= r < m is it. */
  lemma ModUnique(v: int, m: int, q: int, r: int)
    requires m > 0 && 0 <= r < m && v == m * q + r
    ensures v / m == q && v % m == r
  {
    var q0 := v / m;
    var r0 := v % m;
    assert v == m * q0 + r0;
    var d := q - q0;
    assert m * q - m * q0 == m * d;
    if d >= 1 {
      MulLeft(m, 1, d);
    } else if d <= -1 {
      MulLeft(m, d, -1);
    }
  }

  lemma MulMod(m: int, q: int)
    requires m > 0
    ensures (m * q) % m == 0
  {
    ModUnique(m * q, m, q, 0);
  }

  lemma DivMod(v: int, m: int)
    requires m > 0
    ensures v == m * (v / m) + v % m
    ensures (v - v % m) % m == 0
    ensures (v - (v % m - m)) % m == 0
  {
    var q := v / m;
    var r := v % m;
    assert v - r == m * q;
    MulMod(m, q);
    assert v - (r - m) == m * (q + 1);
    MulMod(m, q + 1);
  }

  /** Congruences modulo m add up. */
  lemma ModAdd(a: int, b: int, m: int)
    requires m > 0 && a % m == 0 && b % m == 0
    ensures (a + b) % m == 0
  {
    DivMod(a, m);
    DivMod(b, m);
    assert a + b == m * (a / m + b / m);
    MulMod(m, a / m + b / m);
  }
}
