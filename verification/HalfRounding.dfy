/**
 * Rounding a binary64 value once to a 16-bit float format with `m` mantissa bits and exponent bias `b`.
 *
 * Magnitudes are integers in units of 2^-1074, the least positive binary64 value, so every comparison is exact.
 */
module HalfRounding {
  import opened Arithmetic

  const SIGN_BIT: nat := 0x8000
  const FRACTION: nat := 0x10_0000_0000_0000  // 2^52

  /** The two formats: binary16 is `(10, 15)` and bfloat16 is `(7, 127)`. */
  ghost predicate HalfFormat(m: nat, b: nat) {
    1 <= m <= 50 && 1 <= b && b + m <= 1000 && (2 * b + 2) * Pow2(m) == SIGN_BIT
  }

  lemma KnownFormats()
    ensures HalfFormat(10, 15) && HalfFormat(7, 127)
  {
    assert Pow2(7) == 128 by {
      assert Pow2(3) == 8;
      assert Pow2(5) == 32;
    }
    assert Pow2(9) == 512;
    assert Pow2(10) == 1024;
  }

  function SignOf(bits: nat): nat {
    bits / (2048 * FRACTION)
  }

  function EncodedExponent(bits: nat): nat {
    (bits / FRACTION) % 2048
  }

  function FractionOf(bits: nat): nat {
    bits % FRACTION
  }

  function Infinity(m: nat, b: nat): nat {
    (2 * b + 1) * Pow2(m)
  }

  /** `f64_to_half_bits`, shifts and masks written as division and remainder by powers of two. */
  function F64ToHalfBits(bits: nat, m: nat, b: nat): int
    requires m >= 1 && m <= 50
  {
    var sign := SignOf(bits) * SIGN_BIT;
    var fraction := FractionOf(bits);
    if EncodedExponent(bits) == 0x7ff then
      sign + Infinity(m, b) + (if fraction == 0 then 0 else Pow2(m - 1))
    else
      sign + RoundedMagnitude(EncodedExponent(bits), fraction, m, b)
  }

  /** How far right the significand moves; subnormal targets move further. */
  function ShiftOf(exponent: int, m: nat, b: nat): int {
    52 - m + (if 1 - b - exponent > 0 then 1 - b - exponent else 0)
  }

  function RoundedMagnitude(encodedExponent: nat, fraction: nat, m: nat, b: nat): int
    requires 1 <= m <= 50
  {
    var exponent := encodedExponent - 1023;
    var minimumNormal := 1 - b;
    if exponent < minimumNormal - m - 1 then 0
    else if exponent > b then Infinity(m, b)
    else
      var rounded := Rounded(fraction + FRACTION, ShiftOf(exponent, m, b));
      if exponent < minimumNormal then rounded else (exponent + b) * Pow2(m) + (rounded - Pow2(m))
  }

  /** `significand / 2^shift`, to nearest, ties to even. */
  function Rounded(significand: nat, shift: nat): nat
    requires shift >= 1
  {
    var retained := Quotient(significand, Pow2(shift));
    var remainder := Remainder(significand, Pow2(shift));
    var midpoint := Pow2(shift - 1);
    retained + if remainder > midpoint || (remainder == midpoint && retained % 2 != 0) then 1 else 0
  }

  // ----- Values

  /** The magnitude of a finite binary64 value, in units of 2^-1074. */
  function F64Magnitude(encodedExponent: nat, fraction: nat): nat {
    if encodedExponent == 0 then fraction else Times(FRACTION + fraction, Pow2(encodedExponent - 1))
  }

  /** The magnitude of target code `t` in units of its least subnormal; the code of infinity stands for the next binade. */
  function CodeMagnitude(t: nat, m: nat): nat {
    var e, f := Quotient(t, Pow2(m)), Remainder(t, Pow2(m));
    if e == 0 then f else Times(Pow2(m) + f, Pow2(e - 1))
  }

  /** The same in units of 2^-1074. */
  function HalfMagnitude(t: nat, m: nat, b: nat): nat
    requires b + m <= 1000
  {
    Times(CodeMagnitude(t, m), Pow2(1075 - b - m))
  }

  function Distance(a: nat, b: nat): nat {
    if a < b then b - a else a - b
  }

  /** No representable magnitude is nearer, and a tie means the code is even. */
  ghost predicate NearestEven(magnitude: nat, t: nat, m: nat, b: nat)
    requires b + m <= 1000
  {
    && t <= Infinity(m, b)
    && forall u: nat :: u <= Infinity(m, b) ==>
         && Distance(magnitude, HalfMagnitude(t, m, b)) <= Distance(magnitude, HalfMagnitude(u, m, b))
         && (u != t && Distance(magnitude, HalfMagnitude(t, m, b)) == Distance(magnitude, HalfMagnitude(u, m, b)) ==> t % 2 == 0)
  }

  // ----- Codes are ordered as their values

  /** The magnitude of the code with exponent field `e` and fraction field `f`. */
  lemma CodeOf(t: nat, e: nat, f: nat, m: nat)
    requires f < Pow2(m) && t == Pow2(m) * e + f
    ensures CodeMagnitude(t, m) == if e == 0 then f else Times(Pow2(m) + f, Pow2(e - 1))
    ensures Quotient(t, Pow2(m)) == e
  {
    QuotientOnce(t, Pow2(m), e, f);
  }

  lemma OneMore(x: nat, y: nat)
    ensures Times(x + 1, y) == Times(x, y) + y
  {
  }

  lemma DoubleCarry(p: nat, f: nat, q: nat)
    requires f + 1 == p
    ensures Times(p, 2 * q) == Times(p + f, q) + q
  {
    assert p * (2 * q) == (2 * p) * q == (p + f + 1) * q;
    OneMore(p + f, q);
  }

  /** The next code is one spacing further, across binades too. */
  lemma CodeStep(t: nat, m: nat)
    ensures var e := Quotient(t, Pow2(m));
            CodeMagnitude(t + 1, m) == CodeMagnitude(t, m) + Pow2(if e == 0 then 0 else e - 1)
  {
    var p := Pow2(m);
    var e, f := Quotient(t, p), Remainder(t, p);
    assert t == p * e + f;
    if f + 1 < p {
      CodeOf(t + 1, e, f + 1, m);
      if e > 0 {
        OneMore(p + f, Pow2(e - 1));
      }
    } else {
      assert p * (e + 1) == p * e + p;
      CodeOf(t + 1, e + 1, 0, m);
      if e > 0 {
        DoubleCarry(p, f, Pow2(e - 1));
      }
    }
  }

  lemma {:induction false} CodesIncrease(t: nat, u: nat, m: nat)
    requires t <= u
    ensures CodeMagnitude(t, m) + (u - t) <= CodeMagnitude(u, m)
    decreases u - t
  {
    if t < u {
      CodesIncrease(t, u - 1, m);
      CodeStep(u - 1, m);
    }
  }

  // ----- Rounding between two neighbouring codes

  lemma ScaleOrder(a: nat, b: nat, k: nat)
    requires a <= b && k > 0
    ensures Times(a, k) <= Times(b, k) && (a < b ==> Times(a, k) < Times(b, k))
  {
    MulMonotone(k, a, b);
    if a < b {
      MulMonotone(k, a + 1, b);
      OneMore(a, k);
    }
  }

  lemma HalfMagnitudesIncrease(t: nat, u: nat, m: nat, b: nat)
    requires b + m <= 1000 && t < u
    ensures HalfMagnitude(t, m, b) < HalfMagnitude(u, m, b)
  {
    CodesIncrease(t, u, m);
    ScaleOrder(CodeMagnitude(t, m), CodeMagnitude(u, m), Pow2(1075 - b - m));
  }

  /** Between consecutive codes, the nearer one, or the even one at the midpoint, is nearest even among all codes. */
  lemma BetweenNeighbours(magnitude: nat, low: nat, t: nat, m: nat, b: nat)
    requires b + m <= 1000 && low + 1 <= Infinity(m, b)
    requires HalfMagnitude(low, m, b) <= magnitude < HalfMagnitude(low + 1, m, b)
    requires var (down, up) := (magnitude - HalfMagnitude(low, m, b), HalfMagnitude(low + 1, m, b) - magnitude);
             t == if up < down || (up == down && low % 2 != 0) then low + 1 else low
    ensures NearestEven(magnitude, t, m, b)
  {
    forall u: nat | u <= Infinity(m, b)
      ensures Distance(magnitude, HalfMagnitude(t, m, b)) <= Distance(magnitude, HalfMagnitude(u, m, b))
      ensures u != t && Distance(magnitude, HalfMagnitude(t, m, b)) == Distance(magnitude, HalfMagnitude(u, m, b)) ==> t % 2 == 0
    {
      BetweenOne(magnitude, low, t, u, m, b);
    }
  }

  lemma BetweenOne(magnitude: nat, low: nat, t: nat, u: nat, m: nat, b: nat)
    requires b + m <= 1000
    requires HalfMagnitude(low, m, b) <= magnitude < HalfMagnitude(low + 1, m, b)
    requires var (down, up) := (magnitude - HalfMagnitude(low, m, b), HalfMagnitude(low + 1, m, b) - magnitude);
             t == if up < down || (up == down && low % 2 != 0) then low + 1 else low
    ensures Distance(magnitude, HalfMagnitude(t, m, b)) <= Distance(magnitude, HalfMagnitude(u, m, b))
    ensures u != t && Distance(magnitude, HalfMagnitude(t, m, b)) == Distance(magnitude, HalfMagnitude(u, m, b)) ==> t % 2 == 0
  {
    var l, h, x := HalfMagnitude(low, m, b), HalfMagnitude(low + 1, m, b), HalfMagnitude(u, m, b);
    assert u < low ==> x < l by {
      if u < low { HalfMagnitudesIncrease(u, low, m, b); }
    }
    assert u > low + 1 ==> x > h by {
      if u > low + 1 { HalfMagnitudesIncrease(low + 1, u, m, b); }
    }
    NearerEnd(magnitude, l, h, x, low % 2 != 0, u - low);
  }

  /** The nearer end of an interval, or the even one, against the point `position` codes above the low end. */
  lemma NearerEnd(v: nat, l: nat, h: nat, x: nat, lowIsOdd: bool, position: int)
    requires l <= v < h
    requires (position < 0 ==> x < l) && (position == 0 ==> x == l) && (position == 1 ==> x == h) && (position > 1 ==> x > h)
    ensures var high := h - v < v - l || (h - v == v - l && lowIsOdd);
            var end := if high then h else l;
            && Distance(v, end) <= Distance(v, x)
            && (Distance(v, end) == Distance(v, x) && position != (if high then 1 else 0) ==> high == lowIsOdd)
  {
  }

  /** The least codes: zero, then one unit. */
  lemma LeastCodes(m: nat, b: nat)
    requires m >= 1 && b + m <= 1000
    ensures HalfMagnitude(0, m, b) == 0 && HalfMagnitude(1, m, b) == Pow2(1075 - b - m)
  {
    assert Pow2(m) == 2 * Pow2(m - 1);
    CodeOf(0, 0, 0, m);
    CodeOf(1, 0, 1, m);
  }

  /** Below half the least subnormal everything rounds to zero, gradually and with its sign. */
  lemma Underflow(encodedExponent: nat, fraction: nat, m: nat, b: nat)
    requires HalfFormat(m, b) && fraction < FRACTION
    requires encodedExponent - 1023 < 1 - b - m - 1
    ensures NearestEven(F64Magnitude(encodedExponent, fraction), 0, m, b)
  {
    LeastCodes(m, b);
    var k := 1075 - b - m;
    SmallMagnitude(encodedExponent, fraction, k - 1);
    assert Pow2(k) == 2 * Pow2(k - 1);
    assert Pow2(m) >= 1;
    assert Infinity(m, b) >= 1 by {
      MulMonotone(Pow2(m), 1, 2 * b + 1);
    }
    BetweenNeighbours(F64Magnitude(encodedExponent, fraction), 0, 0, m, b);
  }

  lemma FractionIsPower()
    ensures FRACTION == Pow2(52)
  {
    assert Pow2(8) == 256;
    Pow2Sum(8, 8);
    Pow2Sum(16, 16);
    Pow2Sum(32, 16);
    assert Pow2(4) == 16;
    Pow2Sum(48, 4);
  }

  /** A binary64 magnitude is below the next binade. */
  lemma SmallMagnitude(encodedExponent: nat, fraction: nat, k: nat)
    requires fraction < FRACTION && encodedExponent + 52 <= k
    ensures F64Magnitude(encodedExponent, fraction) < Pow2(k)
  {
    FractionIsPower();
    if encodedExponent == 0 {
      Pow2Monotone(52, k);
    } else {
      var p := Pow2(encodedExponent - 1);
      assert Pow2(53) == 2 * FRACTION;
      Pow2Sum(53, encodedExponent - 1);
      ScaleOrder(FRACTION + fraction, 2 * FRACTION, p);
      assert Pow2(53 + (encodedExponent - 1)) == Times(2 * FRACTION, p);
      Pow2Monotone(52 + encodedExponent, k);
    }
  }

  /** The code of infinity stands for the binade after the largest finite one. */
  lemma InfinityMagnitude(m: nat, b: nat)
    requires HalfFormat(m, b)
    ensures HalfMagnitude(Infinity(m, b), m, b) == Pow2(b + 1075)
  {
    assert Infinity(m, b) == Pow2(m) * (2 * b + 1) + 0;
    CodeOf(Infinity(m, b), 2 * b + 1, 0, m);
    Pow2Sum(m, 2 * b);
    Pow2Sum(m + 2 * b, 1075 - b - m);
  }

  /** At or beyond the next binade everything rounds to infinity. */
  lemma Overflow(encodedExponent: nat, fraction: nat, m: nat, b: nat)
    requires HalfFormat(m, b) && encodedExponent - 1023 > b
    ensures NearestEven(F64Magnitude(encodedExponent, fraction), Infinity(m, b), m, b)
  {
    FractionIsPower();
    InfinityMagnitude(m, b);
    Pow2Sum(52, encodedExponent - 1);
    ScaleOrder(FRACTION, FRACTION + fraction, Pow2(encodedExponent - 1));
    Pow2Monotone(b + 1075, 52 + (encodedExponent - 1));
    var magnitude := F64Magnitude(encodedExponent, fraction);
    assert HalfMagnitude(Infinity(m, b), m, b) <= magnitude;
    forall u: nat | u <= Infinity(m, b)
      ensures Distance(magnitude, HalfMagnitude(Infinity(m, b), m, b)) <= Distance(magnitude, HalfMagnitude(u, m, b))
      ensures u != Infinity(m, b) ==>
                Distance(magnitude, HalfMagnitude(Infinity(m, b), m, b)) != Distance(magnitude, HalfMagnitude(u, m, b))
    {
      if u < Infinity(m, b) {
        HalfMagnitudesIncrease(u, Infinity(m, b), m, b);
      }
    }
  }

  // ----- The rounding step

  /** The spacing of targets around a value, as a power of two in units of 2^-1074. */
  function SpacingExponent(encodedExponent: nat, m: nat, b: nat): int {
    encodedExponent - 1 + ShiftOf(encodedExponent - 1023, m, b)
  }

  /** The code that a rounded significand denotes. */
  function CodeFor(encodedExponent: nat, rounded: nat, m: nat, b: nat): int {
    if encodedExponent - 1023 < 1 - b then rounded
    else (encodedExponent - 1023 + b) * Pow2(m) + (rounded - Pow2(m))
  }

  /** Values the rounding step handles: neither underflowing nor overflowing outright. */
  ghost predicate InRange(encodedExponent: nat, m: nat, b: nat) {
    1 - b - m - 1 <= encodedExponent - 1023 <= b
  }

  /** Both candidates of the rounding step denote themselves times the spacing, a carry included. */
  lemma CodeForMagnitude(encodedExponent: nat, rounded: nat, m: nat, b: nat)
    requires HalfFormat(m, b) && InRange(encodedExponent, m, b)
    requires if encodedExponent - 1023 < 1 - b then rounded <= Pow2(m) else Pow2(m) <= rounded <= 2 * Pow2(m)
    ensures SpacingExponent(encodedExponent, m, b) >= 0
    ensures 0 <= CodeFor(encodedExponent, rounded, m, b) <= Infinity(m, b)
    ensures HalfMagnitude(CodeFor(encodedExponent, rounded, m, b), m, b)
            == Times(rounded, Pow2(SpacingExponent(encodedExponent, m, b)))
  {
    var exponent := encodedExponent - 1023;
    var k := 1075 - b - m;
    if exponent < 1 - b {
      assert SpacingExponent(encodedExponent, m, b) == k;
      SubnormalCode(rounded, m, b);
    } else {
      NormalCode(exponent + b, rounded, m, b);
      assert SpacingExponent(encodedExponent, m, b) == (exponent + b - 1) + k;
      Pow2Sum(exponent + b - 1, k);
      TimesAssociates(rounded, Pow2(exponent + b - 1), Pow2(k));
    }
  }

  /** A subnormal code is its own magnitude; a carry makes the least normal. */
  lemma SubnormalCode(rounded: nat, m: nat, b: nat)
    requires rounded <= Pow2(m)
    ensures rounded <= Infinity(m, b) && CodeMagnitude(rounded, m) == rounded
  {
    MulMonotone(Pow2(m), 1, 2 * b + 1);
    if rounded < Pow2(m) {
      CodeOf(rounded, 0, rounded, m);
    } else {
      CodeOf(rounded, 1, 0, m);
    }
  }

  lemma TimesAssociates(a: nat, b: nat, c: nat)
    ensures Times(Times(a, b), c) == Times(a, Times(b, c))
  {
  }

  /** A normal code with exponent field `e`; a carry moves it to the next binade. */
  lemma NormalCode(e: nat, rounded: nat, m: nat, b: nat)
    requires HalfFormat(m, b) && 1 <= e <= 2 * b && Pow2(m) <= rounded <= 2 * Pow2(m)
    ensures var t := e * Pow2(m) + (rounded - Pow2(m));
            0 <= t <= Infinity(m, b) && CodeMagnitude(t, m) == Times(rounded, Pow2(e - 1))
  {
    var p := Pow2(m);
    var t := e * p + (rounded - p);
    assert e * p == p * e && p * (e + 1) == p * e + p;
    MulMonotone(p, e + 1, 2 * b + 1);
    assert (2 * b + 1) * p == p * (2 * b + 1);
    if rounded < 2 * p {
      CodeOf(t, e, rounded - p, m);
    } else {
      CodeOf(t, e + 1, 0, m);
      CarryMagnitude(p, Pow2(e - 1));
    }
  }

  lemma CarryMagnitude(p: nat, q: nat)
    ensures Times(p, 2 * q) == Times(2 * p, q)
  {
  }

  /** The significand splits at the shift into a retained part and a remainder. */
  lemma SignificandSplits(encodedExponent: nat, fraction: nat, m: nat, b: nat)
    requires HalfFormat(m, b) && InRange(encodedExponent, m, b) && fraction < FRACTION
    ensures var shift := ShiftOf(encodedExponent - 1023, m, b);
            && 1 <= shift <= 53
            && var (retained, spacing) := (Quotient(fraction + FRACTION, Pow2(shift)), Pow2(encodedExponent - 1 + shift));
            && (if encodedExponent - 1023 < 1 - b then retained < Pow2(m) else Pow2(m) <= retained < 2 * Pow2(m))
            && F64Magnitude(encodedExponent, fraction)
               == Times(retained, spacing) + Times(Remainder(fraction + FRACTION, Pow2(shift)), Pow2(encodedExponent - 1))
            && spacing == Times(Pow2(shift), Pow2(encodedExponent - 1))
  {
    RetainedBounds(fraction + FRACTION, encodedExponent - 1023, m, b);
    var shift := ShiftOf(encodedExponent - 1023, m, b);
    Pow2Sum(shift, encodedExponent - 1);
    SplitAt(fraction + FRACTION, Pow2(shift), Pow2(encodedExponent - 1));
  }

  lemma SplitAt(s: nat, p: nat, unit: nat)
    requires p > 0
    ensures Times(s, unit) == Times(Quotient(s, p), Times(p, unit)) + Times(Remainder(s, p), unit)
  {
    assert s == p * Quotient(s, p) + Remainder(s, p);
    SplitValue(p, Quotient(s, p), Remainder(s, p), unit);
  }

  lemma SplitValue(p: nat, retained: nat, remainder: nat, unit: nat)
    ensures Times(p * retained + remainder, unit) == Times(retained, Times(p, unit)) + Times(remainder, unit)
  {
    assert (p * retained) * unit == retained * (p * unit);
  }

  lemma QuotientRange(s: nat, d: nat, low: nat, high: nat)
    requires d > 0 && d * low <= s < d * high
    ensures low <= Quotient(s, d) < high
  {
    var q := Quotient(s, d);
    assert s == d * q + Remainder(s, d);
    assert d * (q + 1) == d * q + d;
    if q >= high {
      MulMonotone(d, high, q);
    }
    if q + 1 <= low {
      MulMonotone(d, q + 1, low);
    }
  }

  lemma SubnormalRetained(s: nat, shift: nat, m: nat)
    requires s < 2 * FRACTION && shift + m >= 53
    ensures Quotient(s, Pow2(shift)) < Pow2(m)
  {
    FractionIsPower();
    assert Pow2(53) == 2 * Pow2(52);
    Pow2Monotone(53, shift + m);
    Pow2Sum(shift, m);
    QuotientRange(s, Pow2(shift), 0, Pow2(m));
  }

  lemma NormalRetained(s: nat, shift: nat, m: nat)
    requires FRACTION <= s < 2 * FRACTION && shift + m == 52
    ensures Pow2(m) <= Quotient(s, Pow2(shift)) < 2 * Pow2(m)
  {
    FractionIsPower();
    Pow2Sum(shift, m);
    QuotientBinade(s, Pow2(shift), Pow2(m), FRACTION);
  }

  lemma QuotientBinade(s: nat, d: nat, p: nat, whole: nat)
    requires d > 0 && d * p == whole && whole <= s < 2 * whole
    ensures p <= Quotient(s, d) < 2 * p
  {
    assert d * (2 * p) == 2 * (d * p);
    QuotientRange(s, d, p, 2 * p);
  }

  lemma RetainedBounds(s: nat, exponent: int, m: nat, b: nat)
    requires HalfFormat(m, b) && 1 - b - m - 1 <= exponent <= b && FRACTION <= s < 2 * FRACTION
    ensures var (shift, p) := (ShiftOf(exponent, m, b), Pow2(m));
            && 1 <= shift <= 53
            && (if exponent < 1 - b then Quotient(s, Pow2(shift)) < p else p <= Quotient(s, Pow2(shift)) < 2 * p)
  {
    var shift := ShiftOf(exponent, m, b);
    if exponent < 1 - b {
      SubnormalRetained(s, shift, m);
    } else {
      NormalRetained(s, shift, m);
    }
  }

  lemma ProductOfEvenIsEven(e: int, p: int, half: int)
    requires p == 2 * half
    ensures (e * p) % 2 == 0
  {
    assert e * (2 * half) == 2 * (e * half);
  }

  lemma SameParity(code: int, base: int, rounded: int, p: int)
    requires base % 2 == 0 && p % 2 == 0 && code == base + (rounded - p)
    ensures code % 2 == rounded % 2
  {
  }

  /** Codes of consecutive significands are consecutive, with the same parity as the significands. */
  lemma ConsecutiveCodes(encodedExponent: nat, retained: nat, m: nat, b: nat)
    requires m >= 1
    ensures CodeFor(encodedExponent, retained + 1, m, b) == CodeFor(encodedExponent, retained, m, b) + 1
    ensures CodeFor(encodedExponent, retained, m, b) % 2 == retained % 2
  {
    var e, p := encodedExponent - 1023 + b, Pow2(m);
    if encodedExponent - 1023 >= 1 - b {
      ProductOfEvenIsEven(e, p, Pow2(m - 1));
      SameParity(CodeFor(encodedExponent, retained, m, b), e * p, retained, p);
    }
  }

  /** Comparing the remainder with the midpoint compares the distances to the two candidates. */
  lemma MidpointDecides(remainder: nat, p: nat, half: nat, unit: nat)
    requires p == 2 * half && remainder < p && unit > 0
    ensures Times(remainder, unit) < Times(p, unit)
    ensures Times(p, unit) - Times(remainder, unit) < Times(remainder, unit) <==> remainder > half
    ensures Times(p, unit) - Times(remainder, unit) == Times(remainder, unit) <==> remainder == half
  {
    ScaleOrder(remainder, p, unit);
    assert Times(p, unit) - Times(remainder, unit) == Times(p - remainder, unit);
    if remainder > half {
      ScaleOrder(p - remainder, remainder, unit);
    } else {
      ScaleOrder(remainder, p - remainder, unit);
    }
  }

  /** The rounding step picks the nearest code, ties to even. */
  lemma InRangeRounds(encodedExponent: nat, fraction: nat, m: nat, b: nat)
    requires HalfFormat(m, b) && InRange(encodedExponent, m, b) && fraction < FRACTION
    ensures var t := RoundedMagnitude(encodedExponent, fraction, m, b);
            t >= 0 && NearestEven(F64Magnitude(encodedExponent, fraction), t, m, b)
  {
    SignificandSplits(encodedExponent, fraction, m, b);
    var shift := ShiftOf(encodedExponent - 1023, m, b);
    var (s, unit, p) := (fraction + FRACTION, Pow2(encodedExponent - 1), Pow2(shift));
    var (retained, remainder) := (Quotient(s, p), Remainder(s, p));
    var spacing := Pow2(encodedExponent - 1 + shift);
    CodeForMagnitude(encodedExponent, retained, m, b);
    CodeForMagnitude(encodedExponent, retained + 1, m, b);
    ConsecutiveCodes(encodedExponent, retained, m, b);
    OneMore(retained, spacing);
    MidpointDecides(remainder, p, Pow2(shift - 1), unit);
    var low := CodeFor(encodedExponent, retained, m, b);
    var t := RoundedMagnitude(encodedExponent, fraction, m, b);
    assert t == CodeFor(encodedExponent, Rounded(s, shift), m, b);
    BetweenNeighbours(F64Magnitude(encodedExponent, fraction), low, t, m, b);
  }

  // ----- The conversion

  /** The target's parts: sign, and the code of the magnitude. */
  ghost predicate Encodes(r: int, sign: nat, code: nat) {
    r == sign * SIGN_BIT + code && code < SIGN_BIT
  }

  lemma InfinityIsACode(m: nat, b: nat)
    requires HalfFormat(m, b)
    ensures Infinity(m, b) + Pow2(m) == SIGN_BIT && Quotient(Infinity(m, b), Pow2(m)) == 2 * b + 1
  {
    var p := Pow2(m);
    assert (2 * b + 2) * p == (2 * b + 1) * p + p;
    assert Infinity(m, b) == p * (2 * b + 1) + 0;
    CodeOf(Infinity(m, b), 2 * b + 1, 0, m);
  }

  /**
   * Every finite binary64 value is rounded once, to nearest with ties to even, to a 16-bit code with its own sign;
   * underflow is gradual and overflow gives infinity.
   */
  lemma CorrectlyRounded(bits: nat, m: nat, b: nat)
    requires HalfFormat(m, b) && SignOf(bits) <= 1 && EncodedExponent(bits) != 0x7ff
    ensures var code := RoundedMagnitude(EncodedExponent(bits), FractionOf(bits), m, b);
            && code >= 0 && Encodes(F64ToHalfBits(bits, m, b), SignOf(bits), code)
            && NearestEven(F64Magnitude(EncodedExponent(bits), FractionOf(bits)), code, m, b)
  {
    var e, f := EncodedExponent(bits), FractionOf(bits);
    InfinityIsACode(m, b);
    if e - 1023 < 1 - b - m - 1 {
      Underflow(e, f, m, b);
    } else if e - 1023 > b {
      Overflow(e, f, m, b);
    } else {
      InRangeRounds(e, f, m, b);
    }
  }

  /** Infinities stay infinities with their sign, and NaNs stay quiet NaNs. */
  lemma SpecialsKept(bits: nat, m: nat, b: nat)
    requires HalfFormat(m, b) && SignOf(bits) <= 1 && EncodedExponent(bits) == 0x7ff
    ensures var code := F64ToHalfBits(bits, m, b) - SignOf(bits) * SIGN_BIT;
            && code >= 0 && Encodes(F64ToHalfBits(bits, m, b), SignOf(bits), code)
            && Quotient(code, Pow2(m)) == 2 * b + 1
            && (Remainder(code, Pow2(m)) == 0 <==> FractionOf(bits) == 0)
            && (FractionOf(bits) != 0 ==> Remainder(code, Pow2(m)) >= Pow2(m - 1))
  {
    InfinityIsACode(m, b);
    var (p, half) := (Pow2(m), Pow2(m - 1));
    assert p == 2 * half;
    var payload := if FractionOf(bits) == 0 then 0 else half;
    assert Infinity(m, b) + payload == p * (2 * b + 1) + payload;
    QuotientOnce(Infinity(m, b) + payload, p, 2 * b + 1, payload);
  }
}
