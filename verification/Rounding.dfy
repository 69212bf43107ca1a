/** Rounding to integral values in the four directions of IEEE 754: `rint` and its relatives, for
    both formats. Bit masks and shifts are written as remainders and quotients by powers of two. */
module Rounding {
  import opened Binary
  import opened Doubles

  datatype Mode = ToNearest | Downward | Upward | TowardZero

  // ----- What the standard prescribes

  /** The integer that v / one is rounded to; v may be negative. */
  function Integral(v: int, one: int, mode: Mode): int
    requires 0 < one
  {
    var n, r := v / one, v % one;
    if r == 0 then n
    else match mode
      case Downward => n
      case Upward => n + 1
      case TowardZero => if v < 0 then n + 1 else n
      case ToNearest => if 2 * r < one || (2 * r == one && n % 2 == 0) then n else n + 1
  }

  /** The prescription, by what it is nearest to or bounded by. */
  lemma IntegralMeans(v: int, one: int, mode: Mode)
    requires 0 < one
    ensures var n := Integral(v, one, mode);
      && (mode == Downward ==> n * one <= v < n * one + one)
      && (mode == Upward ==> n * one - one < v <= n * one)
      && (mode == TowardZero ==> if 0 <= v then n * one <= v < n * one + one else n * one - one < v <= n * one)
      && (mode == ToNearest ==> -one <= 2 * (v - n * one) <= one)
      && (mode == ToNearest && (2 * (v - n * one) == one || 2 * (v - n * one) == -one) ==> n % 2 == 0)
  {
    var n := v / one;
    DivMod(v, one);
    Distribute(n, 1, one);
  }

  /** Whether a magnitude with quotient q and remainder r is rounded up, away from zero. */
  predicate RoundsUp(q: int, r: int, one: int, mode: Mode, negative: bool) {
    r != 0 &&
    match mode
    case Downward => negative
    case Upward => !negative
    case TowardZero => false
    case ToNearest => one < 2 * r || (2 * r == one && q % 2 != 0)
  }

  /** Rounding the magnitude with the sign in mind is rounding the signed value. */
  lemma MagnitudeRounding(v: int, one: int, q: int, r: int, mode: Mode, negative: bool)
    requires 0 <= v == q * one + r && 0 <= r < one
    ensures Integral(Sign(negative, v), one, mode) == Sign(negative, if RoundsUp(q, r, one, mode, negative) then q + 1 else q)
  {
    if !negative {
      Quotient(v, one, q, r);
    } else if r == 0 {
      Distribute(0, q, one);
      Quotient(-v, one, -q, 0);
    } else {
      Distribute(0, q + 1, one);
      Distribute(q, 1, one);
      Quotient(-v, one, -q - 1, one - r);
    }
  }

  // ----- Magnitudes below one

  lemma SmallPowers()
    ensures Pow2(2) == 4 && Pow2(3) == 8 && Pow2(10) == 0x400 && Pow2(20) == 0x10_0000
  {
    assert Pow2(5) == 32 && Pow2(3) == 8 && Pow2(2) == 4;
    PowSum(5, 5);
    PowSum(10, 10);
  }

  lemma FractionBits()
    ensures Pow2(52) == 0x10_0000_0000_0000 && Pow2(23) == 0x80_0000
  {
    hide Pow2;
    SmallPowers();
    PowSum(20, 3);
    PowSum(20, 20);
    PowSum(40, 10);
    PowSum(50, 2);
  }

  /** The bits of 1.0 and of 0.5 (0x3ff0000000000000 and 0x3fe0000000000000 for binary64). */
  function OneBits(f: Format): (m: nat)
    requires IsFormat(f)
    ensures f == DOUBLE ==> m == 0x3ff0_0000_0000_0000
    ensures f == SINGLE ==> m == 0x3f80_0000
  {
    FractionBits();
    f.bias * Pow2(f.bits)
  }

  function HalfBits(f: Format): (m: nat)
    requires IsFormat(f)
    ensures f == DOUBLE ==> m == 0x3fe0_0000_0000_0000
    ensures f == SINGLE ==> m == 0x3f00_0000
  {
    FractionBits();
    (f.bias - 1) * Pow2(f.bits)
  }

  lemma BelowOne(f: Format, m: nat)
    requires IsFormat(f) && 0 < m && Field(f, m) < f.bias
    ensures 0 < Value(f, m) < One(f)
    ensures var half := HalfBits(f);
      (half < m <==> One(f) < 2 * Value(f, m)) && (half == m <==> One(f) == 2 * Value(f, m))
  {
    hide Pow2, Value, One, Field, Fraction, IsFormat;
    var p := Pow2(f.bits);
    assert 1 < f.bias by { BiasBig(f); }
    var one, half := OneBits(f), HalfBits(f);
    Unpack(f, m);
    MulOrder(Field(f, m) + 1, f.bias, p);
    Distribute(Field(f, m), 1, p);
    OneIsPacked(f);
    Ordered(f, m, one);
    Ordered(f, 0, m);
    Ordered(f, m, half);
    SubnormalValue(f, 0);
  }

  lemma BiasBig(f: Format)
    requires IsFormat(f)
    ensures 1 < f.bias && f.bits < f.bias && 0 < f.bits && f.bias % 2 == 1
  {
  }

  /** One, and a half, as magnitudes. */
  lemma OneIsPacked(f: Format)
    requires IsFormat(f)
    ensures Value(f, OneBits(f)) == One(f) && 2 * Value(f, HalfBits(f)) == One(f)
  {
    hide IsFormat, Value, Pow2;
    BiasBig(f);
    var p := Pow2(f.bits);
    PackedValue(f, f.bias, p);
    PackedValue(f, f.bias - 1, p);
    PowSum(f.bits, f.bias - 1);
    PowSum(f.bits, f.bias - 2);
    PowEven(f.bias - 1 + f.bits);
  }

  // ----- Magnitudes without a fraction

  lemma AlreadyIntegral(f: Format, m: nat)
    requires IsFormat(f) && f.bias + f.bits <= Field(f, m)
    ensures Value(f, m) % One(f) == 0
  {
    hide Fraction;
    var s, k := Pow2(f.bits) + Fraction(f, m), Field(f, m) - 1 - (f.bias - 1 + f.bits);
    PowSum(k, f.bias - 1 + f.bits);
    Assoc(s, Pow2(k), One(f));
    NonNegative(s, Pow2(k));
    Quotient(Value(f, m), One(f), s * Pow2(k), 0);
  }

  // ----- Magnitudes with a fraction

  /** A magnitude from one up that has a fraction part: `unit` counts the bits below the point, `ulp`
      is the value of the last bit, and the significand is q units and d. */
  ghost predicate Parts(f: Format, m: nat, unit: nat, ulp: nat, q: nat, d: nat) {
    && IsFormat(f) && f.bias <= Field(f, m) < f.bias + f.bits && 0 < unit && 0 < ulp
    && unit == Pow2(f.bits - (Field(f, m) - f.bias)) && ulp == Pow2(Field(f, m) - 1)
    && Pow2(f.bits) + Fraction(f, m) == q * unit + d && d < unit
  }

  lemma PartsOf(f: Format, m: nat) returns (unit: nat, ulp: nat, q: nat, d: nat)
    requires IsFormat(f) && f.bias <= Field(f, m) < f.bias + f.bits
    ensures Parts(f, m, unit, ulp, q, d)
  {
    BiasBig(f);
    unit, ulp := Pow2(f.bits - (Field(f, m) - f.bias)), Pow2(Field(f, m) - 1);
    var s := Pow2(f.bits) + Fraction(f, m);
    DivMod(s, unit);
    DivNat(s, unit);
    q, d := s / unit, s % unit;
  }

  /** The value is q ones and d last bits. */
  lemma PartsValue(f: Format, m: nat, unit: nat, ulp: nat, q: nat, d: nat)
    requires Parts(f, m, unit, ulp, q, d)
    ensures One(f) == unit * ulp && Value(f, m) == q * One(f) + d * ulp && 0 <= d * ulp < One(f)
  {
    BiasBig(f);
    hide IsFormat;
    var e := Field(f, m);
    PowSum(f.bits - (e - f.bias), e - 1);
    Distribute(q * unit, d, ulp);
    Assoc(q, unit, ulp);
    NonNegative(d, ulp);
    MulOrder(d, unit, ulp);
  }

  /** The low bits of the magnitude are those of the significand, and the unit bit above them is
      odd exactly when q is, at exponent 0 too, where it is the lowest bit of the exponent field. */
  lemma LowBits(f: Format, m: nat, unit: nat, ulp: nat, q: nat, d: nat)
    requires Parts(f, m, unit, ulp, q, d)
    ensures Pow2(f.bits) <= q * unit && q * unit + unit <= 2 * Pow2(f.bits)
    ensures m == Packed(f, Field(f, m), q * unit + d) && m - d == Packed(f, Field(f, m), q * unit)
    ensures m % unit == d && (m - d) / unit % 2 == q % 2
  {
    hide IsFormat, Pow2, Value, One;
    BiasBig(f);
    var e := Field(f, m);
    var above := Pow2(e - f.bias);
    PowSum(e - f.bias, f.bits - (e - f.bias));
    Unpack(f, m);
    SignificandAbove(q, d, unit, above, Fraction(f, m));
    LowUnits(m, e, above, unit, q, d);
    ParityAbove(e, f.bias, q, above);
  }

  lemma LowUnits(m: nat, e: nat, above: nat, unit: nat, q: nat, d: nat)
    requires 0 < unit && d < unit && above <= q && m == e * (above * unit) + (q * unit + d - above * unit)
    ensures m % unit == d && (m - d) / unit == e * above + (q - above) && 0 <= m - d
  {
    Assoc(e, above, unit);
    Distribute(e * above, q - above, unit);
    Distribute(q, above, unit);
    var n := e * above + (q - above);
    NonNegative(e, above);
    NonNegative(n, unit);
    Quotient(m, unit, n, d);
    Quotient(m - d, unit, n, 0);
  }

  lemma SignificandAbove(q: nat, d: nat, unit: nat, above: nat, fraction: nat)
    requires 0 < unit && d < unit && above * unit + fraction == q * unit + d && fraction < above * unit
    ensures above <= q && above * unit <= q * unit && q * unit + unit <= 2 * (above * unit)
  {
    MulOrder(above, q + 1, unit);
    Distribute(q, 1, unit);
    MulOrder(above, q, unit);
    MulOrder(q, 2 * above, unit);
    Assoc(2, above, unit);
    MulOrder(q + 1, 2 * above, unit);
  }

  /** The field contributes an even number of units, or an odd one to match the hidden bit. */
  lemma ParityAbove(e: nat, bias: nat, q: int, above: nat)
    requires bias <= e && bias % 2 == 1 && above == Pow2(e - bias)
    ensures (e * above + (q - above)) % 2 == q % 2
  {
    if e == bias {
      assert above == 1;
    } else {
      PowEven(e - bias);
      EvenProduct(e, Pow2(e - bias - 1));
      AddEven(q, e * Pow2(e - bias - 1) - Pow2(e - bias - 1));
    }
  }

  lemma EvenProduct(e: int, half: int)
    ensures e * (2 * half) == 2 * (e * half)
  {
  }

  lemma AddEven(q: int, k: int)
    ensures (q + 2 * k) % 2 == q % 2
  {
  }

  /** Twice the discarded value against one is twice the discarded bits against the unit. */
  lemma HalfTest(d: nat, unit: nat, ulp: nat)
    requires 0 < ulp
    ensures (2 * (d * ulp) < unit * ulp <==> 2 * d < unit) && (2 * (d * ulp) == unit * ulp <==> 2 * d == unit)
    ensures d * ulp == 0 <==> d == 0
  {
    Assoc(2, d, ulp);
    MulOrder(2 * d, unit, ulp);
    MulOrder(0, d, ulp);
    MulOrder(d, 0, ulp);
  }

  /** The rounded-down magnitude, and the one a unit up. */
  lemma RoundedValues(f: Format, m: nat, unit: nat, ulp: nat, q: nat, d: nat)
    requires Parts(f, m, unit, ulp, q, d)
    ensures d <= m && Value(f, m - d) == q * One(f) && Value(f, m - d + unit) == (q + 1) * One(f)
  {
    hide IsFormat, One, Value, Pow2, Fraction;
    LowBits(f, m, unit, ulp, q, d);
    PartsValue(f, m, unit, ulp, q, d);
    BiasBig(f);
    var e := Field(f, m);
    PackedValue(f, e, q * unit);
    PackedValue(f, e, q * unit + unit);
    Distribute(q, 1, unit);
    Assoc(q, unit, ulp);
    Assoc(q + 1, unit, ulp);
  }

  // ----- The code

  /** The result has the sign of x and the integral value that the mode prescribes, and is inexact
      exactly when that is another value. */
  ghost predicate Prescribed(f: Format, x: Float, mode: Mode, r: Float, inexact: bool)
    requires IsFormat(f)
  {
    && r.negative == x.negative && Signed(f, r) == Integral(Signed(f, x), One(f), mode) * One(f)
    && (inexact <==> Signed(f, r) != Signed(f, x))
  }

  lemma SignTimes(negative: bool, n: int, one: int)
    ensures Sign(negative, n) * one == Sign(negative, n * one)
  {
    Distribute(0, n, one);
  }

  /** From magnitudes to signed values. */
  lemma PrescribedBy(f: Format, x: Float, mode: Mode, r: Float, q: int, d: int, inexact: bool)
    requires IsFormat(f) && Value(f, x.magnitude) == q * One(f) + d && 0 <= d < One(f) && r.negative == x.negative
    requires Value(f, r.magnitude) == if RoundsUp(q, d, One(f), mode, x.negative) then (q + 1) * One(f) else q * One(f)
    requires inexact <==> d != 0
    ensures Prescribed(f, x, mode, r, inexact)
  {
    hide Value, One, Integral, RoundsUp, IsFormat;
    var one := One(f);
    MagnitudeRounding(Value(f, x.magnitude), one, q, d, mode, x.negative);
    SignTimes(x.negative, if RoundsUp(q, d, one, mode, x.negative) then q + 1 else q, one);
    Distribute(q, 1, one);
    assert d == 0 ==> !RoundsUp(q, d, one, mode, x.negative) by { NeverUp(q, one, mode, x.negative); }
  }

  lemma NeverUp(q: int, one: int, mode: Mode, negative: bool)
    ensures !RoundsUp(q, 0, one, mode, negative)
  {
  }

  /** A magnitude that is integral already. */
  lemma PrescribedSame(f: Format, x: Float, mode: Mode)
    requires IsFormat(f) && Value(f, x.magnitude) % One(f) == 0
    ensures Prescribed(f, x, mode, x, false)
  {
    hide Value, One, IsFormat;
    DivMod(Value(f, x.magnitude), One(f));
    NeverUp(Value(f, x.magnitude) / One(f), One(f), mode, x.negative);
    PrescribedBy(f, x, mode, x, Value(f, x.magnitude) / One(f), 0, false);
  }

  /** What each choice is worth against the magnitude's value. */
  lemma SmallChoices(f: Format, x: Float, mode: Mode)
    requires IsFormat(f) && 0 < x.magnitude && Field(f, x.magnitude) < f.bias
    ensures Value(f, 0) == 0 && Value(f, OneBits(f)) == One(f) && 0 < Value(f, x.magnitude) < One(f)
    ensures RoundsUp(0, Value(f, x.magnitude), One(f), mode, x.negative) <==>
      (mode == Upward && !x.negative) || (mode == Downward && x.negative) || (mode == ToNearest && HalfBits(f) < x.magnitude)
  {
    BelowOne(f, x.magnitude);
    OneIsPacked(f);
    SubnormalValue(f, 0);
    hide Value, One, Field;
  }

  lemma SmallPrescribed(f: Format, x: Float, mode: Mode, r: Float, up: bool)
    requires IsFormat(f) && 0 < x.magnitude && Field(f, x.magnitude) < f.bias && r == Float(x.negative, if up then OneBits(f) else 0)
    requires up <==> RoundsUp(0, Value(f, x.magnitude), One(f), mode, x.negative)
    ensures Prescribed(f, x, mode, r, true)
  {
    SmallChoices(f, x, mode);
    hide Value, One, Prescribed, IsFormat, RoundsUp, OneBits, HalfBits, Field;
    PrescribedBy(f, x, mode, r, 0, Value(f, x.magnitude), true);
  }

  /** The branch for magnitudes between zero and one. */
  method RoundSmall(f: Format, x: Float, mode: Mode) returns (r: Float)
    requires IsFormat(f) && 0 < x.magnitude && Field(f, x.magnitude) < f.bias
    ensures Prescribed(f, x, mode, r, true)
  {
    SmallChoices(f, x, mode);
    hide Value, One, Prescribed, IsFormat, RoundsUp, OneBits, HalfBits, Field;
    ghost var up := RoundsUp(0, Value(f, x.magnitude), One(f), mode, x.negative);
    r := Float(x.negative, 0);
    if mode == Upward && !x.negative {
      r := Float(false, OneBits(f));
    } else if mode == Downward && x.negative {
      r := Float(true, OneBits(f));
    } else if mode == ToNearest && HalfBits(f) < x.magnitude {
      r := Float(x.negative, OneBits(f));
    }
    SmallPrescribed(f, x, mode, r, up);
  }

  /** The code's test for adding a unit. */
  predicate Choice(x: Float, mode: Mode, unit: nat, d: nat)
    requires 0 < unit
  {
    (mode == Upward && !x.negative) || (mode == Downward && x.negative)
    || (mode == ToNearest && (unit / 2 < d || (d == unit / 2 && (x.magnitude - d) / unit % 2 != 0)))
  }

  lemma UnitOfParts(f: Format, m: nat, unit: nat, ulp: nat, q: nat, d: nat)
    requires Parts(f, m, unit, ulp, q, d)
    ensures IsFormat(f) && unit % 2 == 0 && 0 < unit && 0 < ulp && d < unit
  {
    UnitEven(f.bits - (Field(f, m) - f.bias));
    hide Field, Pow2, Fraction;
  }

  /** What each choice is worth for a magnitude with a fraction. */
  lemma FractionChoices(f: Format, x: Float, mode: Mode, unit: nat, ulp: nat, q: nat, d: nat)
    requires Parts(f, x.magnitude, unit, ulp, q, d)
    ensures x.magnitude % unit == d <= x.magnitude && unit % 2 == 0
    ensures Value(f, x.magnitude) == q * One(f) + d * ulp && 0 <= d * ulp < One(f) && (d == 0 <==> d * ulp == 0)
    ensures RoundsUp(q, d * ulp, One(f), mode, x.negative) <==> (d != 0 && Choice(x, mode, unit, d))
  {
    hide Value, One, Field, Packed, Pow2, IsFormat, Parts;
    UnitOfParts(f, x.magnitude, unit, ulp, q, d);
    LowBits(f, x.magnitude, unit, ulp, q, d);
    PartsValue(f, x.magnitude, unit, ulp, q, d);
    RoundedValues(f, x.magnitude, unit, ulp, q, d);
    HalfTest(d, unit, ulp);
  }

  lemma FractionPrescribed(f: Format, x: Float, mode: Mode, unit: nat, ulp: nat, q: nat, d: nat, r: Float, up: bool)
    requires Parts(f, x.magnitude, unit, ulp, q, d) && d <= x.magnitude
    requires up <==> RoundsUp(q, d * ulp, One(f), mode, x.negative)
    requires r == Float(x.negative, if up then x.magnitude - d + unit else x.magnitude - d)
    ensures Prescribed(f, x, mode, r, d != 0)
  {
    FractionChoices(f, x, mode, unit, ulp, q, d);
    RoundedValues(f, x.magnitude, unit, ulp, q, d);
    assert IsFormat(f);
    hide Value, One, Prescribed, IsFormat, RoundsUp, Parts;
    PrescribedBy(f, x, mode, r, q, d * ulp, d != 0);
  }

  /** The branch for magnitudes with bits on both sides of the point. */
  method RoundFraction(f: Format, x: Float, mode: Mode) returns (r: Float, inexact: bool)
    requires IsFormat(f) && f.bias <= Field(f, x.magnitude) < f.bias + f.bits
    ensures Prescribed(f, x, mode, r, inexact)
  {
    ghost var unit0, ulp, q, d := PartsOf(f, x.magnitude);
    FractionChoices(f, x, mode, unit0, ulp, q, d);
    var fractionalBits: nat := f.bits - (Field(f, x.magnitude) - f.bias);
    var unit := Pow2(fractionalBits);
    assert unit == unit0;
    hide Value, One, Prescribed, IsFormat, Field, Parts, Pow2, RoundsUp;
    ghost var up := RoundsUp(q, d * ulp, One(f), mode, x.negative);
    var discarded := x.magnitude % unit;
    if discarded == 0 {
      FractionPrescribed(f, x, mode, unit, ulp, q, d, x, up);
      return x, false;
    }
    var rounded := x.magnitude - discarded;
    if (mode == Upward && !x.negative) || (mode == Downward && x.negative) {
      rounded := rounded + unit;
    } else if mode == ToNearest {
      var half := unit / 2;
      if half < discarded || (discarded == half && rounded / unit % 2 != 0) {
        rounded := rounded + unit;
      }
    }
    r := Float(x.negative, rounded);
    inexact := true;
    FractionPrescribed(f, x, mode, unit, ulp, q, d, r, up);
  }

  lemma UnitEven(n: nat)
    requires 0 < n
    ensures Pow2(n) % 2 == 0
  {
    PowEven(n);
  }

  /** round_double_mode and round_float_mode. */
  method RoundMode(f: Format, x: Float, mode: Mode) returns (r: Float, inexact: bool)
    requires IsFormat(f)
    ensures if Finite(f, x.magnitude) then Prescribed(f, x, mode, r, inexact) else r == x && !inexact
  {
    if !Finite(f, x.magnitude) {
      return x, false;
    }
    if x.magnitude == 0 {
      SubnormalValue(f, 0);
      Quotient(0, One(f), 0, 0);
      PrescribedSame(f, x, mode);
      return x, false;
    }
    var field := Field(f, x.magnitude);
    if field < f.bias {
      r := RoundSmall(f, x, mode);
      return r, true;
    }
    if f.bias + f.bits <= field {
      AlreadyIntegral(f, x.magnitude);
      PrescribedSame(f, x, mode);
      return x, false;
    }
    r, inexact := RoundFraction(f, x, mode);
  }
}
