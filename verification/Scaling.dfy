/** `frexp` and `scalbn`: normalising a magnitude and moving its exponent, with the rounding shift
    into the subnormals. */
module Scaling {
  import opened Binary
  import opened Doubles
  import opened Rounding

  datatype Status = Exact | Inexact | Overflow | Underflow

  /** v times 2^k is w, for any integer k. */
  ghost predicate Scaled(v: int, k: int, w: int) {
    if 0 <= k then v * Pow2(k) == w else v == w * Pow2(-k)
  }

  /** Both from one origin, one is the other scaled by the difference. */
  lemma ScaledTrans(s: int, a: int, v: int, n: int, w: int)
    requires Scaled(s, a, v) && Scaled(s, a + n, w)
    ensures Scaled(v, n, w)
  {
    if 0 <= a && 0 <= n { ScaledUp(s, a, n); }
    else if 0 <= a + n && n <= 0 { ScaledUp(s, a + n, -n); }
    else if a <= 0 && 0 <= a + n { ScaledUp(v, -a, a + n); }
    else if a + n <= 0 && 0 <= a { ScaledUp(w, -a - n, a); }
    else if 0 <= n { ScaledUp(v, n, -a - n); MulOrder(v * Pow2(n), w, Pow2(-a - n)); }
    else { ScaledUp(w, -n, -a); MulOrder(w * Pow2(-n), v, Pow2(-a)); }
  }

  lemma ScaledUp(s: int, a: nat, b: nat)
    ensures s * Pow2(a) * Pow2(b) == s * Pow2(a + b)
  {
    PowSum(a, b);
    Assoc(s, Pow2(a), Pow2(b));
  }

  /** Scaling composes. */
  lemma ScaledThen(s: int, a: int, v: int, n: int, w: int)
    requires Scaled(s, a, v) && Scaled(v, n, w)
    ensures Scaled(s, a + n, w)
  {
    if 0 <= a && 0 <= n { ScaledUp(s, a, n); }
    else if 0 <= a && 0 <= a + n { ScaledUp(s, a + n, -n); MulOrder(s * Pow2(a + n), w, Pow2(-n)); }
    else if 0 <= a { ScaledUp(w, -a - n, a); MulOrder(s, w * Pow2(-a - n), Pow2(a)); }
    else if n < 0 { ScaledUp(w, -n, -a); }
    else if 0 <= a + n { ScaledUp(v, -a, a + n); }
    else { ScaledUp(v, n, -a - n); }
  }

  // ----- Normalising

  /** highest_bit_u64. */
  method HighestBit(value: nat) returns (bit: int)
    ensures value == 0 ==> bit == -1
    ensures value != 0 ==> 0 <= bit && Pow2(bit) <= value < 2 * Pow2(bit)
  {
    bit := -1;
    var v: nat := value;
    assert value < Pow2(0) * (v + 1);
    while v != 0
      invariant -1 <= bit && v * Pow2(bit + 1) <= value < (v + 1) * Pow2(bit + 1)
      invariant v == 0 && 0 <= bit ==> Pow2(bit) <= value
    {
      bit := bit + 1;
      Halve(v, Pow2(bit), value);
      v := v / 2;
    }
  }

  lemma Halve(v: nat, p: nat, value: nat)
    requires 0 < p && v * p <= value < (v + 1) * p && v != 0
    ensures v / 2 * (2 * p) <= value < (v / 2 + 1) * (2 * p) && (v / 2 == 0 ==> p <= value)
  {
    var h := v / 2;
    Assoc(h, 2, p);
    Assoc(h + 1, 2, p);
    MulOrder(h * 2, v, p);
    MulOrder(v + 1, (h + 1) * 2, p);
    MulOrder(1, v, p);
  }

  /** A magnitude as a significand with its top bit in place and an exponent. */
  ghost predicate Normal(f: Format, m: nat, significand: nat, exponent: int)
    requires IsFormat(f)
  {
    && Pow2(f.bits) <= significand < 2 * Pow2(f.bits) && Scaled(significand, exponent + f.bias - 1, Value(f, m))
    && -(f.bias - 1 + f.bits) <= exponent <= f.bias
  }

  /** The first lines of frexp and scale_double: shift a subnormal until its top bit is in place. */
  method Normalize(f: Format, m: nat) returns (significand: nat, exponent: int)
    requires IsFormat(f) && Finite(f, m) && m != 0
    ensures Normal(f, m, significand, exponent)
  {
    BiasBig(f);
    hide IsFormat;
    var field, fraction := Field(f, m), Fraction(f, m);
    Unpack(f, m);
    if field != 0 {
      significand, exponent := Pow2(f.bits) + fraction, field - f.bias;
      return;
    }
    assert fraction != 0 && Value(f, m) == fraction;
    var top := HighestBit(fraction);
    TopBelow(fraction, top, f.bits);
    PowSum(top, f.bits - top);
    MulOrder(Pow2(top), fraction, Pow2(f.bits - top));
    MulOrder(fraction, 2 * Pow2(top), Pow2(f.bits - top));
    Assoc(2, Pow2(top), Pow2(f.bits - top));
    significand, exponent := fraction * Pow2(f.bits - top), top - (f.bias - 1 + f.bits);
  }

  lemma TopBelow(v: nat, top: nat, bits: nat)
    requires Pow2(top) <= v < Pow2(bits)
    ensures top < bits
  {
    if bits <= top { PowDivides(bits, top); }
  }

  /** A significand with an exponent that the format has is the packed magnitude. */
  lemma PackedNormal(f: Format, significand: nat, exponent: int)
    requires IsFormat(f) && Pow2(f.bits) <= significand < 2 * Pow2(f.bits) && 1 - f.bias <= exponent <= f.bias
    ensures var m := Packed(f, exponent + f.bias, significand); Finite(f, m) && Scaled(significand, exponent + f.bias - 1, Value(f, m))
  {
    PackedFields(f, exponent + f.bias, significand);
    PackedValue(f, exponent + f.bias, significand);
  }

  /** frexp: of a finite number other than zero a magnitude from a half up to one, and an exponent;
      zeros, infinities and NaNs come through with exponent 0. */
  method FrExp(f: Format, m: nat) returns (unit: nat, exponent: int, ghost significand: nat)
    requires IsFormat(f)
    ensures if Finite(f, m) && m != 0 then
              && Normal(f, m, significand, exponent - 1) && unit == Packed(f, f.bias - 1, significand)
              && Finite(f, unit) && Value(f, unit) == significand * Pow2(f.bias - 2) && Scaled(Value(f, unit), exponent, Value(f, m))
            else unit == m && exponent == 0
  {
    BiasBig(f);
    if !Finite(f, m) || m == 0 {
      return m, 0, 0;
    }
    var s, e := Normalize(f, m);
    hide IsFormat, Value, Finite;
    significand := s;
    unit, exponent := Packed(f, f.bias - 1, s), e + 1;
    PackedNormal(f, s, -1);
    PackedValue(f, f.bias - 1, s);
    ScaledTrans(s, f.bias - 2, Value(f, unit), e + 1, Value(f, m));
  }

  // ----- Moving the exponent

  /** Dividing by a power of two, rounded by the mode with the sign in mind. */
  function RoundedShift(value: nat, shift: nat, mode: Mode, negative: bool): (r: int)
  {
    var q, d := value / Pow2(shift), value % Pow2(shift);
    if RoundsUp(q, d, Pow2(shift), mode, negative) then q + 1 else q
  }

  /** That is rounding the signed quotient as the standard prescribes, ties and directions included. */
  lemma RoundedShiftMeans(value: nat, shift: nat, mode: Mode, negative: bool)
    ensures Sign(negative, RoundedShift(value, shift, mode, negative)) == Integral(Sign(negative, value), Pow2(shift), mode)
  {
    hide RoundsUp, Integral;
    DivMod(value, Pow2(shift));
    MagnitudeRounding(value, Pow2(shift), value / Pow2(shift), value % Pow2(shift), mode, negative);
  }

  /** round_shift_mode: shifts of 64 and more are the same as the others. */
  method RoundShift(value: nat, shift: nat, negative: bool, mode: Mode) returns (quotient: nat, discarded: bool)
    requires value < Pow2(63)
    ensures quotient == RoundedShift(value, shift, mode, negative) && (discarded <==> value % Pow2(shift) != 0)
  {
    if shift == 0 {
      Quotient(value, 1, value, 0);
      return value, false;
    }
    var remainder := 0;
    DivNat(value, Pow2(shift));
    DivMod(value, Pow2(shift));
    if 64 <= shift {
      PowDivides(63, shift - 1);
      Quotient(value, Pow2(shift), 0, value);
      quotient, discarded := 0, value != 0;
    } else {
      quotient, remainder := value / Pow2(shift), value % Pow2(shift);
      discarded := remainder != 0;
    }
    if !discarded {
      return;
    }
    if mode == Upward {
      if !negative {
        quotient := quotient + 1;
      }
      return;
    }
    if mode == Downward {
      if negative {
        quotient := quotient + 1;
      }
      return;
    }
    if mode == TowardZero {
      return;
    }
    if shift < 64 {
      var half := Pow2(shift - 1);
      if half < remainder || (remainder == half && quotient % 2 != 0) {
        quotient := quotient + 1;
      }
    }
  }

  /** What scale_double returns for a finite magnitude other than zero. */
  ghost predicate ScaleOutcome(f: Format, x: Float, n: int, mode: Mode, r: Float, status: Status, s: nat, e: int)
    requires IsFormat(f)
  {
    && Normal(f, x.magnitude, s, e) && r.negative == x.negative
    && if f.bias < e + n then status == Overflow && r.magnitude == TopField(f) * Pow2(f.bits)
       else if 1 - f.bias <= e + n then status == Exact && Finite(f, r.magnitude) && Scaled(Value(f, x.magnitude), n, Value(f, r.magnitude))
       else
         var shift := 1 - f.bias - (e + n);
         && Value(f, r.magnitude) == RoundedShift(s, shift, mode, x.negative) && r.magnitude <= Pow2(f.bits)
         && status == (if s % Pow2(shift) == 0 then Exact else if r.magnitude == Pow2(f.bits) then Inexact else Underflow)
  }

  /** The rounded significand of a subnormal is at most the first normal one. */
  lemma ShiftBound(f: Format, s: nat, shift: nat, mode: Mode, negative: bool)
    requires IsFormat(f) && s < 2 * Pow2(f.bits) && 0 < shift
    ensures RoundedShift(s, shift, mode, negative) <= Pow2(f.bits) && s < Pow2(63)
  {
    PowDivides(f.bits + 1, 63);
    var u := Pow2(shift);
    DivMod(s, u);
    DivNat(s, u);
    PowEven(shift);
    AtLeastTwice(s / u, u);
  }

  lemma AtLeastTwice(q: int, u: int)
    requires 0 <= q && 2 <= u
    ensures 2 * q <= q * u
  {
    NonNegative(q, u - 2);
    assert q * (u - 2) == q * u - 2 * q;
  }

  /** The branch into the subnormals. */
  method ScaleBelow(f: Format, negative: bool, significand: nat, shift: nat, mode: Mode) returns (r: Float, status: Status)
    requires IsFormat(f) && significand < 2 * Pow2(f.bits) && 0 < shift
    ensures r.negative == negative && Value(f, r.magnitude) == RoundedShift(significand, shift, mode, negative) && r.magnitude <= Pow2(f.bits)
    ensures status == if significand % Pow2(shift) == 0 then Exact else if r.magnitude == Pow2(f.bits) then Inexact else Underflow
  {
    ShiftBound(f, significand, shift, mode, negative);
    hide Value;
    var rounded, discarded := RoundShift(significand, shift, negative, mode);
    SubnormalValue(f, rounded);
    status := Exact;
    if Pow2(f.bits) <= rounded {
      if discarded {
        status := Inexact;
      }
      return Float(negative, Pow2(f.bits)), status;
    }
    if discarded {
      status := Underflow;
    }
    return Float(negative, rounded), status;
  }

  /** scale_double and scale_float. */
  method Scale(f: Format, x: Float, n: int, mode: Mode) returns (r: Float, status: Status, ghost s: nat, ghost e: int)
    requires IsFormat(f)
    ensures if Finite(f, x.magnitude) && x.magnitude != 0 then ScaleOutcome(f, x, n, mode, r, status, s, e) else r == x && status == Exact
  {
    s, e := 0, 0;
    if !Finite(f, x.magnitude) || x.magnitude == 0 {
      return x, Exact, 0, 0;
    }
    BiasBig(f);
    var significand, exponent := Normalize(f, x.magnitude);
    s, e := significand, exponent;
    var target := exponent + n;
    hide IsFormat, Value;
    if f.bias < target {
      return Float(x.negative, TopField(f) * Pow2(f.bits)), Overflow, s, e;
    }
    if 1 - f.bias <= target {
      PackedNormal(f, significand, target);
      r := Float(x.negative, Packed(f, target + f.bias, significand));
      ScaledTrans(s, e + f.bias - 1, Value(f, x.magnitude), n, Value(f, r.magnitude));
      return r, Exact, s, e;
    }
    r, status := ScaleBelow(f, x.negative, significand, 1 - f.bias - target, mode);
  }

  /** When the scaled value is a whole number of smallest subnormals and below the infinities, the
      result is it, in every mode. */
  lemma ScaleIsExact(f: Format, x: Float, n: int, mode: Mode, r: Float, status: Status, s: nat, e: int, w: nat)
    requires IsFormat(f) && ScaleOutcome(f, x, n, mode, r, status, s, e)
    requires Scaled(Value(f, x.magnitude), n, w) && w < Value(f, TopField(f) * Pow2(f.bits))
    ensures status == Exact && Value(f, r.magnitude) == w && r.negative == x.negative
  {
    BiasBig(f);
    hide IsFormat, Value;
    ScaledThen(s, e + f.bias - 1, Value(f, x.magnitude), n, w);
    var k := e + f.bias - 1 + n;
    if f.bias < e + n {
      TopValue(f);
      PowDivides(2 * f.bias, k);
      MulOrder(Pow2(f.bits), s, Pow2(k));
      MulOrder(Pow2(2 * f.bias), Pow2(k), Pow2(f.bits));
      assert false;
    } else if 0 <= k {
      ScaledSame(Value(f, x.magnitude), n, w, Value(f, r.magnitude));
    } else {
      Quotient(s, Pow2(-k), w, 0);
    }
  }

  /** Whenever the status is exact, the result is the scaled value. */
  lemma ExactIsScaled(f: Format, x: Float, n: int, mode: Mode, r: Float, s: nat, e: int)
    requires IsFormat(f) && ScaleOutcome(f, x, n, mode, r, Exact, s, e)
    ensures Scaled(Value(f, x.magnitude), n, Value(f, r.magnitude))
  {
    BiasBig(f);
    hide IsFormat, Value;
    var shift := 1 - f.bias - (e + n);
    if 0 < shift {
      DivMod(s, Pow2(shift));
      NeverUp(s / Pow2(shift), Pow2(shift), mode, x.negative);
      ScaledTrans(s, e + f.bias - 1, Value(f, x.magnitude), n, Value(f, r.magnitude));
    }
  }

  /** Rounding does not see a common factor. */
  lemma IntegralScales(v: int, one: int, p: int, mode: Mode)
    requires 0 < one && 0 < p
    ensures 0 < one * p && Integral(v * p, one * p, mode) == Integral(v, one, mode)
  {
    var q, r := v / one, v % one;
    assert v == q * one + r;
    Positive(one, p);
    Distribute(q * one, r, p);
    Assoc(q, one, p);
    MulOrder(r, one, p);
    MulOrder(0, r, p);
    MulOrder(r, 0, p);
    Quotient(v * p, one * p, q, r * p);
    MulOrder(2 * r, one, p);
    Assoc(2, r, p);
  }

  lemma ScaledSigned(negative: bool, v: int, p: int)
    ensures Sign(negative, v * p) == Sign(negative, v) * p
  {
    Distribute(0, v, p);
  }

  /** Going down, the result is the scaled value rounded as the mode prescribes, ties and signs
      included, to a whole number of smallest subnormals. */
  lemma ScaleRounds(f: Format, x: Float, n: int, mode: Mode, r: Float, status: Status, s: nat, e: int)
    requires IsFormat(f) && ScaleOutcome(f, x, n, mode, r, status, s, e) && n < 0
    ensures Signed(f, r) == Integral(Signed(f, x), Pow2(-n), mode)
  {
    hide IsFormat, Value, Integral, RoundedShift;
    var shift := 1 - f.bias - (e + n);
    if shift <= 0 {
      ExactDown(x.negative, Value(f, x.magnitude), -n, Value(f, r.magnitude), mode);
    } else {
      RoundedShiftMeans(s, shift, mode, x.negative);
      CommonOrigin(x.negative, s, e + f.bias - 1, Value(f, x.magnitude), n, shift, mode);
    }
  }

  lemma ExactDown(negative: bool, v: nat, k: nat, w: nat, mode: Mode)
    requires v == w * Pow2(k)
    ensures Integral(Sign(negative, v), Pow2(k), mode) == Sign(negative, w)
  {
    ScaledSigned(negative, w, Pow2(k));
    Quotient(Sign(negative, v), Pow2(k), Sign(negative, w), 0);
  }

  /** The significand and the value are the same number but for a power of two. */
  lemma CommonOrigin(negative: bool, s: nat, a: int, v: nat, n: int, shift: nat, mode: Mode)
    requires Scaled(s, a, v) && n < 0 && shift == -(a + n)
    ensures Integral(Sign(negative, s), Pow2(shift), mode) == Integral(Sign(negative, v), Pow2(-n), mode)
  {
    hide Integral;
    if 0 <= a {
      IntegralScales(Sign(negative, s), Pow2(shift), Pow2(a), mode);
      ScaledSigned(negative, s, Pow2(a));
      PowSum(shift, a);
    } else {
      IntegralScales(Sign(negative, v), Pow2(-n), Pow2(-a), mode);
      ScaledSigned(negative, v, Pow2(-a));
      PowSum(-n, -a);
    }
  }

  lemma TopValue(f: Format)
    requires IsFormat(f)
    ensures Value(f, TopField(f) * Pow2(f.bits)) == Pow2(f.bits) * Pow2(2 * f.bias)
  {
    PackedValue(f, TopField(f), Pow2(f.bits));
  }

  lemma ScaledSame(v: int, n: int, w: int, u: int)
    requires Scaled(v, n, w) && Scaled(v, n, u)
    ensures w == u
  {
    if n < 0 { MulOrder(w, u, Pow2(-n)); }
  }
}
