/** Binary floating-point formats at the level of their bits: a magnitude is the bits below the
    sign, an exponent field above a fraction field. Values are counted in the smallest subnormal. */
module Doubles {
  import opened Binary

  /** `bits` of fraction and the exponent bias: binary64 and binary32. */
  datatype Format = Format(bits: nat, bias: nat)

  const DOUBLE := Format(52, 1023)
  const SINGLE := Format(23, 127)

  predicate IsFormat(f: Format) { f == DOUBLE || f == SINGLE }

  function Field(f: Format, m: nat): nat {
    DivNat(m, Pow2(f.bits));
    m / Pow2(f.bits)
  }

  function Fraction(f: Format, m: nat): nat { m % Pow2(f.bits) }

  /** The field of infinities and NaNs. */
  function TopField(f: Format): nat { 2 * f.bias + 1 }

  predicate Finite(f: Format, m: nat) { Field(f, m) < TopField(f) }

  datatype Float = Float(negative: bool, magnitude: nat)

  /** The value of a magnitude. */
  function Value(f: Format, m: nat): nat {
    if Field(f, m) == 0 then Fraction(f, m)
    else (Pow2(f.bits) + Fraction(f, m)) * Pow2(Field(f, m) - 1)
  }

  function Signed(f: Format, x: Float): int { Sign(x.negative, Value(f, x.magnitude)) }

  function Sign(negative: bool, v: int): int { if negative then -v else v }

  /** The number one. */
  function One(f: Format): (r: nat)
    requires IsFormat(f)
    ensures 0 < r
  {
    Pow2(f.bias - 1 + f.bits)
  }

  /** The magnitude with an exponent field and a significand from 2^bits up to 2^(bits+1): at the
      upper end the carry moves into the field. */
  function Packed(f: Format, field: nat, significand: nat): nat
    requires 1 <= field && Pow2(f.bits) <= significand
  {
    field * Pow2(f.bits) + (significand - Pow2(f.bits))
  }

  lemma PackedFields(f: Format, field: nat, significand: nat)
    requires 1 <= field && Pow2(f.bits) <= significand < 2 * Pow2(f.bits)
    ensures Field(f, Packed(f, field, significand)) == field && Fraction(f, Packed(f, field, significand)) == significand - Pow2(f.bits)
  {
    Quotient(Packed(f, field, significand), Pow2(f.bits), field, significand - Pow2(f.bits));
  }

  /** The value is the significand scaled, carry or not. */
  lemma PackedValue(f: Format, field: nat, significand: nat)
    requires 1 <= field && Pow2(f.bits) <= significand <= 2 * Pow2(f.bits)
    ensures Value(f, Packed(f, field, significand)) == significand * Pow2(field - 1)
  {
    var p := Pow2(f.bits);
    if significand < 2 * p {
      PackedFields(f, field, significand);
    } else {
      Distribute(field, 1, p);
      Quotient(Packed(f, field, significand), p, field + 1, 0);
      Assoc(p, 2, Pow2(field - 1));
    }
  }

  /** Every magnitude above the subnormals is packed from its own parts. */
  lemma Unpack(f: Format, m: nat)
    ensures Fraction(f, m) < Pow2(f.bits) && m == Field(f, m) * Pow2(f.bits) + Fraction(f, m)
    ensures 1 <= Field(f, m) ==> m == Packed(f, Field(f, m), Pow2(f.bits) + Fraction(f, m))
  {
    DivMod(m, Pow2(f.bits));
  }

  lemma SubnormalValue(f: Format, m: nat)
    requires m < 2 * Pow2(f.bits)
    ensures Value(f, m) == m
  {
    var p := Pow2(f.bits);
    if m < p { Quotient(m, p, 0, m); } else { Quotient(m, p, 1, m - p); }
  }

  /** The next magnitude is the next value up. */
  lemma NextValue(f: Format, m: nat)
    ensures Value(f, m) < Value(f, m + 1)
  {
    var p, e, r := Pow2(f.bits), Field(f, m), Fraction(f, m);
    Unpack(f, m);
    if e == 0 {
      SubnormalValue(f, m);
      SubnormalValue(f, m + 1);
    } else {
      PackedValue(f, e, p + r);
      PackedValue(f, e, p + r + 1);
      Distribute(p + r, 1, Pow2(e - 1));
    }
  }

  lemma {:induction false} Monotone(f: Format, a: nat, b: nat)
    requires a < b
    ensures Value(f, a) < Value(f, b)
    decreases b - a
  {
    NextValue(f, b - 1);
    if a < b - 1 { Monotone(f, a, b - 1); }
  }

  /** Magnitudes are ordered as their values. */
  lemma Ordered(f: Format, a: nat, b: nat)
    ensures a < b <==> Value(f, a) < Value(f, b)
    ensures a == b <==> Value(f, a) == Value(f, b)
  {
    if a < b { Monotone(f, a, b); }
    if b < a { Monotone(f, b, a); }
  }
}
