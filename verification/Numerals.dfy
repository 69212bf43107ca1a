/** Numerals: digit strings and the numbers they stand for, in any base up to 36. */
module Numerals {

  function DigitValue(c: char): int {
    if '0' <= c <= '9' then c as int - '0' as int
    else if 'a' <= c <= 'z' then c as int - 'a' as int + 10
    else if 'A' <= c <= 'Z' then c as int - 'A' as int + 10
    else -1
  }

  const LOWER := "0123456789abcdef"
  const UPPER := "0123456789ABCDEF"

  function DigitChar(d: nat, uppercase: bool): (c: char)
    requires d < 16
    ensures DigitValue(c) == d
  {
    if uppercase then UPPER[d] else LOWER[d]
  }

  predicate IsDigit(c: char, base: int) { 0 <= DigitValue(c) < base }

  predicate AllDigits(s: string, base: int) { forall i :: 0 <= i < |s| ==> IsDigit(s[i], base) }

  /** The number a digit string stands for. */
  function Number(s: string, base: nat): (v: nat)
    requires AllDigits(s, base)
  {
    if s == [] then 0 else Number(s[..|s| - 1], base) * base + DigitValue(s[|s| - 1])
  }

  /** The numeral of a number, without leading zeros. */
  function Numeral(v: nat, base: nat, uppercase: bool): (s: string)
    requires 2 <= base <= 16
    ensures s != [] && AllDigits(s, base)
  {
    if v < base then [DigitChar(v, uppercase)]
    else Numeral(v / base, base, uppercase) + [DigitChar(v % base, uppercase)]
  }

  lemma DivMod(v: nat, base: nat)
    requires 0 < base
    ensures (v / base) * base + v % base == v
  {
  }

  lemma MulGrows(n: nat, base: nat)
    requires 0 < base
    ensures n <= n * base
  {
  }

  lemma Appended(s: string, c: char, base: nat)
    requires AllDigits(s, base) && IsDigit(c, base)
    ensures AllDigits(s + [c], base) && Number(s + [c], base) == Number(s, base) * base + DigitValue(c)
  {
    assert (s + [c])[..|s|] == s;
  }

  /** A numeral stands for its number. */
  lemma {:induction false} NumberOfNumeral(v: nat, base: nat, uppercase: bool)
    requires 2 <= base <= 16
    ensures Number(Numeral(v, base, uppercase), base) == v
  {
    if v < base {
      Appended([], DigitChar(v, uppercase), base);
      assert [] + [DigitChar(v, uppercase)] == Numeral(v, base, uppercase);
    } else {
      NumberOfNumeral(v / base, base, uppercase);
      Appended(Numeral(v / base, base, uppercase), DigitChar(v % base, uppercase), base);
      DivMod(v, base);
      hide Number, DigitChar;
      assert Numeral(v, base, uppercase) == Numeral(v / base, base, uppercase) + [DigitChar(v % base, uppercase)];
    }
  }

  /** Leading zeros change nothing. */
  lemma {:induction false} LeadingZero(s: string, base: nat)
    requires 2 <= base && AllDigits(s, base)
    ensures AllDigits(['0'] + s, base) && Number(['0'] + s, base) == Number(s, base)
  {
    var t := ['0'] + s;
    if s == [] {
      assert t[..0] == [] && Number([], base) == 0;
    } else {
      LeadingZero(s[..|s| - 1], base);
      assert t[..|t| - 1] == ['0'] + s[..|s| - 1];
    }
  }

  function Repeat(c: char, n: nat): (s: string)
    ensures |s| == n && forall i :: 0 <= i < n ==> s[i] == c
  {
    seq(n, _ => c)
  }

  lemma {:induction false} LeadingZeros(n: nat, s: string, base: nat)
    requires 2 <= base && AllDigits(s, base)
    ensures AllDigits(Repeat('0', n) + s, base) && Number(Repeat('0', n) + s, base) == Number(s, base)
  {
    if n == 0 {
      assert Repeat('0', 0) + s == s;
    } else {
      LeadingZeros(n - 1, s, base);
      LeadingZero(Repeat('0', n - 1) + s, base);
      assert ['0'] + (Repeat('0', n - 1) + s) == Repeat('0', n) + s;
    }
  }

  /** More digits never make a number smaller. */
  lemma NumberGrows(s: string, c: char, base: nat)
    requires 1 <= base && AllDigits(s, base) && IsDigit(c, base)
    ensures AllDigits(s + [c], base) && Number(s, base) <= Number(s + [c], base)
  {
    Appended(s, c, base);
    hide Number, AllDigits;
    MulGrows(Number(s, base), base);
  }

  lemma LeadingDigit(d: nat, uppercase: bool)
    requires d < 16
    ensures DigitChar(d, uppercase) == '0' <==> d == 0
  {
  }

  lemma QuotientPositive(v: nat, base: nat)
    requires 2 <= base <= v
    ensures 0 < v / base < v
  {
    assert v == (v / base) * base + v % base;
  }

  /** A numeral has no leading zero, unless it is "0". */
  lemma {:induction false} NumeralLeads(v: nat, base: nat, uppercase: bool)
    requires 2 <= base <= 16
    ensures Numeral(v, base, uppercase)[0] == '0' <==> v == 0
    ensures v == 0 ==> Numeral(v, base, uppercase) == "0"
  {
    if v < base {
      LeadingDigit(v, uppercase);
    } else {
      hide DigitChar;
      QuotientPositive(v, base);
      NumeralLeads(v / base, base, uppercase);
    }
  }
}
