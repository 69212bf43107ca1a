/** `strtol` and `strtoul`: the subject of a string, its exact value, and the clamping of it.
    A C string is the characters before its terminator. */
module IntegerParse {
  import opened Numerals

  const LONG_MAX := 0x7fff_ffff_ffff_ffff
  const ULONG_MAX := 0xffff_ffff_ffff_ffff

  datatype Error = Fine | Invalid | Range

  /** A result, where the end pointer was set to, and errno. */
  datatype Parsed = Parsed(value: int, end: int, error: Error)

  const UNSET: int := -1

  function At(s: string, i: nat): char { if i < |s| then s[i] else '\0' }

  predicate IsSpace(c: char) { c == ' ' || c == '\t' || c == '\n' || c == '\U{000B}' || c == '\U{000C}' || c == '\r' }

  // ----- The subject

  function SkipSpaces(s: string, i: nat): (j: nat)
    requires i <= |s|
    ensures i <= j <= |s| && !IsSpace(At(s, j)) && forall k :: i <= k < j ==> IsSpace(At(s, k))
    decreases |s| - i
  {
    if i < |s| && IsSpace(s[i]) then SkipSpaces(s, i + 1) else i
  }

  function SkipSign(s: string, i: nat): nat { if At(s, i) == '+' || At(s, i) == '-' then i + 1 else i }

  /** A hexadecimal prefix counts only before a hexadecimal digit. */
  predicate HexAt(s: string, i: nat) {
    At(s, i) == '0' && (At(s, i + 1) == 'x' || At(s, i + 1) == 'X') && IsDigit(At(s, i + 2), 16)
  }

  function ActualBase(s: string, i: nat, base: nat): nat {
    if base != 0 then base else if HexAt(s, i) then 16 else if At(s, i) == '0' then 8 else 10
  }

  function SkipPrefix(s: string, i: nat, base: nat): nat {
    if (base == 0 || base == 16) && HexAt(s, i) then i + 2 else i
  }

  /** The end of the digits that begin at i. */
  function DigitsEnd(s: string, i: nat, base: nat): (j: nat)
    requires i <= |s|
    ensures i <= j <= |s| && AllDigits(s[i..j], base) && !IsDigit(At(s, j), base)
    decreases |s| - i
  {
    if i < |s| && IsDigit(s[i], base) then
      var j := DigitsEnd(s, i + 1, base);
      assert s[i..j] == [s[i]] + s[i + 1..j];
      j
    else
      assert !IsDigit('\0', base);
      i
  }

  /** What the string denotes in the base: the sign, and the digits from `start` to `end`. */
  datatype Subject = Subject(negative: bool, base: nat, start: nat, end: nat)

  function SubjectOf(s: string, base: nat): (t: Subject)
    ensures t.start <= t.end <= |s| && AllDigits(s[t.start..t.end], t.base) && !IsDigit(At(s, t.end), t.base)
  {
    var i := SkipSpaces(s, 0);
    var j := SkipSign(s, i);
    var b, k := ActualBase(s, j, base), SkipPrefix(s, j, base);
    Subject(At(s, i) == '-', b, k, DigitsEnd(s, k, b))
  }

  function Magnitude(s: string, t: Subject): nat
    requires t.start <= t.end <= |s| && AllDigits(s[t.start..t.end], t.base)
  {
    Number(s[t.start..t.end], t.base)
  }

  predicate ValidBase(base: int) { base == 0 || 2 <= base <= 36 }

  function Clamp(v: int, low: int, high: int): int { if v < low then low else if high < v then high else v }

  /** strtol: the exact value clamped to a long, with ERANGE exactly when clamping changed it. */
  function Long(s: string, base: int): Parsed {
    if !ValidBase(base) then Parsed(0, UNSET, Invalid)
    else
      var t := SubjectOf(s, base);
      if t.start == t.end then Parsed(0, 0, Fine)
      else
        var magnitude: int := Magnitude(s, t);
        var exact := if t.negative then -magnitude else magnitude;
        var value := Clamp(exact, -LONG_MAX - 1, LONG_MAX);
        Parsed(value, t.end, if value == exact then Fine else Range)
  }

  /** strtoul: a minus sign negates modulo 2^64; too large a magnitude is the largest value. */
  function Unsigned(s: string, base: int): Parsed {
    if !ValidBase(base) then Parsed(0, UNSET, Invalid)
    else
      var t := SubjectOf(s, base);
      if t.start == t.end then Parsed(0, 0, Fine)
      else if ULONG_MAX < Magnitude(s, t) then Parsed(ULONG_MAX, t.end, Range)
      else Parsed(if t.negative then (ULONG_MAX + 1 - Magnitude(s, t)) % (ULONG_MAX + 1) else Magnitude(s, t), t.end, Fine)
  }

  // ----- What strings mean

  lemma SpacesEnd(s: string, n: nat)
    requires n <= |s| && (forall k :: 0 <= k < n ==> IsSpace(At(s, k))) && !IsSpace(At(s, n))
    ensures SkipSpaces(s, 0) == n
  {
  }

  lemma InSlice(s: string, i: nat, j: nat, base: nat)
    requires i <= j <= |s| && AllDigits(s[i..j], base)
    ensures forall k :: i <= k < j ==> IsDigit(s[k], base)
  {
    forall k | i <= k < j ensures IsDigit(s[k], base) { assert s[k] == s[i..j][k - i]; }
  }

  lemma DigitsStop(s: string, i: nat, j: nat, base: nat)
    requires i <= j <= |s| && AllDigits(s[i..j], base) && !IsDigit(At(s, j), base)
    ensures DigitsEnd(s, i, base) == j
  {
    InSlice(s, i, j, base);
    InSlice(s, i, DigitsEnd(s, i, base), base);
  }

  /** White space, a sign, a prefix, digits, and the rest of the string. */
  function Spelling(spaces: string, sign: string, prefix: string, digits: string, rest: string): string {
    spaces + sign + prefix + digits + rest
  }

  /** The five parts spell a number in `actual`, when the caller asks for `base`: a prefix, which only
      base 16 has and base 0 may have, or none, and then base 0 means octal after a leading 0. */
  predicate Spells(spaces: string, sign: string, prefix: string, digits: string, rest: string, base: nat, actual: nat) {
    && (forall k :: 0 <= k < |spaces| ==> IsSpace(spaces[k])) && (sign == "" || sign == "+" || sign == "-")
    && digits != "" && AllDigits(digits, actual) && !IsDigit(At(rest, 0), actual)
    && if prefix == "" then
         !((base == 0 || base == 16) && HexAt(digits + rest, 0)) && actual == if base != 0 then base else if digits[0] == '0' then 8 else 10
       else (prefix == "0x" || prefix == "0X") && (base == 0 || base == 16) && actual == 16
  }

  lemma SpellingAt(spaces: string, sign: string, prefix: string, digits: string, rest: string, k: nat)
    ensures var s := Spelling(spaces, sign, prefix, digits, rest); var a := |spaces| + |sign|; var b := a + |prefix|;
      && |s| == b + |digits| + |rest|
      && (k < |spaces| ==> At(s, k) == spaces[k]) && (|spaces| <= k < a ==> At(s, k) == sign[k - |spaces|])
      && (a <= k < b ==> At(s, k) == prefix[k - a]) && (b <= k ==> At(s, k) == At(digits + rest, k - b))
      && s[b..b + |digits|] == digits && (b + |digits| <= k ==> At(s, k) == At(rest, k - b - |digits|))
  {
  }

  lemma SpacesOfSpelling(spaces: string, sign: string, prefix: string, digits: string, rest: string, base: nat, actual: nat)
    requires Spells(spaces, sign, prefix, digits, rest, base, actual)
    ensures var s := Spelling(spaces, sign, prefix, digits, rest);
      SkipSpaces(s, 0) == |spaces| && SkipSign(s, |spaces|) == |spaces| + |sign| && (At(s, |spaces|) == '-' <==> sign == "-")
  {
    var s := Spelling(spaces, sign, prefix, digits, rest);
    hide Spelling, HexAt;
    forall k | 0 <= k <= |spaces| ensures k < |spaces| ==> IsSpace(At(s, k)) {
      SpellingAt(spaces, sign, prefix, digits, rest, k);
    }
    SpellingAt(spaces, sign, prefix, digits, rest, |spaces|);
    assert IsDigit(digits[0], actual) && At(digits + rest, 0) == digits[0];
    SpacesEnd(s, |spaces|);
  }

  lemma PrefixOfSpelling(spaces: string, sign: string, prefix: string, digits: string, rest: string, base: nat, actual: nat)
    requires Spells(spaces, sign, prefix, digits, rest, base, actual)
    ensures var s := Spelling(spaces, sign, prefix, digits, rest); var a := |spaces| + |sign|;
      ActualBase(s, a, base) == actual && SkipPrefix(s, a, base) == a + |prefix|
  {
    var a := |spaces| + |sign|;
    SpellingAt(spaces, sign, prefix, digits, rest, a);
    SpellingAt(spaces, sign, prefix, digits, rest, a + 1);
    SpellingAt(spaces, sign, prefix, digits, rest, a + 2);
    hide Spelling, IsSpace;
    assert IsDigit(digits[0], actual) && At(digits + rest, 0) == digits[0];
  }

  lemma DigitsOfSpelling(spaces: string, sign: string, prefix: string, digits: string, rest: string, base: nat, actual: nat)
    requires Spells(spaces, sign, prefix, digits, rest, base, actual)
    ensures var b := |spaces| + |sign| + |prefix|; var s := Spelling(spaces, sign, prefix, digits, rest);
      && 0 < |digits| && b + |digits| <= |s| && s[b..b + |digits|] == digits && AllDigits(digits, actual)
      && DigitsEnd(s, b, actual) == b + |digits|
  {
    hide Spelling, HexAt, IsSpace, AllDigits;
    var b := |spaces| + |sign| + |prefix|;
    SpellingAt(spaces, sign, prefix, digits, rest, b + |digits|);
    DigitsStop(Spelling(spaces, sign, prefix, digits, rest), b, b + |digits|, actual);
  }

  /** Such a string denotes the number of its digits. */
  lemma SubjectOfSpelling(spaces: string, sign: string, prefix: string, digits: string, rest: string, base: nat, actual: nat)
    requires Spells(spaces, sign, prefix, digits, rest, base, actual)
    ensures var start := |spaces| + |sign| + |prefix|; var s := Spelling(spaces, sign, prefix, digits, rest); var t := SubjectOf(s, base);
      0 < |digits| && t == Subject(sign == "-", actual, start, start + |digits|) && Magnitude(s, t) == Number(digits, actual)
  {
    hide Spelling, Spells, SkipSpaces, SkipSign, SkipPrefix, ActualBase, DigitsEnd, HexAt, Number, AllDigits, At, IsDigit;
    SpacesOfSpelling(spaces, sign, prefix, digits, rest, base, actual);
    PrefixOfSpelling(spaces, sign, prefix, digits, rest, base, actual);
    DigitsOfSpelling(spaces, sign, prefix, digits, rest, base, actual);
  }

  lemma DropAt(s: string, j: nat, k: nat)
    requires j <= |s|
    ensures At(s[j..], k) == At(s, j + k)
  {
  }

  lemma HexDropped(s: string, j: nat)
    requires j <= |s|
    ensures HexAt(s[j..], 0) <==> HexAt(s, j)
  {
    DropAt(s, j, 0);
    DropAt(s, j, 1);
    DropAt(s, j, 2);
  }

  lemma FiveParts(s: string, i: nat, j: nat, a: nat, b: nat)
    requires i <= j <= a <= b <= |s|
    ensures s == s[..i] + s[i..j] + s[j..a] + s[a..b] + s[b..]
  {
  }

  lemma SpacesAndSign(s: string)
    ensures var i := SkipSpaces(s, 0); var j := SkipSign(s, i);
      && i <= j <= |s| && (forall k :: 0 <= k < i ==> IsSpace(s[..i][k])) && (s[i..j] == "" || s[i..j] == "+" || s[i..j] == "-")
  {
    var i := SkipSpaces(s, 0);
    forall k | 0 <= k < i ensures IsSpace(s[..i][k]) { assert IsSpace(At(s, k)); }
  }

  /** The prefix and the base of what begins at j and has its digits from a to b. */
  lemma PrefixAndBase(s: string, j: nat, base: nat, a: nat, b: nat)
    requires a == SkipPrefix(s, j, base) && a < b <= |s| && j <= |s|
    ensures j <= a
    ensures if s[j..a] == "" then
              && !((base == 0 || base == 16) && HexAt(s[a..b] + s[b..], 0))
              && ActualBase(s, j, base) == if base != 0 then base else if s[a..b][0] == '0' then 8 else 10
            else (s[j..a] == "0x" || s[j..a] == "0X") && (base == 0 || base == 16) && ActualBase(s, j, base) == 16
  {
    assert s[a..b] + s[b..] == s[a..];
    HexDropped(s, a);
    if a != j {
      assert s[j..a] == [s[j], s[j + 1]];
    }
  }

  /** And every string that denotes a number is such a string. */
  lemma SubjectIsSpelled(s: string, base: nat) returns (spaces: string, sign: string, prefix: string, digits: string, rest: string)
    requires SubjectOf(s, base).start < SubjectOf(s, base).end
    ensures s == Spelling(spaces, sign, prefix, digits, rest) && Spells(spaces, sign, prefix, digits, rest, base, SubjectOf(s, base).base)
  {
    hide SkipSpaces, SkipSign, SkipPrefix, ActualBase, HexAt, IsSpace, AllDigits, IsDigit, DigitsEnd, At;
    var t := SubjectOf(s, base);
    var i := SkipSpaces(s, 0);
    var j := SkipSign(s, i);
    SpacesAndSign(s);
    PrefixAndBase(s, j, base, t.start, t.end);
    spaces, sign, prefix, digits, rest := s[..i], s[i..j], s[j..t.start], s[t.start..t.end], s[t.end..];
    FiveParts(s, i, j, t.start, t.end);
    DropAt(s, t.end, 0);
  }

  /** strtol in any base: the exact value, or the end of the range that it lies beyond. */
  lemma LongOfSpelling(spaces: string, sign: string, prefix: string, digits: string, rest: string, base: nat, actual: nat)
    requires ValidBase(base) && Spells(spaces, sign, prefix, digits, rest, base, actual)
    ensures var p, end := Long(Spelling(spaces, sign, prefix, digits, rest), base), |spaces| + |sign| + |prefix| + |digits|;
      var v: int := if sign == "-" then -(Number(digits, actual) as int) else Number(digits, actual);
      p == if LONG_MAX < v then Parsed(LONG_MAX, end, Range)
           else if v < -LONG_MAX - 1 then Parsed(-LONG_MAX - 1, end, Range) else Parsed(v, end, Fine)
  {
    hide Spelling, Spells, SubjectOf, Magnitude, Number;
    SubjectOfSpelling(spaces, sign, prefix, digits, rest, base, actual);
  }

  /** strtoul in any base: the value or its negative modulo 2^64, or the largest value if the digits exceed it. */
  lemma UnsignedOfSpelling(spaces: string, sign: string, prefix: string, digits: string, rest: string, base: nat, actual: nat)
    requires ValidBase(base) && Spells(spaces, sign, prefix, digits, rest, base, actual)
    ensures var p, v := Unsigned(Spelling(spaces, sign, prefix, digits, rest), base), Number(digits, actual);
      && p.end == |spaces| + |sign| + |prefix| + |digits| && 0 <= p.value <= ULONG_MAX
      && (if ULONG_MAX < v then p.value == ULONG_MAX && p.error == Range
          else p.error == Fine && if sign == "-" then (p.value + v) % (ULONG_MAX + 1) == 0 else p.value == v)
  {
    hide Spelling, Spells, SubjectOf, Magnitude, Number;
    SubjectOfSpelling(spaces, sign, prefix, digits, rest, base, actual);
  }

  /** A bad base is refused; a string that spells no number converts to 0 and nothing of it is taken. */
  lemma NothingToRead(s: string, base: int)
    ensures !ValidBase(base) ==> Long(s, base) == Unsigned(s, base) == Parsed(0, UNSET, Invalid)
    ensures ValidBase(base) && (forall spaces, sign, prefix, digits, rest, actual ::
              s == Spelling(spaces, sign, prefix, digits, rest) ==> !Spells(spaces, sign, prefix, digits, rest, base, actual)) ==>
      Long(s, base) == Unsigned(s, base) == Parsed(0, 0, Fine)
  {
    if ValidBase(base) && SubjectOf(s, base).start < SubjectOf(s, base).end {
      hide SubjectOf;
      var spaces, sign, prefix, digits, rest := SubjectIsSpelled(s, base);
    }
  }

  // ----- The code

  /** The base the string itself asks for, and where its digits begin. */
  method FindBase(s: string, i: nat, base: nat) returns (actual: nat, at: nat)
    ensures actual == ActualBase(s, i, base) && at == SkipPrefix(s, i, base)
  {
    actual, at := base, i;
    if base == 0 {
      if At(s, i) == '0' {
        if At(s, i + 1) == 'x' || At(s, i + 1) == 'X' {
          var next := DigitValue(At(s, i + 2));
          if 0 <= next < 16 {
            actual, at := 16, i + 2;
          } else {
            actual := 8;
          }
        } else {
          actual := 8;
        }
      } else {
        actual := 10;
      }
    } else if base == 16 && At(s, i) == '0' && (At(s, i + 1) == 'x' || At(s, i + 1) == 'X') {
      var next := DigitValue(At(s, i + 2));
      if 0 <= next < 16 {
        at := i + 2;
      }
    }
  }

  method FindSubject(s: string, base: nat) returns (negative: bool, actual: nat, at: nat)
    ensures var t := SubjectOf(s, base); negative == t.negative && actual == t.base && at == t.start
  {
    hide ActualBase, SkipPrefix, DigitsEnd;
    var i := 0;
    while IsSpace(At(s, i))
      invariant i <= |s| && SkipSpaces(s, 0) == SkipSpaces(s, i)
      decreases |s| - i
    {
      i := i + 1;
    }
    negative := At(s, i) == '-';
    if At(s, i) == '+' || At(s, i) == '-' {
      i := i + 1;
    }
    actual, at := FindBase(s, i, base);
  }

  /** The digit loop, whose test stops before the accumulator can exceed the limit. */
  method Accumulate(s: string, start: nat, base: nat, limit: nat) returns (value: nat, overflow: bool, end: nat)
    requires start <= |s| && 2 <= base <= 36 <= limit
    ensures end == DigitsEnd(s, start, base) && (overflow <==> limit < Number(s[start..end], base))
    ensures !overflow ==> value == Number(s[start..end], base)
  {
    value, overflow, end := 0, false, start;
    assert s[start..start] == [] && Number([], base) == 0;
    while IsDigit(At(s, end), base)
      invariant start <= end <= |s| && DigitsEnd(s, start, base) == DigitsEnd(s, end, base)
      invariant AllDigits(s[start..end], base) && (overflow <==> limit < Number(s[start..end], base))
      invariant !overflow ==> value == Number(s[start..end], base) <= limit
      decreases |s| - end
    {
      EndIsInside(s, end, base);
      var digit := DigitValue(s[end]);
      ghost var before := s[start..end];
      assert s[start..end + 1] == before + [s[end]];
      NumberGrows(before, s[end], base);
      Appended(before, s[end], base);
      if !overflow {
        OverflowTest(value, limit, digit, base);
        if (limit - digit) / base < value {
          overflow := true;
        } else {
          value := value * base + digit;
        }
      }
      end := end + 1;
    }
  }

  lemma EndIsInside(s: string, i: nat, base: nat)
    requires IsDigit(At(s, i), base)
    ensures i < |s|
  {
    assert DigitValue('\0') == -1;
  }

  /** Comparing before multiplying decides exactly. */
  lemma OverflowTest(value: nat, limit: nat, digit: nat, base: nat)
    requires 0 < base && digit <= limit
    ensures (limit - digit) / base < value <==> limit < value * base + digit
  {
    var q := (limit - digit) / base;
    DivMod(limit - digit, base);
    if q < value {
      assert (q + 1) * base <= value * base by { MulMonotone(q + 1, value, base); }
      assert (q + 1) * base == q * base + base;
    } else {
      MulMonotone(value, q, base);
    }
  }

  lemma MulMonotone(a: nat, b: nat, base: nat)
    requires a <= b
    ensures a * base <= b * base
  {
  }

  method StrToL(s: string, base: int) returns (p: Parsed)
    ensures p == Long(s, base)
  {
    if base != 0 && (base < 2 || 36 < base) {
      return Parsed(0, UNSET, Invalid);
    }
    var negative, actual, at := FindSubject(s, base);
    var limit := if negative then LONG_MAX + 1 else LONG_MAX;
    BaseIsActual(s, base);
    var value, overflow, end := Accumulate(s, at, actual, limit);
    if end == at {
      return Parsed(0, 0, Fine);
    }
    if overflow {
      return Parsed(if negative then -LONG_MAX - 1 else LONG_MAX, end, Range);
    }
    if negative {
      if value == LONG_MAX + 1 {
        return Parsed(-LONG_MAX - 1, end, Fine);
      }
      var magnitude: int := value;
      return Parsed(-magnitude, end, Fine);
    }
    return Parsed(value, end, Fine);
  }

  lemma BaseIsActual(s: string, base: nat)
    requires ValidBase(base)
    ensures 2 <= SubjectOf(s, base).base <= 36
  {
  }

  method StrToUL(s: string, base: int) returns (p: Parsed)
    ensures p == Unsigned(s, base)
  {
    if base != 0 && (base < 2 || 36 < base) {
      return Parsed(0, UNSET, Invalid);
    }
    var negative, actual, at := FindSubject(s, base);
    BaseIsActual(s, base);
    var value, overflow, end := Accumulate(s, at, actual, ULONG_MAX);
    if end == at {
      return Parsed(0, 0, Fine);
    }
    if overflow {
      return Parsed(ULONG_MAX, end, Range);
    }
    if negative {
      return Parsed((ULONG_MAX + 1 - value) % (ULONG_MAX + 1), end, Fine);
    }
    return Parsed(value, end, Fine);
  }
}
