/** The subject sequence of strtod, section 7.22.1.3 of C11, as a grammar, and where the code's
    scan of a string ends.  The scan finds the longest prefix that the grammar allows. */
module FloatGrammar {
  import opened Numerals
  import opened IntegerParse

  datatype Option<T> = None | Some(value: T)

  /** Equal to a lower-case letter in either case. */
  predicate SameLetter(c: char, lower: char)
    requires 'a' <= lower <= 'z'
  {
    c == lower || c as int == lower as int - 32
  }

  predicate IsWord(w: string) { forall i :: 0 <= i < |w| ==> 'a' <= w[i] <= 'z' }

  predicate SameWord(t: string, w: string)
    requires IsWord(w)
  {
    |t| == |w| && forall i :: 0 <= i < |t| ==> SameLetter(t[i], w[i])
  }

  // ----- The grammar

  /** Digits with at most one point. */
  predicate DigitsAndPoint(t: string, base: nat) {
    && (forall j :: 0 <= j < |t| ==> IsDigit(t[j], base) || t[j] == '.')
    && (forall j, k :: 0 <= j < k < |t| && t[j] == '.' ==> t[k] != '.')
  }

  /** ... and at least one digit. */
  predicate Mantissa(t: string, base: nat) {
    DigitsAndPoint(t, base) && exists j :: 0 <= j < |t| && IsDigit(t[j], base)
  }

  function AfterSign(t: string): string { if t != "" && (t[0] == '+' || t[0] == '-') then t[1..] else t }

  predicate ExponentPart(t: string, marker: char)
    requires 'a' <= marker <= 'z'
  {
    t != "" && SameLetter(t[0], marker) && AfterSign(t[1..]) != "" && AllDigits(AfterSign(t[1..]), 10)
  }

  /** A mantissa up to m and an exponent from there on. */
  predicate SplitsAt(t: string, m: nat, base: nat, marker: char)
    requires 'a' <= marker <= 'z' && m < |t|
  {
    Mantissa(t[..m], base) && ExponentPart(t[m..], marker)
  }

  predicate Floating(t: string, base: nat, marker: char)
    requires 'a' <= marker <= 'z'
  {
    Mantissa(t, base) || exists m :: 0 <= m < |t| && SplitsAt(t, m, base, marker)
  }

  predicate Hexadecimal(t: string) {
    2 <= |t| && t[0] == '0' && SameLetter(t[1], 'x') && Floating(t[2..], 16, 'p')
  }

  predicate Infinity(t: string) { SameWord(t, "inf") || SameWord(t, "infinity") }

  predicate PayloadChar(c: char) { IsDigit(c, 36) || c == '_' }

  predicate Nan(t: string) {
    || SameWord(t, "nan")
    || (5 <= |t| && SameWord(t[..3], "nan") && t[3] == '(' && t[|t| - 1] == ')' && forall j :: 4 <= j < |t| - 1 ==> PayloadChar(t[j]))
  }

  predicate UnsignedFloat(t: string) { Floating(t, 10, 'e') || Hexadecimal(t) || Infinity(t) || Nan(t) }

  predicate SubjectSequence(t: string) { UnsignedFloat(AfterSign(t)) }

  // ----- The scan

  function MantissaEnd(s: string, i: nat, point: bool, base: nat): (j: nat)
    requires i <= |s|
    ensures i <= j <= |s|
    decreases |s| - i
  {
    if i < |s| && IsDigit(s[i], base) then MantissaEnd(s, i + 1, point, base)
    else if i < |s| && s[i] == '.' && !point then MantissaEnd(s, i + 1, true, base)
    else i
  }

  predicate HasDigit(s: string, i: nat, j: nat, base: nat)
    requires i <= j <= |s|
  {
    exists k :: i <= k < j && IsDigit(s[k], base)
  }

  /** The end of the exponent at i; i itself if there is none. */
  function ExponentEnd(s: string, i: nat, marker: char): (j: nat)
    requires i <= |s| && 'a' <= marker <= 'z'
    ensures i <= j <= |s|
  {
    if i < |s| && SameLetter(s[i], marker) then
      var k := SkipSign(s, i + 1);
      if DigitsEnd(s, k, 10) == k then i else DigitsEnd(s, k, 10)
    else i
  }

  function FloatingEnd(s: string, i: nat, base: nat, marker: char): (e: Option<nat>)
    requires i <= |s| && 'a' <= marker <= 'z'
    ensures e.Some? ==> i <= e.value <= |s|
  {
    var m := MantissaEnd(s, i, false, base);
    if HasDigit(s, i, m, base) then Some(ExponentEnd(s, m, marker)) else None
  }

  /** The bases and exponent letters that go together. */
  predicate Pair(base: nat, marker: char) { (base == 10 && marker == 'e') || (base == 16 && marker == 'p') }

  // ----- The mantissa scan is greedy

  predicate Plain(s: string, i: nat, k: nat, point: bool, base: nat)
    requires i <= k <= |s|
  {
    && (forall j :: i <= j < k ==> IsDigit(s[j], base) || (s[j] == '.' && !point))
    && (forall j, l :: i <= j < l < k && s[j] == '.' ==> s[l] != '.')
  }

  lemma PlainSlice(s: string, i: nat, k: nat, base: nat)
    requires i <= k <= |s|
    ensures DigitsAndPoint(s[i..k], base) <==> Plain(s, i, k, false, base)
    ensures Mantissa(s[i..k], base) <==> Plain(s, i, k, false, base) && HasDigit(s, i, k, base)
  {
    var t := s[i..k];
    assert forall j :: i <= j < k ==> s[j] == t[j - i];
    assert forall j :: 0 <= j < |t| ==> t[j] == s[i + j];
  }

  lemma {:induction false} MantissaPlain(s: string, i: nat, point: bool, base: nat)
    requires i <= |s| && base <= 36
    ensures Plain(s, i, MantissaEnd(s, i, point, base), point, base)
    decreases |s| - i
  {
    if i < |s| && IsDigit(s[i], base) { MantissaPlain(s, i + 1, point, base); }
    else if i < |s| && s[i] == '.' && !point { MantissaPlain(s, i + 1, true, base); }
  }

  lemma {:induction false} MantissaLongest(s: string, i: nat, k: nat, point: bool, base: nat)
    requires i <= k <= |s| && Plain(s, i, k, point, base)
    ensures k <= MantissaEnd(s, i, point, base)
    decreases |s| - i
  {
    if i < k {
      if IsDigit(s[i], base) { MantissaLongest(s, i + 1, k, point, base); }
      else { MantissaLongest(s, i + 1, k, true, base); }
    }
  }

  /** Nothing that continues a mantissa stands at its end, so an exponent letter can only stand there. */
  lemma LetterEndsMantissa(s: string, i: nat, k: nat, base: nat, marker: char)
    requires i <= k < |s| && Pair(base, marker) && Plain(s, i, k, false, base) && SameLetter(s[k], marker)
    ensures MantissaEnd(s, i, false, base) == k
  {
    var m := MantissaEnd(s, i, false, base);
    MantissaLongest(s, i, k, false, base);
    MantissaPlain(s, i, false, base);
    assert !(IsDigit(s[k], base) || s[k] == '.');
  }

  // ----- The exponent scan is greedy

  lemma AfterSignSlice(s: string, j: nat, k: nat)
    requires j < k <= |s|
    ensures j <= SkipSign(s, j) <= k && AfterSign(s[j..k]) == s[SkipSign(s, j)..k]
  {
    assert s[j..k][0] == s[j] && s[j..k][1..] == s[j + 1..k];
  }

  lemma DigitsGreedy(s: string, i: nat, k: nat, base: nat)
    requires i <= k <= |s| && AllDigits(s[i..k], base)
    ensures k <= DigitsEnd(s, i, base)
  {
    var e := DigitsEnd(s, i, base);
    assert forall j :: i <= j < k ==> IsDigit(s[j], base) by {
      forall j | i <= j < k ensures IsDigit(s[j], base) { assert s[j] == s[i..k][j - i]; }
    }
  }

  lemma ExponentLongest(s: string, m: nat, k: nat, marker: char)
    requires m <= k <= |s| && 'a' <= marker <= 'z' && ExponentPart(s[m..k], marker)
    ensures k <= ExponentEnd(s, m, marker)
  {
    assert s[m..k][0] == s[m] && s[m..k][1..] == s[m + 1..k];
    AfterSignSlice(s, m + 1, k);
    DigitsGreedy(s, SkipSign(s, m + 1), k, 10);
  }

  lemma ExponentIsPart(s: string, m: nat, marker: char)
    requires m <= |s| && 'a' <= marker <= 'z' && ExponentEnd(s, m, marker) != m
    ensures ExponentPart(s[m..ExponentEnd(s, m, marker)], marker)
  {
    var e := ExponentEnd(s, m, marker);
    assert s[m..e][0] == s[m] && s[m..e][1..] == s[m + 1..e];
    AfterSignSlice(s, m + 1, e);
  }

  // ----- The longest floating constant

  lemma FloatingIsOne(s: string, i: nat, base: nat, marker: char)
    requires i <= |s| && Pair(base, marker) && FloatingEnd(s, i, base, marker).Some?
    ensures Floating(s[i..FloatingEnd(s, i, base, marker).value], base, marker)
  {
    var m, e := MantissaEnd(s, i, false, base), FloatingEnd(s, i, base, marker).value;
    MantissaPlain(s, i, false, base);
    PlainSlice(s, i, m, base);
    if e != m {
      ExponentIsPart(s, m, marker);
      var t := s[i..e];
      assert t[..m - i] == s[i..m] && t[m - i..] == s[m..e];
      assert SplitsAt(t, m - i, base, marker);
    }
  }

  lemma MantissaFits(s: string, i: nat, k: nat, base: nat, marker: char)
    requires i <= k <= |s| && Pair(base, marker) && Mantissa(s[i..k], base)
    ensures FloatingEnd(s, i, base, marker).Some? && k <= FloatingEnd(s, i, base, marker).value
  {
    PlainSlice(s, i, k, base);
    hide Mantissa;
    MantissaLongest(s, i, k, false, base);
  }

  lemma ExponentFits(s: string, i: nat, j: nat, k: nat, base: nat, marker: char)
    requires i <= j < k <= |s| && Pair(base, marker) && Mantissa(s[i..j], base) && ExponentPart(s[j..k], marker)
    ensures FloatingEnd(s, i, base, marker).Some? && k <= FloatingEnd(s, i, base, marker).value
  {
    assert s[j..k][0] == s[j];
    ExponentLongest(s, j, k, marker);
    PlainSlice(s, i, j, base);
    LetterEndsMantissa(s, i, j, base, marker);
    hide Mantissa, ExponentPart, ExponentEnd, MantissaEnd, Plain;
  }

  lemma SplitsInRange(s: string, i: nat, k: nat, n: nat, base: nat, marker: char)
    requires i + n < k <= |s| && Pair(base, marker) && SplitsAt(s[i..k], n, base, marker)
    ensures Mantissa(s[i..i + n], base) && ExponentPart(s[i + n..k], marker)
  {
    hide Mantissa, ExponentPart;
    assert s[i..k][..n] == s[i..i + n] && s[i..k][n..] == s[i + n..k];
  }

  lemma FloatingParts(t: string, base: nat, marker: char) returns (n: nat)
    requires Pair(base, marker) && Floating(t, base, marker) && !Mantissa(t, base)
    ensures n < |t| && SplitsAt(t, n, base, marker)
  {
    hide Mantissa, SplitsAt;
    n :| n < |t| && SplitsAt(t, n, base, marker);
  }

  lemma FloatingLongest(s: string, i: nat, k: nat, base: nat, marker: char)
    requires i <= k <= |s| && Pair(base, marker) && Floating(s[i..k], base, marker)
    ensures FloatingEnd(s, i, base, marker).Some? && k <= FloatingEnd(s, i, base, marker).value
  {
    hide FloatingEnd, Mantissa, ExponentPart, Floating, SplitsAt;
    if Mantissa(s[i..k], base) {
      MantissaFits(s, i, k, base, marker);
    } else {
      var n := FloatingParts(s[i..k], base, marker);
      SplitsInRange(s, i, k, n, base, marker);
      ExponentFits(s, i, i + n, k, base, marker);
    }
  }

  // ----- Words

  /** Whether the word stands at i. */
  predicate WordAt(s: string, i: nat, w: string)
    requires IsWord(w)
  {
    i + |w| <= |s| && SameWord(s[i..i + |w|], w)
  }

  function PayloadEnd(s: string, i: nat): (j: nat)
    requires i <= |s|
    ensures i <= j <= |s| && (forall k :: i <= k < j ==> PayloadChar(s[k])) && !PayloadChar(At(s, j))
    decreases |s| - i
  {
    if i < |s| && PayloadChar(s[i]) then PayloadEnd(s, i + 1) else i
  }

  function InfinityEnd(s: string, i: nat): Option<nat>
    requires i <= |s|
  {
    if WordAt(s, i, "infinity") then Some(i + 8) else if WordAt(s, i, "inf") then Some(i + 3) else None
  }

  function NanEnd(s: string, i: nat): Option<nat>
    requires i <= |s|
  {
    if !WordAt(s, i, "nan") then None
    else if At(s, i + 3) == '(' && At(s, PayloadEnd(s, i + 4)) == ')' then Some(PayloadEnd(s, i + 4) + 1)
    else Some(i + 3)
  }

  function HexEnd(s: string, i: nat): (e: Option<nat>)
    requires i <= |s|
  {
    if At(s, i) == '0' && SameLetter(At(s, i + 1), 'x') then FloatingEnd(s, i + 2, 16, 'p') else None
  }

  /** Where the constant at i ends: the code's choice by first character, with the back-out from a bare prefix. */
  function UnsignedEnd(s: string, i: nat): Option<nat>
    requires i <= |s|
  {
    if SameLetter(At(s, i), 'i') then InfinityEnd(s, i)
    else if SameLetter(At(s, i), 'n') then NanEnd(s, i)
    else if HexEnd(s, i).Some? then HexEnd(s, i)
    else FloatingEnd(s, i, 10, 'e')
  }

  function SubjectEnd(s: string, i: nat): Option<nat>
    requires i <= |s|
  {
    UnsignedEnd(s, SkipSign(s, i))
  }

  /** e, if there is one, ends the longest t from i on for which P holds. */
  ghost predicate Longest(s: string, i: nat, e: Option<nat>, P: string -> bool)
    requires i <= |s|
  {
    && (e.Some? ==> i <= e.value <= |s| && P(s[i..e.value]))
    && forall k :: i <= k <= |s| && P(s[i..k]) ==> e.Some? && k <= e.value
  }

  lemma InfinityLongest(s: string, i: nat)
    requires i <= |s|
    ensures Longest(s, i, InfinityEnd(s, i), Infinity)
  {
    if WordAt(s, i, "infinity") { assert Infinity(s[i..i + 8]); }
    if WordAt(s, i, "inf") { assert Infinity(s[i..i + 3]); }
    forall k | i <= k <= |s| && Infinity(s[i..k]) ensures InfinityEnd(s, i).Some? && k <= InfinityEnd(s, i).value {
      if SameWord(s[i..k], "inf") { assert k == i + 3; } else { assert k == i + 8; }
    }
  }

  lemma NanLongest(s: string, i: nat)
    requires i <= |s|
    ensures Longest(s, i, NanEnd(s, i), Nan)
  {
    var e := NanEnd(s, i);
    if e.Some? { NanIsOne(s, i); }
    forall k | i <= k <= |s| && Nan(s[i..k]) ensures e.Some? && k <= e.value { NanFits(s, i, k); }
  }

  lemma NanIsOne(s: string, i: nat)
    requires i <= |s| && NanEnd(s, i).Some?
    ensures NanEnd(s, i).value <= |s| && Nan(s[i..NanEnd(s, i).value])
  {
    var e := NanEnd(s, i).value;
    if e != i + 3 {
      var t := s[i..e];
      assert t[..3] == s[i..i + 3] && t[3] == s[i + 3] && t[|t| - 1] == s[e - 1];
      assert forall j :: 4 <= j < |t| - 1 ==> t[j] == s[i + j];
    }
  }

  lemma NanFits(s: string, i: nat, k: nat)
    requires i <= k <= |s| && Nan(s[i..k])
    ensures NanEnd(s, i).Some? && k <= NanEnd(s, i).value
  {
    var t := s[i..k];
    if !SameWord(t, "nan") {
      assert t[..3] == s[i..i + 3] && t[3] == s[i + 3] && t[|t| - 1] == s[k - 1];
      forall j | i + 4 <= j < k - 1 ensures PayloadChar(s[j]) { assert s[j] == t[j - i]; }
      PayloadStops(s, i + 4, k - 1);
    }
  }

  lemma PayloadStops(s: string, i: nat, k: nat)
    requires i <= k < |s| && (forall j :: i <= j < k ==> PayloadChar(s[j])) && s[k] == ')'
    ensures PayloadEnd(s, i) == k
  {
    assert !PayloadChar(')');
  }

  lemma DecimalLongest(s: string, i: nat)
    requires i <= |s|
    ensures Longest(s, i, FloatingEnd(s, i, 10, 'e'), t => Floating(t, 10, 'e'))
  {
    var e := FloatingEnd(s, i, 10, 'e');
    if e.Some? { FloatingIsOne(s, i, 10, 'e'); }
    forall k | i <= k <= |s| && Floating(s[i..k], 10, 'e') ensures e.Some? && k <= e.value { FloatingLongest(s, i, k, 10, 'e'); }
  }

  lemma HexLongest(s: string, i: nat)
    requires i <= |s|
    ensures Longest(s, i, HexEnd(s, i), Hexadecimal)
  {
    hide Floating, FloatingEnd;
    var e := HexEnd(s, i);
    if e.Some? {
      FloatingIsOne(s, i + 2, 16, 'p');
      var t := s[i..e.value];
      assert t[2..] == s[i + 2..e.value] && t[0] == s[i] && t[1] == s[i + 1];
    }
    forall k | i <= k <= |s| && Hexadecimal(s[i..k]) ensures e.Some? && k <= e.value {
      var t := s[i..k];
      assert t[2..] == s[i + 2..k] && t[0] == s[i] && t[1] == s[i + 1];
      FloatingLongest(s, i + 2, k, 16, 'p');
    }
  }

  // ----- One scan for all kinds

  /** The first character tells the kind. */
  lemma FirstCharacter(t: string)
    ensures Floating(t, 10, 'e') ==> t != "" && (IsDigit(t[0], 10) || t[0] == '.')
    ensures Hexadecimal(t) ==> t != "" && t[0] == '0'
    ensures Infinity(t) ==> t != "" && SameLetter(t[0], 'i')
    ensures Nan(t) ==> t != "" && SameLetter(t[0], 'n')
  {
    if Floating(t, 10, 'e') && !Mantissa(t, 10) {
      var m: nat :| m < |t| && SplitsAt(t, m, 10, 'e');
      assert t[..m] != "" && t[..m][0] == t[0];
    }
    if Nan(t) && 5 <= |t| { assert t[..3][0] == t[0]; }
  }

  /** A hexadecimal constant is longer than the zero it begins with. */
  lemma HexBeatsZero(s: string, i: nat, k: nat)
    requires i <= k <= |s| && HexEnd(s, i).Some? && Floating(s[i..k], 10, 'e')
    ensures k <= HexEnd(s, i).value
  {
    FloatingLongest(s, i, k, 10, 'e');
    assert MantissaEnd(s, i, false, 10) == MantissaEnd(s, i + 1, false, 10) == i + 1;
    assert ExponentEnd(s, i + 1, 'e') == i + 1;
  }

  lemma UnsignedFits(s: string, i: nat, k: nat)
    requires i <= k <= |s| && UnsignedFloat(s[i..k])
    ensures UnsignedEnd(s, i).Some? && k <= UnsignedEnd(s, i).value
  {
    var t := s[i..k];
    FirstCharacter(t);
    assert i < k && t[0] == s[i] == At(s, i);
    InfinityLongest(s, i);
    NanLongest(s, i);
    DecimalLongest(s, i);
    HexLongest(s, i);
    hide Floating, Hexadecimal, Infinity, Nan, FloatingEnd, InfinityEnd, NanEnd, HexEnd;
    if Infinity(t) || Nan(t) || Hexadecimal(t) {
    } else if HexEnd(s, i).Some? {
      HexBeatsZero(s, i, k);
    }
  }

  lemma UnsignedLongest(s: string, i: nat)
    requires i <= |s|
    ensures Longest(s, i, UnsignedEnd(s, i), UnsignedFloat)
  {
    var e := UnsignedEnd(s, i);
    InfinityLongest(s, i);
    NanLongest(s, i);
    DecimalLongest(s, i);
    HexLongest(s, i);
    forall k | i <= k <= |s| && UnsignedFloat(s[i..k]) ensures e.Some? && k <= e.value { UnsignedFits(s, i, k); }
    hide Floating, Hexadecimal, Infinity, Nan, FloatingEnd, InfinityEnd, NanEnd, HexEnd;
  }

  /** The end of the subject sequence is the end of the longest prefix that the grammar allows; there
      is none exactly when no prefix is a subject sequence. */
  lemma SubjectLongest(s: string, i: nat)
    requires i <= |s|
    ensures Longest(s, i, SubjectEnd(s, i), SubjectSequence)
  {
    hide UnsignedFloat, UnsignedEnd;
    var e, j := SubjectEnd(s, i), SkipSign(s, i);
    UnsignedLongest(s, j);
    if e.Some? {
      NotEmpty(s[j..e.value]);
      AfterSignSlice(s, i, e.value);
    }
    forall k | i <= k <= |s| && SubjectSequence(s[i..k]) ensures e.Some? && k <= e.value {
      NotEmpty(AfterSign(s[i..k]));
      AfterSignSlice(s, i, k);
    }
  }

  lemma NotEmpty(t: string)
    ensures UnsignedFloat(t) ==> t != ""
  {
    FirstCharacter(t);
  }
}
