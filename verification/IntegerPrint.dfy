/** The integer conversions of the printf family: digits, sign, prefix, zeros and padding, emitted
    piece by piece into a bounded buffer, and read back by strtol and strtoul. */
module IntegerPrint {
  import opened Numerals
  import opened IntegerParse

  const INT_MAX := 0x7fff_ffff
  const PAD_CHUNK := 16

  datatype Spec = Spec(left: bool, plus: bool, space: bool, alternate: bool, zero: bool,
                       width: nat, precisionSet: bool, precision: nat)

  /** A conversion's value and kind. */
  datatype Conversion = Conversion(magnitude: nat, negative: bool, base: nat, uppercase: bool, signed: bool)

  predicate IsConversion(c: Conversion) {
    && c.magnitude <= ULONG_MAX && (c.negative ==> c.signed) && (c.base == 8 || c.base == 10 || c.base == 16)
    && (c.signed ==> c.base == 10)
  }

  // ----- The text of a number

  function Digits(spec: Spec, c: Conversion): (s: string)
    requires IsConversion(c)
  {
    if spec.precisionSet && spec.precision == 0 && c.magnitude == 0 then
      if spec.alternate && c.base == 8 then "0" else ""
    else Numeral(c.magnitude, c.base, c.uppercase)
  }

  function Sign(spec: Spec, c: Conversion): (s: string)
    ensures |s| <= 1
  {
    if !c.signed then "" else if c.negative then "-" else if spec.plus then "+" else if spec.space then " " else ""
  }

  function Prefix(spec: Spec, c: Conversion): (s: string)
    ensures |s| <= 2
  {
    if spec.alternate && c.base == 16 && c.magnitude != 0 then if c.uppercase then "0X" else "0x" else ""
  }

  /** The zeros that precision and the octal flag ask for. */
  function PrecisionZeros(spec: Spec, c: Conversion): nat
    requires IsConversion(c)
  {
    var digits := if spec.precisionSet && spec.precision == 0 && c.magnitude == 0 then "" else Numeral(c.magnitude, c.base, c.uppercase);
    if spec.precisionSet && |digits| < spec.precision then spec.precision - |digits|
    else if spec.alternate && c.base == 8 && digits != "" && digits[0] != '0' then 1
    else 0
  }

  function BodyLength(spec: Spec, c: Conversion): nat
    requires IsConversion(c)
  {
    |Sign(spec, c)| + |Prefix(spec, c)| + PrecisionZeros(spec, c) + |Digits(spec, c)|
  }

  function Padding(spec: Spec, c: Conversion): nat
    requires IsConversion(c)
  {
    if BodyLength(spec, c) < spec.width then spec.width - BodyLength(spec, c) else 0
  }

  /** Whether the padding is zeros. */
  predicate ZeroPadded(spec: Spec) { spec.zero && !spec.left && !spec.precisionSet }

  function Before(spec: Spec, c: Conversion): string
    requires IsConversion(c)
  {
    if spec.left || ZeroPadded(spec) then "" else Repeat(' ', Padding(spec, c))
  }

  function Zeros(spec: Spec, c: Conversion): nat
    requires IsConversion(c)
  {
    (if ZeroPadded(spec) then Padding(spec, c) else 0) + PrecisionZeros(spec, c)
  }

  function After(spec: Spec, c: Conversion): string
    requires IsConversion(c)
  {
    if spec.left then Repeat(' ', Padding(spec, c)) else ""
  }

  /** Everything that emit_number writes. */
  function NumberText(spec: Spec, c: Conversion): string
    requires IsConversion(c)
  {
    Before(spec, c) + Sign(spec, c) + Prefix(spec, c) + Repeat('0', Zeros(spec, c)) + Digits(spec, c) + After(spec, c)
  }

  /** The text fills the field: it is as wide as asked, or as its body. */
  lemma FillsField(spec: Spec, c: Conversion)
    requires IsConversion(c)
    ensures |NumberText(spec, c)| == if BodyLength(spec, c) < spec.width then spec.width else BodyLength(spec, c)
  {
    hide Numeral;
  }

  /** The text between the padding. */
  function Body(spec: Spec, c: Conversion): string
    requires IsConversion(c)
  {
    NumberText(spec.(width := 0), c)
  }

  /** Padding: spaces behind with the minus flag; else zeros between sign or prefix and digits with the
      zero flag and no precision; else spaces in front. */
  lemma Justified(spec: Spec, c: Conversion)
    requires IsConversion(c)
    ensures var s, b := NumberText(spec, c), Body(spec, c); var k := if |b| < spec.width then spec.width - |b| else 0; var h := |Sign(spec, c)| + |Prefix(spec, c)|;
      h <= |b| && s == if spec.left then b + Repeat(' ', k)
                       else if spec.zero && !spec.precisionSet then b[..h] + Repeat('0', k) + b[h..]
                       else Repeat(' ', k) + b
  {
    hide Body, BodyLength, PrecisionZeros, Digits, Sign, Prefix;
    NoPadding(spec, c);
    var z, k, head := PrecisionZeros(spec, c), Padding(spec, c), Sign(spec, c) + Prefix(spec, c);
    var tail := Repeat('0', z) + Digits(spec, c);
    assert Body(spec, c) == head + tail;
    JustifiedText(spec, c, k, z, head, tail);
    hide NumberText, Padding;
    assert (head + tail)[..|head|] == head && (head + tail)[|head|..] == tail;
  }

  lemma JustifiedText(spec: Spec, c: Conversion, k: nat, z: nat, head: string, tail: string)
    requires IsConversion(c) && k == Padding(spec, c) && z == PrecisionZeros(spec, c)
    requires head == Sign(spec, c) + Prefix(spec, c) && tail == Repeat('0', z) + Digits(spec, c)
    ensures NumberText(spec, c) == if spec.left then head + tail + Repeat(' ', k)
                                   else if spec.zero && !spec.precisionSet then head + Repeat('0', k) + tail
                                   else Repeat(' ', k) + (head + tail)
  {
    hide Padding, PrecisionZeros, Digits, Sign, Prefix, Repeat;
    if !spec.left && spec.zero && !spec.precisionSet {
      RepeatSum('0', k, z);
    }
  }

  lemma RepeatSum(c: char, a: nat, b: nat)
    ensures Repeat(c, a + b) == Repeat(c, a) + Repeat(c, b)
  {
  }

  lemma NoPadding(spec: Spec, c: Conversion)
    requires IsConversion(c)
    ensures Body(spec, c) == Sign(spec, c) + Prefix(spec, c) + Repeat('0', PrecisionZeros(spec, c)) + Digits(spec, c)
    ensures |Body(spec, c)| == BodyLength(spec, c)
  {
    hide Numeral;
    var narrow := spec.(width := 0);
    assert Repeat(' ', 0) == "" && Padding(narrow, c) == 0;
    assert PrecisionZeros(narrow, c) == PrecisionZeros(spec, c) && Digits(narrow, c) == Digits(spec, c);
  }

  /** The sign: a minus before a negative value; else, of a signed conversion, a plus if it is asked
      for, or a space; none on unsigned conversions. */
  lemma SignMeans(spec: Spec, c: Conversion)
    requires IsConversion(c)
    ensures var bare := Body(spec.(plus := false, space := false), c.(negative := false));
      Body(spec, c) == if c.negative then "-" + bare
                       else if c.signed && spec.plus then "+" + bare
                       else if c.signed && spec.space then " " + bare else bare
  {
    hide Numeral, Body, BodyLength;
    NoPadding(spec, c);
    NoPadding(spec.(plus := false, space := false), c.(negative := false));
    assert PrecisionZeros(spec, c) == PrecisionZeros(spec.(plus := false, space := false), c.(negative := false));
    hide PrecisionZeros;
  }

  /** Precision is the least number of digits, and the alternate octal form begins with a zero; but
      for these, and apart from padding, the digits are the numeral's. */
  lemma PrecisionMeans(spec: Spec, c: Conversion)
    requires IsConversion(c)
    ensures var ds, n := Repeat('0', PrecisionZeros(spec, c)) + Digits(spec, c), Numeral(c.magnitude, c.base, c.uppercase);
      && (spec.alternate && c.base == 8 ==> ds != "" && ds[0] == '0')
      && (spec.precisionSet && !(spec.alternate && c.base == 8) ==>
          |ds| == if spec.precision == 0 && c.magnitude == 0 then 0 else if |n| < spec.precision then spec.precision else |n|)
      && (!spec.precisionSet && !(spec.alternate && c.base == 8) ==> ds == n)
      && (spec.alternate && c.base == 8 ==> |ds| == if spec.precisionSet && |n| < spec.precision then spec.precision
                                                    else if n[0] == '0' then |n| else |n| + 1)
  {
    NumeralLeads(c.magnitude, c.base, c.uppercase);
    hide Numeral;
  }

  predicate IsLower(c: char) { 'a' <= c <= 'z' }

  predicate IsUpper(c: char) { 'A' <= c <= 'Z' }

  /** All letters of the text, the prefix included, are of the case asked for. */
  lemma CaseMeans(spec: Spec, c: Conversion, i: nat)
    requires IsConversion(c) && i < |NumberText(spec, c)|
    ensures c.uppercase ==> !IsLower(NumberText(spec, c)[i])
    ensures !c.uppercase ==> !IsUpper(NumberText(spec, c)[i])
  {
    forall k: nat | k < |Numeral(c.magnitude, c.base, c.uppercase)|
      ensures !(if c.uppercase then IsLower(Numeral(c.magnitude, c.base, c.uppercase)[k]) else IsUpper(Numeral(c.magnitude, c.base, c.uppercase)[k]))
    {
      NumeralCase(c.magnitude, c.base, c.uppercase, k);
    }
    hide Numeral;
    assert NumberText(spec, c)[i] in Sign(spec, c) || NumberText(spec, c)[i] in Prefix(spec, c) || NumberText(spec, c)[i] in Digits(spec, c)
      || NumberText(spec, c)[i] == ' ' || NumberText(spec, c)[i] == '0';
  }

  lemma {:induction false} NumeralCase(v: nat, base: nat, uppercase: bool, k: nat)
    requires 2 <= base <= 16 && k < |Numeral(v, base, uppercase)|
    ensures var d := Numeral(v, base, uppercase)[k]; if uppercase then !IsLower(d) else !IsUpper(d)
  {
    NumeralEnds(v, base, uppercase);
    hide DigitChar, Numeral;
    if v < base {
      DigitCase(v, uppercase);
    } else {
      DigitCase(v % base, uppercase);
      if k < |Numeral(v / base, base, uppercase)| {
        NumeralCase(v / base, base, uppercase, k);
      }
    }
  }

  lemma NumeralEnds(v: nat, base: nat, uppercase: bool)
    requires 2 <= base <= 16
    ensures v < base ==> Numeral(v, base, uppercase) == [DigitChar(v, uppercase)]
    ensures base <= v ==> v / base < v && v % base < 16
    ensures base <= v ==> Numeral(v, base, uppercase) == Numeral(v / base, base, uppercase) + [DigitChar(v % base, uppercase)]
  {
    hide DigitChar;
    if base <= v { QuotientPositive(v, base); }
  }

  lemma DigitCase(d: nat, uppercase: bool)
    requires d < 16
    ensures var c := DigitChar(d, uppercase); if uppercase then !IsLower(c) else !IsUpper(c)
  {
  }

  // ----- Reading it back

  /** A text made of spaces, a sign, a prefix, digits and spaces. */
  function Laid(n: nat, sign: string, prefix: string, digits: string, m: nat): string {
    Repeat(' ', n) + sign + prefix + digits + Repeat(' ', m)
  }

  predicate Layable(sign: string, prefix: string, digits: string, base: nat) {
    && (sign == "" || sign == "+" || sign == "-")
    && (prefix == "" || (base == 16 && (prefix == "0x" || prefix == "0X")))
    && (base == 8 || base == 10 || base == 16) && digits != "" && AllDigits(digits, base)
  }

  lemma LaidIsSpelling(n: nat, sign: string, prefix: string, digits: string, m: nat, base: nat)
    requires Layable(sign, prefix, digits, base)
    ensures Laid(n, sign, prefix, digits, m) == Spelling(Repeat(' ', n), sign, prefix, digits, Repeat(' ', m))
    ensures Spells(Repeat(' ', n), sign, prefix, digits, Repeat(' ', m), base, base)
  {
    assert !IsDigit(' ', base) && !IsDigit('\0', base);
    if prefix == "" && base == 16 { NoPrefix(digits, Repeat(' ', m)); }
  }

  /** Digits followed by spaces do not begin with a hexadecimal prefix. */
  lemma NoPrefix(digits: string, rest: string)
    requires AllDigits(digits, 16) && digits != "" && (rest == "" || rest[0] == ' ')
    ensures !HexAt(digits + rest, 0)
  {
    if 1 < |digits| { assert IsDigit(digits[1], 16); }
  }

  /** What strtol takes such a text to denote. */
  lemma SubjectOfLaid(n: nat, sign: string, prefix: string, digits: string, m: nat, base: nat)
    requires Layable(sign, prefix, digits, base)
    ensures var start := n + |sign| + |prefix|; var s := Laid(n, sign, prefix, digits, m); var t := SubjectOf(s, base);
      && t == Subject(sign == "-", base, start, start + |digits|) && Magnitude(s, t) == Number(digits, base)
  {
    hide Laid, Spelling, Spells, SubjectOf, Magnitude, Number, Layable, AllDigits;
    LaidIsSpelling(n, sign, prefix, digits, m, base);
    SubjectOfSpelling(Repeat(' ', n), sign, prefix, digits, Repeat(' ', m), base, base);
  }

  /** Precision 0 on the value 0 prints no digit, unless the octal form asks for its zero. */
  predicate PrintsDigits(spec: Spec, c: Conversion)
    requires IsConversion(c)
  {
    Digits(spec, c) != ""
  }

  lemma PrintsDigitsWhen(spec: Spec, c: Conversion)
    requires IsConversion(c)
    ensures PrintsDigits(spec, c) <==>
      !(spec.precisionSet && spec.precision == 0 && c.magnitude == 0) || (spec.alternate && c.base == 8)
  {
  }

  /** All the digits: padding and precision zeros, then the numeral. */
  function AllOf(spec: Spec, c: Conversion): string
    requires IsConversion(c)
  {
    Repeat('0', Zeros(spec, c)) + Digits(spec, c)
  }

  lemma AllOfMeans(spec: Spec, c: Conversion)
    requires IsConversion(c) && PrintsDigits(spec, c)
    ensures AllDigits(AllOf(spec, c), c.base) && Number(AllOf(spec, c), c.base) == c.magnitude && AllOf(spec, c) != ""
  {
    var ds := Digits(spec, c);
    if spec.precisionSet && spec.precision == 0 && c.magnitude == 0 {
      Appended("", '0', c.base);
      assert ds == "" + ['0'];
    } else {
      NumberOfNumeral(c.magnitude, c.base, c.uppercase);
    }
    LeadingZeros(Zeros(spec, c), ds, c.base);
  }

  /** The spaces before the sign: the field's, and the one of the space flag. */
  function Lead(spec: Spec, c: Conversion): nat
    requires IsConversion(c)
  {
    |Before(spec, c)| + if Sign(spec, c) == " " then 1 else 0
  }

  function RealSign(spec: Spec, c: Conversion): string { if Sign(spec, c) == " " then "" else Sign(spec, c) }

  lemma TextIsLaid(spec: Spec, c: Conversion)
    requires IsConversion(c)
    ensures NumberText(spec, c) == Laid(Lead(spec, c), RealSign(spec, c), Prefix(spec, c), AllOf(spec, c), |After(spec, c)|)
  {
    hide PrecisionZeros, Digits, Padding, Prefix;
    if Sign(spec, c) == " " {
      assert Before(spec, c) + " " == Repeat(' ', Lead(spec, c));
      assert Repeat(' ', Lead(spec, c)) + "" == Repeat(' ', Lead(spec, c));
    } else {
      assert Before(spec, c) == Repeat(' ', Lead(spec, c));
    }
    assert After(spec, c) == Repeat(' ', |After(spec, c)|);
  }

  /** Where the last digit of the text ends. */
  function DigitsStopAt(spec: Spec, c: Conversion): nat
    requires IsConversion(c)
  {
    |Before(spec, c)| + |Sign(spec, c)| + |Prefix(spec, c)| + Zeros(spec, c) + |Digits(spec, c)|
  }

  /** The printed text denotes the value, whatever the flags, width and precision. */
  lemma SubjectOfText(spec: Spec, c: Conversion)
    requires IsConversion(c) && PrintsDigits(spec, c)
    ensures var s := NumberText(spec, c); var t := SubjectOf(s, c.base);
      && t.negative == c.negative && t.base == c.base && t.start < t.end == DigitsStopAt(spec, c) && Magnitude(s, t) == c.magnitude
  {
    TextIsLaid(spec, c);
    AllOfMeans(spec, c);
    SignIsLayable(spec, c);
    hide Laid, SubjectOf, Magnitude, NumberText, Number, AllDigits, Prefix, Sign, PrecisionZeros, Digits;
    SubjectOfLaid(Lead(spec, c), RealSign(spec, c), Prefix(spec, c), AllOf(spec, c), |After(spec, c)|, c.base);
  }

  lemma SignIsLayable(spec: Spec, c: Conversion)
    requires IsConversion(c) && AllDigits(AllOf(spec, c), c.base) && AllOf(spec, c) != ""
    ensures Layable(RealSign(spec, c), Prefix(spec, c), AllOf(spec, c), c.base)
    ensures (RealSign(spec, c) == "-" <==> c.negative) && |Before(spec, c)| + |Sign(spec, c)| == Lead(spec, c) + |RealSign(spec, c)|
  {
    hide AllOf, Before, AllDigits;
  }

  /** A text of spaces and signs has no subject. */
  lemma NoSubject(s: string, base: nat)
    requires (forall k :: 0 <= k < |s| ==> s[k] == ' ' || s[k] == '+' || s[k] == '-') && 2 <= base <= 16
    ensures SubjectOf(s, base).start == SubjectOf(s, base).end
  {
    var i := SkipSign(s, SkipSpaces(s, 0));
    assert At(s, i) == ' ' || At(s, i) == '+' || At(s, i) == '-' || At(s, i) == '\0';
    assert SkipPrefix(s, i, base) == i;
    assert !IsDigit(At(s, i), base);
  }

  /** Without a digit the text is spaces and at most a sign. */
  lemma NothingPrinted(spec: Spec, c: Conversion)
    requires IsConversion(c) && !PrintsDigits(spec, c)
    ensures c.magnitude == 0 && DigitsStopAt(spec, c) == |Before(spec, c)| + |Sign(spec, c)|
    ensures SubjectOf(NumberText(spec, c), c.base).start == SubjectOf(NumberText(spec, c), c.base).end
  {
    assert Digits(spec, c) == "" && Prefix(spec, c) == "" && Zeros(spec, c) == 0;
    var s := NumberText(spec, c);
    assert Repeat('0', 0) == "";
    hide NumberText, Padding, Repeat, SubjectOf, Numeral, Digits, Zeros, PrecisionZeros;
    assert s == Before(spec, c) + Sign(spec, c) + After(spec, c) by { TextWithout(spec, c); }
    NoSubject(s, c.base);
  }

  lemma TextWithout(spec: Spec, c: Conversion)
    requires IsConversion(c) && Digits(spec, c) == "" && Prefix(spec, c) == "" && Zeros(spec, c) == 0
    ensures NumberText(spec, c) == Before(spec, c) + Sign(spec, c) + After(spec, c)
  {
    hide Digits, Prefix, Zeros, Before, Sign, After;
  }

  /** The value that reading back should give. */
  function ValueOf(c: Conversion): int { if c.negative then -(c.magnitude as int) else c.magnitude }

  /** The text has a digit, or it has nothing at all before the place where its digits would stand. */
  predicate ReadsBack(spec: Spec, c: Conversion)
    requires IsConversion(c)
  {
    PrintsDigits(spec, c) || (Before(spec, c) == "" && Sign(spec, c) == "")
  }

  /** The same in terms of the conversion specification. */
  lemma ReadsBackWhen(spec: Spec, c: Conversion)
    requires IsConversion(c)
    ensures ReadsBack(spec, c) <==>
      || !(spec.precisionSet && spec.precision == 0 && c.magnitude == 0) || (spec.alternate && c.base == 8)
      || ((spec.left || spec.width == 0) && (!c.signed || !(c.negative || spec.plus || spec.space)))
  {
    if !PrintsDigits(spec, c) {
      NothingPrinted(spec, c);
      hide Numeral;
      assert Padding(spec, c) == 0 <==> spec.width <= |Sign(spec, c)|;
    }
  }

  /** strtol reads a printed number back, and stops right after its last digit, for every value a long
      can hold, exactly when a digit was printed or nothing stands before where it would be.  With
      no digit the value is still right, it is 0, but the end pointer is the start. */
  lemma LongReadsBack(spec: Spec, c: Conversion)
    requires IsConversion(c) && c.magnitude <= (if c.negative then LONG_MAX + 1 else LONG_MAX)
    ensures Long(NumberText(spec, c), c.base) == Parsed(ValueOf(c), DigitsStopAt(spec, c), Fine) <==> ReadsBack(spec, c)
    ensures Long(NumberText(spec, c), c.base) == Parsed(ValueOf(c), if PrintsDigits(spec, c) then DigitsStopAt(spec, c) else 0, Fine)
  {
    hide NumberText, DigitsStopAt, SubjectOf, Magnitude, PrintsDigits, Before, Sign;
    if PrintsDigits(spec, c) { SubjectOfText(spec, c); } else { NothingPrinted(spec, c); }
  }

  /** strtoul reads back every unsigned 64-bit value, in base 8, 10 and 16, in the same cases. */
  lemma UnsignedReadsBack(spec: Spec, c: Conversion)
    requires IsConversion(c) && !c.negative
    ensures Unsigned(NumberText(spec, c), c.base) == Parsed(c.magnitude, DigitsStopAt(spec, c), Fine) <==> ReadsBack(spec, c)
    ensures Unsigned(NumberText(spec, c), c.base) == Parsed(c.magnitude, if PrintsDigits(spec, c) then DigitsStopAt(spec, c) else 0, Fine)
  {
    hide NumberText, DigitsStopAt, SubjectOf, Magnitude, PrintsDigits, Before, Sign;
    if PrintsDigits(spec, c) { SubjectOfText(spec, c); } else { NothingPrinted(spec, c); }
  }

  /** The alternate forms of base 8 and 16 carry their base with them: strtoul that is not told it
      reads the value back all the same. */
  lemma AlternateReadsBack(spec: Spec, c: Conversion)
    requires IsConversion(c) && spec.alternate && c.base != 10 && PrintsDigits(spec, c)
    ensures Unsigned(NumberText(spec, c), 0) == Parsed(c.magnitude, DigitsStopAt(spec, c), Fine)
  {
    hide NumberText, Laid, Spelling, Spells, AllOf, Prefix, Before, After;
    TextIsLaid(spec, c);
    AllOfMeans(spec, c);
    var actual := if c.base == 8 || c.magnitude == 0 then 8 else 16;
    AlternateSpells(spec, c, actual);
    var n, m := Lead(spec, c), |After(spec, c)|;
    UnsignedOfSpelling(Repeat(' ', n), "", Prefix(spec, c), AllOf(spec, c), Repeat(' ', m), 0, actual);
    assert NumberText(spec, c) == Spelling(Repeat(' ', n), "", Prefix(spec, c), AllOf(spec, c), Repeat(' ', m)) by { TextSpells(spec, c); }
    TextEnds(spec, c);
  }

  lemma TextSpells(spec: Spec, c: Conversion)
    requires IsConversion(c) && c.base != 10
    ensures NumberText(spec, c) == Spelling(Repeat(' ', Lead(spec, c)), "", Prefix(spec, c), AllOf(spec, c), Repeat(' ', |After(spec, c)|))
  {
    hide NumberText, AllOf, Prefix, Before, After;
    TextIsLaid(spec, c);
    assert RealSign(spec, c) == "";
  }

  lemma TextEnds(spec: Spec, c: Conversion)
    requires IsConversion(c) && c.base != 10
    ensures Lead(spec, c) + |Prefix(spec, c)| + |AllOf(spec, c)| == DigitsStopAt(spec, c)
  {
    hide Digits, Prefix, Before, Zeros;
  }

  lemma AlternateSpells(spec: Spec, c: Conversion, actual: nat)
    requires IsConversion(c) && spec.alternate && c.base != 10 && PrintsDigits(spec, c)
    requires actual == if c.base == 8 || c.magnitude == 0 then 8 else 16
    requires AllDigits(AllOf(spec, c), c.base) && AllOf(spec, c) != "" && Number(AllOf(spec, c), c.base) == c.magnitude
    ensures Spells(Repeat(' ', Lead(spec, c)), "", Prefix(spec, c), AllOf(spec, c), Repeat(' ', |After(spec, c)|), 0, actual)
    ensures Number(AllOf(spec, c), actual) == c.magnitude
  {
    hide Spells, After, Before, Number, Numeral, Padding, PrecisionZeros;
    if actual == 8 {
      BeginsWithZero(spec, c);
      if c.base == 16 { OnlyZeros(AllOf(spec, c)); }
    }
    hide AllOf;
    SpelledAmongSpaces(Lead(spec, c), Prefix(spec, c), AllOf(spec, c), |After(spec, c)|, actual);
  }

  /** What base 0 takes for hexadecimal, by its prefix, or for octal, by its leading zero. */
  lemma SpelledAmongSpaces(n: nat, prefix: string, digits: string, m: nat, actual: nat)
    requires digits != "" && AllDigits(digits, actual)
    requires if prefix == "" then actual == 8 && digits[0] == '0' else (prefix == "0x" || prefix == "0X") && actual == 16
    ensures Spells(Repeat(' ', n), "", prefix, digits, Repeat(' ', m), 0, actual)
  {
    assert !IsDigit(' ', actual) && !IsDigit('\0', actual);
    if prefix == "" {
      assert 1 < |digits| ==> IsDigit(digits[1], 8);
    }
  }

  /** The digits of an alternate octal number begin with a zero, and so does 0. */
  lemma BeginsWithZero(spec: Spec, c: Conversion)
    requires IsConversion(c) && spec.alternate && PrintsDigits(spec, c) && (c.base == 8 || (c.base == 16 && c.magnitude == 0))
    ensures AllOf(spec, c) != "" && AllOf(spec, c)[0] == '0'
  {
    PrecisionMeans(spec, c);
    NumeralLeads(c.magnitude, c.base, c.uppercase);
    hide Numeral, Padding;
  }

  /** A string of digits for 0 is all zeros, in any base. */
  lemma {:induction false} OnlyZeros(ds: string)
    requires AllDigits(ds, 16) && Number(ds, 16) == 0
    ensures AllDigits(ds, 8) && Number(ds, 8) == 0
  {
    if ds != "" {
      OnlyZeros(ds[..|ds| - 1]);
      assert DigitValue(ds[|ds| - 1]) == 0;
    }
  }

  /** The value 0 with precision 0 and a plus flag prints as "+", of which strtol reads nothing. */
  lemma PlusAloneReadsNothing()
    ensures var spec, c := Spec(false, true, false, false, false, 0, true, 0), Conversion(0, false, 10, false, true);
      && IsConversion(c) && NumberText(spec, c) == "+" && DigitsStopAt(spec, c) == 1
      && Long(NumberText(spec, c), 10) == Parsed(0, 0, Fine)
  {
    var spec, c := Spec(false, true, false, false, false, 0, true, 0), Conversion(0, false, 10, false, true);
    LongReadsBack(spec, c);
    TextWithout(spec, c);
  }

  // ----- The code

  method CopyInto(buffer: array<char>, at: nat, bytes: string, n: nat)
    requires at + n <= buffer.Length && n <= |bytes|
    modifies buffer
    ensures buffer[..at] == old(buffer[..at]) && buffer[at..at + n] == bytes[..n]
  {
    for i := 0 to n
      invariant buffer[..at] == old(buffer[..at]) && buffer[at..at + i] == bytes[..i]
    {
      buffer[at + i] := bytes[i];
    }
  }

  /** A memory sink: `emitted` is all that was sent, of which the buffer keeps what fits, terminated. */
  class Sink {
    const buffer: array<char>
    const size: nat
    var stored: nat
    var count: nat
    ghost var emitted: string

    ghost predicate Valid() reads this, buffer {
      && size <= buffer.Length && count == |emitted| <= INT_MAX
      && stored == (if size == 0 then 0 else if |emitted| < size then |emitted| else size - 1)
      && (0 < size ==> buffer[..stored] == emitted[..stored] && buffer[stored] == '\0')
    }

    constructor (buffer: array<char>, size: nat)
      requires size <= buffer.Length
      modifies buffer
      ensures Valid() && emitted == "" && this.buffer == buffer && this.size == size
    {
      this.buffer, this.size, stored, count, emitted := buffer, size, 0, 0, "";
      new;
      if size != 0 {
        buffer[0] := '\0';
      }
    }

    method Write(bytes: string)
      requires Valid() && |emitted| + |bytes| <= INT_MAX
      modifies this`stored, this`count, this`emitted, buffer
      ensures Valid() && emitted == old(emitted) + bytes
    {
      count := count + |bytes|;
      ghost var before := emitted;
      emitted := emitted + bytes;
      if size != 0 && stored < size - 1 {
        var available := size - 1 - stored;
        var copied := if |bytes| < available then |bytes| else available;
        CopyInto(buffer, stored, bytes, copied);
        stored := stored + copied;
        buffer[stored] := '\0';
        assert buffer[..stored] == before + bytes[..copied];
      }
    }

    /** emit_bytes: refused when the count would pass INT_MAX. */
    method EmitBytes(bytes: string) returns (ok: bool)
      requires Valid()
      modifies this`stored, this`count, this`emitted, buffer
      ensures Valid() && (ok <==> |old(emitted)| + |bytes| <= INT_MAX)
      ensures emitted == if ok then old(emitted) + bytes else old(emitted)
    {
      if INT_MAX - count < |bytes| {
        return false;
      }
      Write(bytes);
      return true;
    }

    /** emit_repeat: in chunks, after checking the whole amount. */
    method EmitRepeat(c: char, amount: nat) returns (ok: bool)
      requires Valid()
      modifies this`stored, this`count, this`emitted, buffer
      ensures Valid() && (ok <==> |old(emitted)| + amount <= INT_MAX)
      ensures emitted == if ok then old(emitted) + Repeat(c, amount) else old(emitted)
    {
      if INT_MAX - count < amount {
        return false;
      }
      var left: nat := amount;
      assert emitted + Repeat(c, 0) == emitted;
      while left != 0
        invariant left <= amount && Valid() && emitted == old(emitted) + Repeat(c, amount - left)
      {
        var chunk: nat := if PAD_CHUNK < left then PAD_CHUNK else left;
        ok := EmitBytes(Repeat(c, chunk));
        assert Repeat(c, amount - left) + Repeat(c, chunk) == Repeat(c, amount - left + chunk);
        left := left - chunk;
      }
      return true;
    }
  }

  function Power(base: nat, n: nat): nat { if n == 0 then 1 else base * Power(base, n - 1) }

  /** The digits made so far, last first, are those that the numeral has after those of v. */
  ghost predicate Made(value: nat, v: nat, base: nat, uppercase: bool, made: string)
    requires 2 <= base <= 16
  {
    Numeral(value, base, uppercase) == Numeral(v, base, uppercase) + Reversed(made)
  }

  /** make_digits: the digits of a 64-bit value, last first; 64 places are enough. */
  method MakeDigits(value: nat, base: nat, uppercase: bool, digits: array<char>) returns (length: nat)
    requires value <= ULONG_MAX && 2 <= base <= 16 && digits.Length == 64
    modifies digits
    ensures 1 <= length <= 64 && Reversed(digits[..length]) == Numeral(value, base, uppercase)
  {
    hide Numeral, Reversed, Power, LastDigit, Rest, Made;
    var v: nat := value;
    length := 0;
    MadeNothing(value, base, uppercase);
    assert digits[..0] == [];
    while true
      invariant 0 <= length < 64 && v < Power(2, 64 - length) && Made(value, v, base, uppercase, digits[..length])
      decreases 64 - length
    {
      ghost var done := digits[..length];
      PutDigit(digits, length, LastDigit(v, base, uppercase));
      length := length + 1;
      DigitRound(value, v, base, uppercase, done, 64 - length);
      v := Rest(v, base);
      if v == 0 {
        return;
      }
      assert 64 - length != 0;
    }
  }

  lemma MadeNothing(value: nat, base: nat, uppercase: bool)
    requires value <= ULONG_MAX && 2 <= base <= 16
    ensures Made(value, value, base, uppercase, []) && value < Power(2, 64) && Power(2, 0) == 1
  {
    PowerOfTwo();
    assert Numeral(value, base, uppercase) + "" == Numeral(value, base, uppercase);
  }

  method PutDigit(digits: array<char>, at: nat, c: char)
    requires at < digits.Length
    modifies digits
    ensures digits[..at + 1] == old(digits[..at]) + [c]
  {
    digits[at] := c;
  }

  function LastDigit(v: nat, base: nat, uppercase: bool): char
    requires 2 <= base <= 16
  {
    DigitChar(v % base, uppercase)
  }

  function Rest(v: nat, base: nat): nat
    requires 2 <= base <= 16
  {
    SmallQuotient(v, base);
    v / base
  }

  /** One digit more. */
  lemma DigitRound(value: nat, v: nat, base: nat, uppercase: bool, done: string, left: nat)
    requires 2 <= base <= 16 && v < Power(2, left + 1) && Made(value, v, base, uppercase, done)
    ensures Rest(v, base) < Power(2, left)
    ensures var more := done + [LastDigit(v, base, uppercase)];
      if Rest(v, base) == 0 then Reversed(more) == Numeral(value, base, uppercase) else Made(value, Rest(v, base), base, uppercase, more)
  {
    ReversedAppend(done, LastDigit(v, base, uppercase));
    NumeralSplits(v, base, uppercase, Reversed(done));
    HalfIsLess(v, base, Power(2, left));
    hide Numeral, DigitChar, Power, Reversed;
    assert Rest(v, base) == 0 ==> "" + Reversed(done + [LastDigit(v, base, uppercase)]) == Reversed(done + [LastDigit(v, base, uppercase)]);
  }

  function Reversed(s: string): string { if s == [] then [] else [s[|s| - 1]] + Reversed(s[..|s| - 1]) }

  lemma ReversedAppend(s: string, c: char)
    ensures Reversed(s + [c]) == [c] + Reversed(s)
  {
    assert (s + [c])[..|s|] == s;
  }

  /** The last digit of a numeral, and those before it. */
  lemma NumeralSplits(v: nat, base: nat, uppercase: bool, rest: string)
    requires 2 <= base <= 16
    ensures var d := DigitChar(v % base, uppercase);
      Numeral(v, base, uppercase) + rest == (if v / base == 0 then "" else Numeral(v / base, base, uppercase)) + ([d] + rest)
  {
    SmallQuotient(v, base);
    hide DigitChar;
    if base <= v {
      assert Numeral(v, base, uppercase) == Numeral(v / base, base, uppercase) + [DigitChar(v % base, uppercase)];
    } else {
      assert Numeral(v, base, uppercase) == [DigitChar(v % base, uppercase)];
    }
  }

  lemma SmallQuotient(v: nat, base: nat)
    requires 0 < base
    ensures v / base == 0 <==> v < base
    ensures v < base ==> v % base == v
  {
  }

  lemma PowerEight(n: nat)
    ensures Power(2, n + 8) == 256 * Power(2, n)
  {
    assert Power(2, n + 4) == 16 * Power(2, n) by { assert Power(2, n + 2) == 4 * Power(2, n); assert Power(2, n + 4) == 4 * Power(2, n + 2); }
    assert Power(2, n + 6) == 4 * Power(2, n + 4);
    assert Power(2, n + 8) == 4 * Power(2, n + 6);
  }

  lemma PowerOfTwo()
    ensures Power(2, 64) == ULONG_MAX + 1
  {
    PowerEight(0);
    PowerEight(8);
    PowerEight(16);
    PowerEight(24);
    PowerEight(32);
    PowerEight(40);
    PowerEight(48);
    PowerEight(56);
  }

  lemma HalfIsLess(v: nat, base: nat, bound: nat)
    requires 2 <= base && v < 2 * bound
    ensures v / base < bound
  {
    DivMod(v, base);
    assert bound <= v / base ==> 2 * bound <= (v / base) * base by {
      if bound <= v / base { MulMonotone(2, base, v / base); }
    }
  }

  datatype Plan = Plan(spaces: nat, zeroPadding: nat, precisionZeros: nat, prefix: string)

  /** The first half of emit_number: what stands in front of the digits, */
  method MakePrefix(spec: Spec, c: Conversion) returns (prefix: string)
    ensures prefix == Sign(spec, c) + Prefix(spec, c)
  {
    prefix := "";
    if c.signed {
      if c.negative {
        prefix := "-";
      } else if spec.plus {
        prefix := "+";
      } else if spec.space {
        prefix := " ";
      }
    }
    if spec.alternate && c.base == 16 && c.magnitude != 0 {
      prefix := prefix + if c.uppercase then "0X" else "0x";
    }
  }

  /** and what goes where. */
  method MakePlan(spec: Spec, c: Conversion, digits: array<char>, made: nat) returns (plan: Plan, digitCount: nat)
    requires IsConversion(c) && 1 <= made <= 64 == digits.Length && Reversed(digits[..made]) == Numeral(c.magnitude, c.base, c.uppercase)
    modifies digits
    ensures digitCount <= 64 && Reversed(digits[..digitCount]) == Digits(spec, c)
    ensures plan.prefix == Sign(spec, c) + Prefix(spec, c) && plan.precisionZeros == PrecisionZeros(spec, c)
    ensures plan.spaces == (if ZeroPadded(spec) then 0 else Padding(spec, c)) && plan.zeroPadding == (if ZeroPadded(spec) then Padding(spec, c) else 0)
  {
    hide Numeral, Sign, Prefix;
    digitCount := made;
    ReversedLength(digits[..made]);
    ghost var numeral := Numeral(c.magnitude, c.base, c.uppercase);
    assert numeral[0] == digits[made - 1] && |numeral| == made by { ReversedHead(digits[..made]); }
    if spec.precisionSet && spec.precision == 0 && c.magnitude == 0 {
      digitCount := 0;
    }
    var prefix := MakePrefix(spec, c);
    var precisionZeros := 0;
    if spec.precisionSet && digitCount < spec.precision {
      precisionZeros := spec.precision - digitCount;
    }
    if spec.alternate && c.base == 8 {
      if digitCount == 0 {
        digitCount := 1;
        digits[0] := '0';
        ReversedOne(digits[..1]);
      } else if precisionZeros == 0 && digits[digitCount - 1] != '0' {
        precisionZeros := 1;
      }
    }
    assert Reversed(digits[..digitCount]) == Digits(spec, c) && |Digits(spec, c)| == digitCount by { ReversedLength(digits[..digitCount]); }
    assert precisionZeros == PrecisionZeros(spec, c);
    var bodyLength := |prefix| + precisionZeros + digitCount;
    var spaces, zeroPadding := 0, 0;
    if bodyLength < spec.width {
      var padding := spec.width - bodyLength;
      if spec.zero && !spec.left && !spec.precisionSet {
        zeroPadding := padding;
      } else {
        spaces := padding;
      }
    }
    plan := Plan(spaces, zeroPadding, precisionZeros, prefix);
  }

  lemma ReversedLength(s: string)
    ensures |Reversed(s)| == |s|
  {
  }

  lemma ReversedHead(s: string)
    requires s != ""
    ensures |Reversed(s)| == |s| && Reversed(s)[0] == s[|s| - 1]
  {
    ReversedLength(s);
  }

  lemma ReversedOne(s: string)
    requires |s| == 1
    ensures Reversed(s) == s
  {
    assert s[..0] == "";
  }

  /** `rest` is what is left to send of a text. */
  ghost predicate Toward(sink: Sink, start: string, rest: string, target: string)
    reads sink, sink.buffer
  {
    sink.Valid() && start <= sink.emitted && sink.emitted + rest == target
  }

  /** A text that the count has no room for was sent in part. */
  ghost predicate CutOff(sink: Sink, start: string, target: string)
    reads sink, sink.buffer
  {
    sink.Valid() && start <= sink.emitted <= target && INT_MAX < |target|
  }

  lemma Shifted(e: string, piece: string, rest: string)
    ensures e + (piece + rest) == (e + piece) + rest && e <= e + (piece + rest)
  {
  }

  /** One piece of a text. */
  method EmitPiece(sink: Sink, piece: string, ghost start: string, ghost rest: string, ghost target: string) returns (ok: bool)
    requires Toward(sink, start, piece + rest, target)
    modifies sink`stored, sink`count, sink`emitted, sink.buffer
    ensures if ok then Toward(sink, start, rest, target) else CutOff(sink, start, target)
  {
    Shifted(sink.emitted, piece, rest);
    ok := sink.EmitBytes(piece);
  }

  method EmitRun(sink: Sink, c: char, amount: nat, ghost start: string, ghost rest: string, ghost target: string) returns (ok: bool)
    requires Toward(sink, start, Repeat(c, amount) + rest, target)
    modifies sink`stored, sink`count, sink`emitted, sink.buffer
    ensures if ok then Toward(sink, start, rest, target) else CutOff(sink, start, target)
  {
    Shifted(sink.emitted, Repeat(c, amount), rest);
    ok := sink.EmitRepeat(c, amount);
  }

  /** The digits, from the last made to the first. */
  method EmitDigits(sink: Sink, digits: array<char>, digitCount: nat, ghost start: string, ghost rest: string, ghost target: string)
      returns (ok: bool)
    requires digitCount <= digits.Length && digits != sink.buffer && Toward(sink, start, Reversed(digits[..digitCount]) + rest, target)
    modifies sink`stored, sink`count, sink`emitted, sink.buffer
    ensures if ok then Toward(sink, start, rest, target) else CutOff(sink, start, target)
  {
    var i := digitCount;
    while i != 0
      invariant 0 <= i <= digitCount && Toward(sink, start, Reversed(digits[..i]) + rest, target)
    {
      hide Toward, CutOff;
      ghost var earlier := Reversed(digits[..i - 1]);
      assert digits[..i] == digits[..i - 1] + [digits[i - 1]];
      ReversedAppend(digits[..i - 1], digits[i - 1]);
      Shifted([digits[i - 1]], earlier, rest);
      ok := EmitPiece(sink, [digits[i - 1]], start, earlier + rest, target);
      if !ok {
        return;
      }
      i := i - 1;
    }
    assert Reversed(digits[..0]) + rest == rest;
    return true;
  }

  /** The second half of emit_number: the pieces in order. */
  method EmitPlan(sink: Sink, left: bool, plan: Plan, digits: array<char>, digitCount: nat, ghost start: string, ghost target: string)
      returns (ok: bool)
    requires digitCount <= digits.Length && digits != sink.buffer
    requires Toward(sink, start, (if left then "" else Repeat(' ', plan.spaces)) + (plan.prefix + (Repeat('0', plan.zeroPadding)
               + (Repeat('0', plan.precisionZeros) + (Reversed(digits[..digitCount]) + if left then Repeat(' ', plan.spaces) else "")))), target)
    modifies sink`stored, sink`count, sink`emitted, sink.buffer
    ensures if ok then Toward(sink, start, "", target) else CutOff(sink, start, target)
  {
    hide Toward, CutOff;
    ghost var r6 := if left then Repeat(' ', plan.spaces) else "";
    ghost var r5 := Reversed(digits[..digitCount]) + r6;
    ghost var r4 := Repeat('0', plan.precisionZeros) + r5;
    ghost var r3 := Repeat('0', plan.zeroPadding) + r4;
    ghost var r2 := plan.prefix + r3;
    ok := true;
    if left {
      assert "" + r2 == r2;
    } else {
      ok := EmitRun(sink, ' ', plan.spaces, start, r2, target);
      if !ok { return; }
    }
    if |plan.prefix| != 0 {
      ok := EmitPiece(sink, plan.prefix, start, r3, target);
      if !ok { return; }
    } else {
      assert r2 == r3;
    }
    ok := EmitRun(sink, '0', plan.zeroPadding, start, r4, target);
    if !ok { return; }
    ok := EmitRun(sink, '0', plan.precisionZeros, start, r5, target);
    if !ok { return; }
    ok := EmitDigits(sink, digits, digitCount, start, r6, target);
    if !ok { return; }
    if left {
      assert r6 == Repeat(' ', plan.spaces) + "";
      ok := EmitRun(sink, ' ', plan.spaces, start, "", target);
    }
  }

  /** emit_number: the whole text, or a failure because the count has no room for all of it. */
  method EmitNumber(sink: Sink, spec: Spec, c: Conversion) returns (ok: bool)
    requires sink.Valid() && IsConversion(c)
    modifies sink`stored, sink`count, sink`emitted, sink.buffer
    ensures sink.Valid() && (ok <==> |old(sink.emitted)| + |NumberText(spec, c)| <= INT_MAX)
    ensures ok ==> sink.emitted == old(sink.emitted) + NumberText(spec, c)
    ensures old(sink.emitted) <= sink.emitted <= old(sink.emitted) + NumberText(spec, c)
  {
    var digits := new char[64];
    var made := MakeDigits(c.magnitude, c.base, c.uppercase, digits);
    var plan, digitCount := MakePlan(spec, c, digits, made);
    ghost var start := sink.emitted;
    PiecesMakeText(spec, c, plan);
    AfterIsSpaces(spec, c, plan);
    hide NumberText, After, Sign, Prefix, Digits, Padding, PrecisionZeros;
    ok := EmitPlan(sink, spec.left, plan, digits, digitCount, start, start + NumberText(spec, c));
  }

  lemma AfterIsSpaces(spec: Spec, c: Conversion, plan: Plan)
    requires IsConversion(c) && plan.spaces == if ZeroPadded(spec) then 0 else Padding(spec, c)
    ensures After(spec, c) == if spec.left then Repeat(' ', plan.spaces) else ""
  {
  }

  lemma PiecesMakeText(spec: Spec, c: Conversion, plan: Plan)
    requires IsConversion(c) && plan.prefix == Sign(spec, c) + Prefix(spec, c) && plan.precisionZeros == PrecisionZeros(spec, c)
    requires plan.spaces == (if ZeroPadded(spec) then 0 else Padding(spec, c)) && plan.zeroPadding == (if ZeroPadded(spec) then Padding(spec, c) else 0)
    ensures NumberText(spec, c) ==
      (if spec.left then "" else Repeat(' ', plan.spaces))
      + (plan.prefix + (Repeat('0', plan.zeroPadding) + (Repeat('0', plan.precisionZeros) + (Digits(spec, c) + After(spec, c)))))
  {
    RepeatSum('0', plan.zeroPadding, plan.precisionZeros);
    hide Padding, Digits, PrecisionZeros, Sign, Prefix, After, Repeat;
    assert Zeros(spec, c) == plan.zeroPadding + plan.precisionZeros;
    assert Before(spec, c) == if spec.left then "" else Repeat(' ', plan.spaces);
  }
}
