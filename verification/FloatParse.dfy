/** strtod's way through a string: a cursor that gets, ungets, marks and restores, and the parser
    that runs over it with the strtod policy. Conversion to a value is not part of this model. */
module FloatParse {
  import opened Numerals
  import opened IntegerParse
  import opened FloatGrammar

  const WIDTH_MAX := 0xffff_ffff_ffff_ffff
  const EOF := '\0'

  datatype Status = MatchFail | Success | InputFail

  /** The string and the cursor; the terminator reads as EOF and is not passed. */
  class Source {
    const text: string
    var cursor: nat

    ghost predicate Valid() reads this { cursor <= |text| < WIDTH_MAX && EOF !in text }

    constructor (text: string)
      requires |text| < WIDTH_MAX && EOF !in text
      ensures Valid() && this.text == text && cursor == 0
    {
      this.text, cursor := text, 0;
    }

    method Get() returns (c: char)
      requires Valid()
      modifies this
      ensures Valid() && c == At(text, old(cursor)) && cursor == old(cursor) + (if c == EOF then 0 else 1)
    {
      if cursor == |text| {
        return EOF;
      }
      c := text[cursor];
      cursor := cursor + 1;
    }

    method Unget(c: char) returns (ok: bool)
      requires Valid()
      modifies this
      ensures Valid() && (ok <==> c != EOF && 0 < old(cursor) && text[old(cursor) - 1] == c)
      ensures cursor == old(cursor) - (if ok then 1 else 0)
    {
      if c == EOF || cursor == 0 || text[cursor - 1] != c {
        return false;
      }
      cursor := cursor - 1;
      return true;
    }
  }

  class Reader {
    const source: Source
    var remaining: nat

    /** The width never runs out before the string does. */
    ghost predicate Valid() reads this, source { source.Valid() && |source.text| < remaining + source.cursor }

    constructor (source: Source)
      requires source.Valid()
      ensures Valid() && this.source == source
    {
      this.source, remaining := source, WIDTH_MAX;
    }

    function Text(): string { source.text }

    function Cursor(): nat reads source { source.cursor }

    method Get() returns (c: char)
      requires Valid()
      modifies this, source
      ensures Valid() && c == At(Text(), old(Cursor())) && Cursor() == old(Cursor()) + (if c == EOF then 0 else 1)
    {
      if remaining == 0 {
        return EOF;
      }
      c := source.Get();
      if c != EOF {
        remaining := remaining - 1;
      }
    }

    /** Gives back the character just read. */
    method Unget(c: char) returns (ok: bool)
      requires Valid()
      modifies this, source
      ensures Valid() && (ok <==> c != EOF && 0 < old(Cursor()) && Text()[old(Cursor()) - 1] == c)
      ensures Cursor() == old(Cursor()) - (if ok then 1 else 0)
    {
      if c == EOF {
        return false;
      }
      ok := source.Unget(c);
      if ok {
        remaining := remaining + 1;
      }
    }

    method Restore(mark: nat, saved: nat)
      requires Valid() && mark <= |Text()| < mark + saved
      modifies this, source
      ensures Valid() && Cursor() == mark
    {
      source.cursor := mark;
      remaining := saved;
    }

    /** `c` is the character at p, just read. */
    ghost predicate ReadAt(p: nat, c: char)
      reads this, source
    {
      Valid() && p <= |Text()| && c == At(Text(), p) && Cursor() == p + if c == EOF then 0 else 1
    }

    /** Reads on over decimal digits, counting them. */
    method ScanDigits(ghost p: nat, first: char) returns (c: char, digits: nat)
      requires ReadAt(p, first)
      modifies this, source
      ensures p + digits == DigitsEnd(Text(), p, 10) && ReadAt(p + digits, c)
    {
      c, digits := first, 0;
      assert !IsDigit(EOF, 10);
      while IsDigit(c, 10)
        invariant ReadAt(p + digits, c) && DigitsEnd(Text(), p, 10) == DigitsEnd(Text(), p + digits, 10)
        decreases |Text()| - p - digits
      {
        digits := digits + 1;
        c := Get();
        if c == EOF {
          break;
        }
      }
    }

    /** Gives a character back unless it was the end. */
    method PutBack(ghost p: nat, c: char) returns (ok: bool)
      requires ReadAt(p, c)
      modifies this, source
      ensures ok && Valid() && Cursor() == p
    {
      ok := true;
      if c != EOF {
        ok := Unget(c);
      }
    }

    /** The character after the exponent letter at m and its sign, if it has one. */
    method GetAfterSign(ghost m: nat) returns (c: char)
      requires Valid() && m < |Text()| && Cursor() == m + 1
      modifies this, source
      ensures if c == EOF then Valid() && !IsDigit(At(Text(), SkipSign(Text(), m + 1)), 10) else ReadAt(SkipSign(Text(), m + 1), c)
    {
      assert !IsDigit(EOF, 10);
      c := Get();
      if c == '+' || c == '-' {
        c := Get();
      }
    }

    /** parse_exponent after its marker: the exponent is taken, or everything from the marker on is given back. */
    method ParseExponent(ghost m: nat, marker: char, lower: char) returns (status: Status)
      requires ReadAt(m, marker) && 'a' <= lower <= 'z' && SameLetter(marker, lower)
      modifies this, source
      ensures Valid() && status == Success && Cursor() == ExponentEnd(Text(), m, lower)
    {
      var ok := Unget(marker);
      if !ok {
        return InputFail;
      }
      var checkpoint, saved := source.cursor, remaining;
      var again := Get();
      var c := GetAfterSign(m);
      if c == EOF {
        Restore(checkpoint, saved);
        return Success;
      }
      ghost var k := SkipSign(Text(), m + 1);
      var digits;
      c, digits := ScanDigits(k, c);
      if digits == 0 {
        Restore(checkpoint, saved);
        return Success;
      }
      ok := PutBack(k + digits, c);
      return if ok then Success else InputFail;
    }

    /** The mantissa loop of parse_decimal and parse_hex. */
    method ScanMantissa(ghost p: nat, first: char, base: nat) returns (c: char, ghost end: nat, digits: nat)
      requires ReadAt(p, first) && (base == 10 || base == 16)
      modifies this, source
      ensures end == MantissaEnd(Text(), p, false, base) && ReadAt(end, c) && (0 < digits <==> HasDigit(Text(), p, end, base))
    {
      var point := false;
      c, end, digits := first, p, 0;
      assert !IsDigit(EOF, base);
      while c != EOF
        invariant ReadAt(end, c) && p <= end && MantissaEnd(Text(), p, false, base) == MantissaEnd(Text(), end, point, base)
        invariant 0 < digits <==> HasDigit(Text(), p, end, base)
        decreases |Text()| - end
      {
        if IsDigit(c, base) {
          digits := digits + 1;
          assert IsDigit(Text()[end], base);
        } else if c == '.' && !point {
          point := true;
          assert !IsDigit(Text()[end], base);
        } else {
          break;
        }
        c := Get();
        end := end + 1;
      }
    }

    /** parse_decimal and, after its prefix, parse_hex: the same scan with another base and exponent letter. */
    method ParseFloating(ghost p: nat, first: char, base: nat, lower: char) returns (status: Status)
      requires ReadAt(p, first) && Pair(base, lower)
      modifies this, source
      ensures Valid() && Outcome(status, Text(), FloatingEnd(Text(), p, base, lower), Cursor())
    {
      ghost var m;
      var c, digits;
      c, m, digits := ScanMantissa(p, first, base);
      if digits == 0 {
        var ok := PutBack(m, c);
        return if ok then MatchFail else InputFail;
      }
      if c == lower || c as int == lower as int - 32 {
        status := ParseExponent(m, c, lower);
        return;
      }
      var ok := PutBack(m, c);
      return if ok then Success else InputFail;
    }

    /** match_required. */
    method MatchRequired(w: string, ghost p: nat) returns (status: Status)
      requires Valid() && IsWord(w) && Cursor() == p
      modifies this, source
      ensures Valid() && (status == Success <==> WordAt(Text(), p, w)) && (status == Success ==> Cursor() == p + |w|)
      ensures status != InputFail
    {
      var i := 0;
      while i < |w|
        invariant i <= |w| && Valid() && Cursor() == p + i <= |Text()|
        invariant forall k :: 0 <= k < i ==> SameLetter(Text()[p + k], w[k])
      {
        var c := Get();
        if c == EOF {
          return MatchFail;
        }
        if !SameLetter(c, w[i]) {
          assert WordAt(Text(), p, w) ==> SameLetter(Text()[p..p + |w|][i], w[i]);
          var ok := Unget(c);
          return if ok then MatchFail else InputFail;
        }
        i := i + 1;
      }
      return Success;
    }

    /** parse_infinity after the first letter; a partial "infinity" is given back to "inf". */
    method ParseInfinity(ghost p: nat, first: char) returns (status: Status)
      requires ReadAt(p, first) && SameLetter(first, 'i')
      modifies this, source
      ensures Valid() && Outcome(status, Text(), InfinityEnd(Text(), p), Cursor())
    {
      InfinityWords(Text(), p);
      hide WordAt, SameWord;
      status := MatchRequired("nf", p + 1);
      if status != Success {
        return;
      }
      var c := Get();
      if c == EOF {
        return;
      }
      if SameLetter(c, 'i') {
        var ok := Unget(c);
        var checkpoint, saved := source.cursor, remaining;
        c := Get();
        status := MatchRequired("nity", p + 4);
        if status != Success {
          Restore(checkpoint, saved);
          return Success;
        }
        return;
      }
      var ok := Unget(c);
    }

    /** parse_nan after the first letter; a payload that is not closed is given back to "nan". */
    method ParseNan(ghost p: nat, first: char) returns (status: Status)
      requires ReadAt(p, first) && SameLetter(first, 'n')
      modifies this, source
      ensures Valid() && Outcome(status, Text(), NanEnd(Text(), p), Cursor())
    {
      NanWords(Text(), p);
      hide WordAt, SameWord;
      status := MatchRequired("an", p + 1);
      if status != Success {
        return;
      }
      var c := Get();
      if c == EOF {
        return;
      }
      if c == '(' {
        var ok := Unget(c);
        var checkpoint, saved := source.cursor, remaining;
        c := Get();
        var closed := ScanPayload(p + 4);
        if !closed {
          Restore(checkpoint, saved);
        }
        return Success;
      }
      var ok := Unget(c);
    }

    /** The payload loop: whether it ends in a closing parenthesis. */
    method ScanPayload(ghost p: nat) returns (closed: bool)
      requires Valid() && Cursor() == p
      modifies this, source
      ensures Valid() && (closed <==> At(Text(), PayloadEnd(Text(), p)) == ')') && (closed ==> Cursor() == PayloadEnd(Text(), p) + 1)
    {
      var c := Get();
      ghost var q := p;
      while c != EOF && PayloadChar(c)
        invariant ReadAt(q, c) && p <= q && PayloadEnd(Text(), p) == PayloadEnd(Text(), q)
        decreases |Text()| - q
      {
        c := Get();
        q := q + 1;
      }
      closed := c == ')';
    }

    /** parse_hex backed out of: after a zero and an x, the digits, or only the zero. */
    method ParseHex(ghost p: nat) returns (status: Status)
      requires Valid() && 2 <= Cursor() == p
      modifies this, source
      ensures Valid() && Outcome(status, Text(), FloatingEnd(Text(), p, 16, 'p'), Cursor())
    {
      var c := Get();
      status := ParseFloating(p, c, 16, 'p');
    }
  }

  /** The cursor is at the end of what was matched, or the match failed as there is none. */
  predicate Outcome(status: Status, text: string, e: FloatGrammar.Option<nat>, cursor: nat) {
    if e.Some? then status == Success && cursor == e.value else status == MatchFail
  }

  /** A word is its two halves, one after the other. */
  lemma WordParts(s: string, p: nat, a: string, b: string)
    requires IsWord(a) && IsWord(b)
    ensures IsWord(a + b) && (WordAt(s, p, a + b) <==> WordAt(s, p, a) && WordAt(s, p + |a|, b))
  {
    if p + |a| + |b| <= |s| {
      var t := s[p..p + |a + b|];
      assert t[..|a|] == s[p..p + |a|] && t[|a|..] == s[p + |a|..p + |a| + |b|];
      assert forall i :: 0 <= i < |a| ==> t[i] == t[..|a|][i];
      assert forall i :: |a| <= i < |t| ==> t[i] == t[|a|..][i - |a|];
      assert SameWord(t, a + b) <==> SameWord(t[..|a|], a) && SameWord(t[|a|..], b) by { WordHalves(t, a, b); }
    }
  }

  lemma LetterAt(s: string, p: nat, w: string)
    requires IsWord(w) && |w| == 1
    ensures WordAt(s, p, w) <==> p < |s| && SameLetter(At(s, p), w[0])
  {
    if p < |s| { assert s[p..p + 1][0] == s[p]; }
  }

  /** The words the infinity scan looks for, letter by letter. */
  lemma InfinityWords(s: string, p: nat)
    requires SameLetter(At(s, p), 'i')
    ensures WordAt(s, p, "inf") <==> WordAt(s, p + 1, "nf")
    ensures WordAt(s, p, "infinity") <==> WordAt(s, p, "inf") && SameLetter(At(s, p + 3), 'i') && WordAt(s, p + 4, "nity")
  {
    hide WordAt, SameWord;
    LetterAt(s, p, "i");
    LetterAt(s, p + 3, "i");
    WordParts(s, p, "i", "nf");
    WordParts(s, p, "inf", "inity");
    WordParts(s, p + 3, "i", "nity");
    assert "i" + "nf" == "inf" && "inf" + "inity" == "infinity" && "i" + "nity" == "inity";
  }

  lemma NanWords(s: string, p: nat)
    requires SameLetter(At(s, p), 'n')
    ensures WordAt(s, p, "nan") <==> WordAt(s, p + 1, "an")
  {
    hide WordAt, SameWord;
    LetterAt(s, p, "n");
    WordParts(s, p, "n", "an");
    assert "n" + "an" == "nan";
  }

  lemma WordHalves(t: string, a: string, b: string)
    requires IsWord(a) && IsWord(b) && |t| == |a| + |b|
    ensures IsWord(a + b) && (SameWord(t, a + b) <==> SameWord(t[..|a|], a) && SameWord(t[|a|..], b))
  {
    if SameWord(t[..|a|], a) && SameWord(t[|a|..], b) {
      forall i | 0 <= i < |t| ensures SameLetter(t[i], (a + b)[i]) {
        if i < |a| { assert t[i] == t[..|a|][i]; } else { assert t[i] == t[|a|..][i - |a|]; }
      }
    }
    if SameWord(t, a + b) {
      forall i | 0 <= i < |b| ensures SameLetter(t[|a|..][i], b[i]) { assert t[|a| + i] == t[|a|..][i]; }
    }
  }

  // ----- The whole parser

  /** skip_leading_space. */
  method SkipLeadingSpace(source: Source)
    requires source.Valid() && source.cursor == 0
    modifies source
    ensures source.Valid() && source.cursor == SkipSpaces(source.text, 0)
  {
    while true
      invariant source.Valid() && SkipSpaces(source.text, 0) == SkipSpaces(source.text, source.cursor)
      decreases |source.text| - source.cursor
    {
      var c := source.Get();
      if c == EOF {
        return;
      }
      if !IsSpace(c) {
        var ok := source.Unget(c);
        return;
      }
    }
  }

  /** What comes after the sign: the kind by the first character, and the back-out from a bare "0x". */
  method ParseUnsigned(reader: Reader, ghost p: nat, c: char) returns (status: Status)
    requires reader.ReadAt(p, c) && c != EOF
    modifies reader, reader.source
    ensures reader.Valid() && Outcome(status, reader.Text(), UnsignedEnd(reader.Text(), p), reader.Cursor())
  {
    hide FloatingEnd, InfinityEnd, NanEnd;
    if SameLetter(c, 'i') {
      status := reader.ParseInfinity(p, c);
      return;
    }
    if SameLetter(c, 'n') {
      status := reader.ParseNan(p, c);
      return;
    }
    if c == '0' {
      var checkpoint, saved := reader.source.cursor, reader.remaining;
      var next := reader.Get();
      if next == 'x' || next == 'X' {
        status := reader.ParseHex(p + 2);
        if status != MatchFail {
          return;
        }
        reader.Restore(checkpoint, saved);
        ZeroAlone(reader.Text(), p);
        return Success;
      }
      if next != EOF {
        var ok := reader.Unget(next);
      }
    }
    status := reader.ParseFloating(p, c, 10, 'e');
  }

  /** __mini_float_parse. */
  method Parse(source: Source) returns (status: Status)
    requires source.Valid() && source.cursor == 0
    modifies source
    ensures source.Valid()
    ensures var e := SubjectEnd(source.text, SkipSpaces(source.text, 0));
      if e.Some? then status == Success && source.cursor == e.value else status != Success
  {
    SkipLeadingSpace(source);
    var reader := new Reader(source);
    ghost var p := source.cursor;
    var c := reader.Get();
    if c == EOF {
      NothingAtEnd(source.text, p);
      return InputFail;
    }
    if c == '+' || c == '-' {
      p := p + 1;
      c := reader.Get();
      if c == EOF {
        NothingAtEnd(source.text, p);
        return MatchFail;
      }
    }
    status := ParseUnsigned(reader, p, c);
  }

  lemma NothingAtEnd(s: string, p: nat)
    requires p == |s|
    ensures UnsignedEnd(s, p) == FloatGrammar.None
  {
    assert At(s, p) == '\0';
  }

  /** A zero before an x that begins no hexadecimal constant stands for itself. */
  lemma ZeroAlone(s: string, p: nat)
    requires At(s, p) == '0' && SameLetter(At(s, p + 1), 'x') && FloatingEnd(s, p + 2, 16, 'p') == FloatGrammar.None
    ensures UnsignedEnd(s, p) == FloatGrammar.Some(p + 1)
  {
    assert MantissaEnd(s, p, false, 10) == MantissaEnd(s, p + 1, false, 10) == p + 1;
    assert IsDigit(s[p], 10);
  }

  /** parse_string: strtod's end pointer, as an index. */
  method ParseString(nptr: string) returns (status: Status, end: nat)
    requires |nptr| < WIDTH_MAX && EOF !in nptr
    ensures var start := SkipSpaces(nptr, 0); var e := SubjectEnd(nptr, start);
      && Longest(nptr, start, e, SubjectSequence)
      && (if e.Some? then status == Success && end == e.value else status != Success && end == 0)
  {
    SubjectLongest(nptr, SkipSpaces(nptr, 0));
    var source := new Source(nptr);
    status := Parse(source);
    if status == MatchFail || status == InputFail {
      return status, 0;
    }
    return status, source.cursor;
  }
}
