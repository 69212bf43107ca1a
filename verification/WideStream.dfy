/** Wide characters on a stream: decoded a byte at a time, and pushed back as their encodings. */
module WideStream {
  import opened ByteMemory
  import SimpleFile
  import opened StreamState
  import opened StreamLaws
  import opened Stream
  import opened Utf8
  import opened WideChars

  datatype Get = Got(wc: int) | Malformed | Ended

  /** What reading one wide character did: took exactly its bytes, or bytes that are none, or ran out of them. */
  predicate GetOutcome(utf8: bool, s: State, n: State, get: Get, got: seq<byte>) {
    Ok(n) && Took(s, n, got) && Answer(utf8, s, n, get, got)
  }

  /** The bytes so far leave the decoder in state d. */
  predicate Feeding(utf8: bool, got: seq<byte>, d: Decoder) {
    Reachable(d) && |got| <= 3 && ScanIn(utf8, Utf8.INITIAL, got) == Incomplete(d) && (d == Utf8.INITIAL <==> got == [])
  }

  lemma FeedOne(utf8: bool, got: seq<byte>, d: Decoder, b: byte)
    requires Feeding(utf8, got, d)
    ensures match ScanIn(utf8, d, [b])
      case Incomplete(e) => Feeding(utf8, got + [b], e)
      case Illegal => ScanIn(utf8, Utf8.INITIAL, got + [b]) == Illegal
      case Complete(c, _) => ScanIn(utf8, Utf8.INITIAL, got + [b]) == Complete(c, |got| + 1)
  {
    if utf8 {
      FeedUtf8(got, d, b);
    } else {
      if got != [] { ScanInC(Utf8.INITIAL, got); }
      assert got == [] && [] + [b] == [b];
      ScanInC(d, [b]);
    }
  }

  lemma FeedUtf8(got: seq<byte>, d: Decoder, b: byte)
    requires Feeding(true, got, d)
    ensures match Scan(d, [b])
      case Incomplete(e) => Feeding(true, got + [b], e)
      case Illegal => Scan(Utf8.INITIAL, got + [b]) == Illegal
      case Complete(c, _) => Scan(Utf8.INITIAL, got + [b]) == Complete(c, |got| + 1)
  {
    ScanConcat(Utf8.INITIAL, got, [b]);
    assert [b][1..] == [];
    FeedReachable(d, b);
    var step := Feed(d, b);
    assert Scan(d, [b]) == ScanOn(step, []);
    if step.More? { assert Scan(step.d, []) == Incomplete(step.d); }
    if Scan(d, [b]).Incomplete? && |got| == 3 {
      FourDecide(Utf8.INITIAL, got + [b]);
    }
  }

  lemma {:induction false} ScanConcat(d: Decoder, a: seq<byte>, b: seq<byte>)
    requires Scan(d, a).Incomplete?
    ensures Scan(d, a + b) == Shift(Scan(Scan(d, a).d, b), |a|)
    decreases |a|
  {
    if a == [] {
      assert a + b == b;
    } else {
      assert (a + b)[1..] == a[1..] + b;
      ScanConcat(Feed(d, a[0]).d, a[1..], b);
    }
  }

  /** The stream has given up `got`, in its own way of reading: not at all, straight from the file, or from its buffers. */
  predicate Took(s: State, n: State, got: seq<byte>) {
    if !MayRead(s) then got == [] && (n == s || n == s.(error := true))
    else if s.mode.unbuffered then RawServed(s, n, got)
    else Served(s, n, got)
  }

  /** Why there was no byte: reading was refused, a call failed, or the stream was or came to be at its end. */
  predicate Dry(s: State, n: State) {
    && (MayRead(n) && !n.mode.unbuffered ==> n.pushed == [] == n.input)
    && if !MayRead(s) then n.error && n.failures == s.failures
       else if n.failures == s.failures then n.eof && (s.eof || SimpleFile.From(n.bytes, n.offset) == [])
       else n.error && n.failures == s.failures + 1
  }

  /** Nothing went wrong. */
  predicate Sound(s: State, n: State) { n.failures == s.failures && n.eof == s.eof && n.error == s.error }

  /** The reason stays one when what went before is counted in. */
  lemma DrySince(s: State, n: State, o: State, got: seq<byte>)
    requires Took(s, n, got) && Sound(s, n) && Dry(n, o)
    ensures Dry(s, o)
  {
    TookMode(s, n, got);
  }

  lemma TookNothing(s: State)
    ensures Took(s, s, [])
  {
    ServedNothing(s);
  }

  lemma TookAgain(s: State, n: State, o: State, got: seq<byte>, more: seq<byte>)
    requires Took(s, n, got) && Took(n, o, more)
    ensures Took(s, o, got + more)
  {
    hide Served, RawServed;
    if MayRead(s) {
      TookMode(s, n, got);
      if s.mode.unbuffered { RawServedAgain(s, n, o, got, more); } else { ServedAgain(s, n, o, got, more); }
    }
  }

  lemma TookMode(s: State, n: State, got: seq<byte>)
    requires Took(s, n, got)
    ensures MayRead(n) == MayRead(s) && n.mode == s.mode
  {
    hide Position, Ahead;
  }

  lemma OneByte(s: State, n: State, got: seq<byte>)
    requires ReadOutcome(s, n, 1, got)
    ensures Took(s, n, got) && |got| <= 1 && (if got == [] then Dry(s, n) else Sound(s, n))
  {
    hide Position, Ahead;
  }

  /** A one-byte read. */
  method GetByte(file: File) returns (ok: bool, b: byte)
    requires file.Valid()
    modifies file, file.kernel, file.Buffers()
    ensures file.Valid() && file.kernel == old(file.kernel) && file.Buffers() <= old(file.Buffers())
    ensures Took(old(file.Value()), file.Value(), if ok then [b] else [])
    ensures if ok then Sound(old(file.Value()), file.Value()) else Dry(old(file.Value()), file.Value())
  {
    hide ReadOutcome, Took, Dry, Sound;
    ghost var s := file.Value();
    var cell := new byte[1];
    ghost var before := cell[..];
    assert file.Valid() && file.Value() == s;
    var completed, got := file.Read(cell, 1);
    OneByte(s, file.Value(), got);
    ok, b := completed == 1, cell[0];
    if ok {
      assert cell[..] == got && got == [b];
    } else {
      assert got == [];
    }
  }

  /** wide_error. */
  method WideError(file: File)
    requires file.Valid()
    modifies file`error
    ensures file.Valid() && file.Value() == old(file.Value()).(error := true)
  {
    MarksOk(file.Value());
    file.MarkError();
  }

  lemma ErrorTakes(s: State, n: State, got: seq<byte>)
    requires Took(s, n, got)
    ensures Took(s, n.(error := true), got)
  {
    assert Ahead(n.(error := true)) == Ahead(n);
  }

  /** No byte came: an error if a character had begun. */
  method EndRound(utf8: bool, file: File, state: MbState, ghost s: State, ghost got: seq<byte>)
    requires file.Valid() && state.Valid() && Feeding(utf8, got, state.State()) && Dry(s, file.Value())
    modifies file`error
    ensures file.Valid() && Answer(utf8, s, file.Value(), Ended, got)
    ensures file.Value() == old(file.Value()) || file.Value() == old(file.Value()).(error := true)
  {
    FeedingFacts(utf8, got, state.State());
    ErrorStops(s, file.Value());
    hide Feeding, Dry, file.Valid, file.Value;
    if !(state.count == 0 && state.value == 0) {
      WideError(file);
    }
  }

  /** What a byte completes. */
  method FeedRound(utf8: bool, file: File, state: MbState, ghost got: seq<byte>, b: byte) returns (get: Option<Get>)
    requires file.Valid() && state.Valid() && Feeding(utf8, got, state.State())
    modifies file`error, state
    ensures file.Valid() && state.Valid()
    ensures file.Value() == if get == Some(Malformed) then old(file.Value()).(error := true) else old(file.Value())
    ensures match get
      case None => Feeding(utf8, got + [b], state.State())
      case Some(g) => g != Ended && Answer(utf8, old(file.Value()), file.Value(), g, got + [b])
  {
    hide Feeding, Dry, Ok;
    ghost var d := state.State();
    FeedingFacts(utf8, got, d);
    FeedOne(utf8, got, d, b);
    var result, wc := MbRToWcIn(utf8, Some([b]), state);
    if result == INVALID {
      WideError(file);
      return Some(Malformed);
    }
    return if result != UNFINISHED then Some(Got(wc)) else Option.None;
  }

  /** One byte of a wide character; None says there is more to it. */
  method GetRound(utf8: bool, file: File, state: MbState, ghost got: seq<byte>) returns (get: Option<Get>, ghost more: seq<byte>)
    requires file.Valid() && state.Valid() && Feeding(utf8, got, state.State())
    modifies file, file.kernel, file.Buffers(), state
    ensures file.Valid() && file.kernel == old(file.kernel) && file.Buffers() <= old(file.Buffers()) && state.Valid()
    ensures Took(old(file.Value()), file.Value(), more)
    ensures match get
      case None => Feeding(utf8, got + more, state.State()) && |more| == 1 && Sound(old(file.Value()), file.Value())
      case Some(g) => Answer(utf8, old(file.Value()), file.Value(), g, got + more)
  {
    hide Took, Ok, Dry, Feeding, Answer, Sound, file.Valid, file.Value;
    ghost var s := file.Value();
    var ok, b := GetByte(file);
    ghost var n := file.Value();
    more := if ok then [b] else [];
    ErrorTakes(s, n, more);
    if !ok {
      assert got + more == got;
      EndRound(utf8, file, state, s, got);
      return Some(Ended), more;
    }
    get := FeedRound(utf8, file, state, got, b);
    if get.Some? {
      AnswerSince(utf8, s, n, file.Value(), more, get.value, got + more);
    }
  }

  /** What an answer says about the bytes taken and the state left. */
  predicate Answer(utf8: bool, s: State, n: State, get: Get, got: seq<byte>) {
    match get
    case Got(wc) => ScanIn(utf8, Utf8.INITIAL, got) == Complete(wc, |got|) && Sound(s, n)
    case Malformed => ScanIn(utf8, Utf8.INITIAL, got) == Illegal && n.error && n.failures == s.failures && n.eof == s.eof
    case Ended => ScanIn(utf8, Utf8.INITIAL, got).Incomplete? && Dry(s, n) && (got != [] ==> n.error)
  }

  lemma AnswerSince(utf8: bool, s: State, n: State, o: State, before: seq<byte>, get: Get, got: seq<byte>)
    requires Took(s, n, before) && Sound(s, n) && Answer(utf8, n, o, get, got)
    ensures Answer(utf8, s, o, get, got)
  {
    hide Took, Dry;
    if get == Ended { DrySince(s, n, o, before); }
  }

  lemma ErrorStops(s: State, n: State)
    ensures Dry(s, n) ==> Dry(s, n.(error := true))
  {
  }

  /** fgetwc: __mini_wide_read_character_unlocked. */
  method GetWide(file: File, utf8: bool) returns (get: Get, ghost got: seq<byte>)
    requires file.Valid()
    modifies file, file.kernel, file.Buffers()
    ensures file.Valid() && file.kernel == old(file.kernel) && file.Buffers() <= old(file.Buffers())
    ensures GetOutcome(utf8, old(file.Value()), file.Value(), get, got)
  {
    ghost var s := file.Value();
    var state := new MbState();
    got := [];
    TookNothing(s);
    assert Feeding(utf8, got, state.State());
    hide Took, Feeding, Answer;
    while true
      invariant file.Valid() && file.kernel == old(file.kernel) && file.Buffers() <= old(file.Buffers())
      invariant state.Valid() && fresh(state) && Feeding(utf8, got, state.State()) && Took(s, file.Value(), got) && |got| <= 3
      invariant Sound(s, file.Value())
      decreases 4 - |got|
    {
      ghost var n, before := file.Value(), got;
      var answer, more := GetRound(utf8, file, state, got);
      TookAgain(s, n, file.Value(), got, more);
      got := got + more;
      if answer.Some? {
        AnswerSince(utf8, s, n, file.Value(), before, answer.value, got);
        return answer.value, got;
      }
      FeedingFacts(utf8, got, state.State());
    }
  }

  lemma FeedingFacts(utf8: bool, got: seq<byte>, d: Decoder)
    requires Feeding(utf8, got, d)
    ensures |got| <= 3 && ScanIn(utf8, Utf8.INITIAL, got) == Incomplete(d) && (d == Utf8.INITIAL <==> got == [])
  {
  }

  // ----- Pushing a wide character back

  /** __mini_wide_unget_character_unlocked: the encoding goes back, or the call fails as pushback or encoding does. */
  method UngetWide(file: File, wc: WChar, utf8: bool) returns (ok: bool)
    requires file.Valid()
    modifies file`error, file`eof, file`needsPosition, file`pushbackOffset, file`pushbackLength, file.pushbackBytes
    ensures file.Valid() && (ok <==> Encodable(utf8, wc) && MayPush(old(file.Value()), Encode(wc)))
    ensures file.Value() == if Encodable(utf8, wc) then PushedBack(old(file.Value()), Encode(wc)) else old(file.Value()).(error := true)
  {
    var state := new MbState();
    var bytes := new byte[4];
    var converted := WcRToMbIn(utf8, bytes, wc, state);
    if converted == INVALID {
      WideError(file);
      return false;
    }
    ok := file.PushBack(bytes[..converted]);
  }

  lemma TakenFromUtf8(wc: int, rest: seq<byte>, got: seq<byte>)
    requires Scalar(wc) && got <= Encode(wc) + rest
    ensures |got| < |Encode(wc)| ==> Scan(Utf8.INITIAL, got).Incomplete?
    ensures |Encode(wc)| <= |got| ==> Scan(Utf8.INITIAL, got) == Complete(wc, |Encode(wc)|)
  {
    var e := Encode(wc);
    DecodeOfEncode(wc, []);
    assert e + [] == e;
    if |got| < |e| {
      assert e == got + e[|got|..];
      if !Scan(Utf8.INITIAL, got).Incomplete? { ScanPrefix(Utf8.INITIAL, got, e[|got|..]); }
    } else {
      assert got == e + got[|e|..];
      DecodeOfEncode(wc, got[|e|..]);
    }
  }

  /** Bytes taken from in front of an encoding: if they are not all of it, they do not decide. */
  lemma TakenFromEncoding(utf8: bool, wc: int, rest: seq<byte>, got: seq<byte>)
    requires Encodable(utf8, wc) && got <= Encode(wc) + rest
    ensures |got| < |Encode(wc)| ==> ScanIn(utf8, Utf8.INITIAL, got).Incomplete?
    ensures |Encode(wc)| <= |got| ==> ScanIn(utf8, Utf8.INITIAL, got) == Complete(wc, |Encode(wc)|)
  {
    TakenFromUtf8(wc, rest, got);
    if !utf8 && got != [] {
      assert got[0] == (Encode(wc) + rest)[0] == wc;
    }
  }

  /** A wide character pushed back is the one read next. */
  lemma UngetThenGet(utf8: bool, s: State, n: State, wc: int, get: Get, got: seq<byte>)
    requires Ok(s) && !s.mode.unbuffered && Encodable(utf8, wc) && MayPush(s, Encode(wc))
    requires GetOutcome(utf8, PushedBack(s, Encode(wc)), n, get, got)
    ensures get == Got(wc) && got == Encode(wc)
  {
    var e, p := Encode(wc), PushedBack(s, Encode(wc));
    PushedBackMeans(s, e);
    assert got + Ahead(n) == e + Ahead(s);
    assert got <= e + Ahead(s);
    TakenFromEncoding(utf8, wc, Ahead(s), got);
    if n.pushed == [] == n.input { AheadShrinks(p, n); }
  }

  lemma AheadShrinks(p: State, n: State)
    requires n.pushed == [] == n.input && n.bytes == p.bytes && p.offset <= n.offset
    ensures |Ahead(n)| <= |Ahead(p)| - |p.pushed|
  {
  }
}
