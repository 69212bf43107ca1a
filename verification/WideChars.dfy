/** The restartable conversions between multibyte and wide characters: in a UTF-8 locale, and the
    single characters in the C locale too. */
module WideChars {
  import opened ByteMemory
  import opened Utf8

  const INVALID: int := -1       // (size_t)-1
  const UNFINISHED: int := -2    // (size_t)-2

  type WChar = x: int | -0x8000_0000 <= x < 0x8000_0000

  datatype Option<T> = None | Some(value: T)

  /** An mbstate_t: the total length and the bytes still missing packed into one word, and the bits so far. */
  class MbState {
    var count: nat
    var value: nat

    function State(): Decoder reads this { Decoder(count / 256, count % 256, value) }

    ghost predicate Valid() reads this { Reachable(State()) }

    constructor ()
      ensures Valid() && State() == INITIAL
    {
      count, value := 0, 0;
    }

    method Reset()
      modifies this
      ensures State() == INITIAL && Valid()
    {
      count, value := 0, 0;
    }

    method Start(total: nat, remaining: nat, bits: nat)
      requires remaining < 256
      modifies this
      ensures State() == Decoder(total, remaining, bits)
    {
      count, value := total * 256 + remaining, bits;
    }
  }

  function Shift(s: Scanned, n: nat): Scanned { if s.Complete? then s.(used := s.used + n) else s }

  /** One byte of a character: Feed, on the state in place. */
  method FeedByte(state: MbState, b: byte) returns (step: Step)
    requires state.Valid()
    modifies state
    ensures step == Feed(old(state.State()), b)
    ensures state.Valid() && state.State() == if step.More? then step.d else INITIAL
  {
    FeedReachable(state.State(), b);
    var remaining, total := state.count % 256, state.count / 256;
    if remaining == 0 {
      if b <= 0x7f {
        step := Char(b);
      } else if 0xc2 <= b <= 0xdf {
        state.Start(2, 1, b - 0xc0);
        step := More(state.State());
      } else if 0xe0 <= b <= 0xef {
        state.Start(3, 2, b - 0xe0);
        step := More(state.State());
      } else if 0xf0 <= b <= 0xf4 {
        state.Start(4, 3, b - 0xf0);
        step := More(state.State());
      } else {
        state.Reset();
        step := Bad;
      }
      return;
    }
    if b < 0x80 || 0xbf < b {
      state.Reset();
      return Bad;
    }
    var bits: int := b - 0x80;
    var value := state.value * 64 + bits;
    if remaining != 1 {
      state.Start(total, remaining - 1, value);
      return More(state.State());
    }
    state.Reset();
    step := if value < Minimum(total) || !Scalar(value) then Bad else Char(value);
  }

  /** mbrtowc: what one scan of the bytes finds, from the state and into it. */
  method MbRToWc(s: seq<byte>, state: MbState) returns (result: int, wc: int)
    requires state.Valid()
    modifies state
    ensures state.Valid()
    ensures match Scan(old(state.State()), s)
      case Incomplete(d) => result == UNFINISHED && state.State() == d
      case Illegal => result == INVALID && state.State() == INITIAL
      case Complete(c, used) => result == (if c == 0 then 0 else used) && wc == c && state.State() == INITIAL
  {
    wc := 0;
    if |s| == 0 {
      return UNFINISHED, 0;
    }
    var used := 0;
    while used < |s|
      invariant 0 <= used <= |s| && state.Valid()
      invariant Scan(old(state.State()), s) == Shift(Scan(state.State(), s[used..]), used)
    {
      assert s[used..][1..] == s[used + 1..];
      var step := FeedByte(state, s[used]);
      match step {
        case Char(c) => return if c == 0 then 0 else used + 1, c;
        case Bad => return INVALID, 0;
        case More(_) => used := used + 1;
      }
    }
    return UNFINISHED, 0;
  }

  const C_MAX := 0x7f

  /** What a scan finds in a locale: in the C locale only ASCII, and nothing in the middle of a character. */
  function ScanIn(utf8: bool, d: Decoder, s: seq<byte>): Scanned {
    if utf8 || s == [] then Scan(d, s) else if d == INITIAL && s[0] <= C_MAX then Scan(d, s) else Illegal
  }

  /** The C locale takes one byte, the byte itself. */
  lemma ScanInC(d: Decoder, s: seq<byte>)
    requires s != []
    ensures ScanIn(false, d, s) == if d == INITIAL && s[0] <= C_MAX then Complete(s[0], 1) else Illegal
  {
    if d == INITIAL && s[0] <= C_MAX {
      assert Feed(d, s[0]) == Char(s[0]) && Scan(d, s) == ScanOn(Feed(d, s[0]), s[1..]);
    }
  }

  /** __mini_mbrtowc_mode: no source resets the state; otherwise one scan in the locale. */
  method MbRToWcIn(utf8: bool, source: Option<seq<byte>>, state: MbState) returns (result: int, wc: int)
    requires state.Valid()
    modifies state
    ensures state.Valid()
    ensures source == None ==> result == 0 && state.State() == INITIAL
    ensures source.Some? ==> match ScanIn(utf8, old(state.State()), source.value)
      case Incomplete(d) => result == UNFINISHED && state.State() == d
      case Illegal => result == INVALID && state.State() == INITIAL
      case Complete(c, used) => result == (if c == 0 then 0 else used) && wc == c && state.State() == INITIAL
  {
    if source == None {
      state.Reset();
      return 0, 0;
    }
    var s := source.value;
    if s == [] {
      return UNFINISHED, 0;
    }
    if utf8 {
      result, wc := MbRToWc(s, state);
      return;
    }
    ScanInC(state.State(), s);
    if !(state.count == 0 && state.value == 0) {
      state.Reset();
      return INVALID, 0;
    }
    if C_MAX < s[0] {
      return INVALID, 0;
    }
    return if s[0] == 0 then 0 else 1, s[0];
  }

  /** A program that converts a chunk a character at a time, as mbrtowc's callers do. */
  method ConvertChunk(chunk: seq<byte>, state: MbState) returns (chars: seq<int>, ok: bool)
    requires state.Valid()
    modifies state
    ensures state.Valid() && Text(chars, state.State(), ok) == Decode(old(state.State()), chunk)
  {
    ghost var d := state.State();
    var at := 0;
    chars, ok := [], true;
    while at < |chunk|
      invariant 0 <= at <= |chunk| && state.Valid() && ok
      invariant Decode(d, chunk) == Prefixed(chars, Decode(state.State(), chunk[at..]))
      decreases |chunk| - at
    {
      ghost var e := state.State();
      DecodeScan(e, chunk[at..]);
      var result, wc := MbRToWc(chunk[at..], state);
      if result == UNFINISHED {
        return;
      }
      if result == INVALID {
        return chars, false;
      }
      ghost var used := Scan(e, chunk[at..]).used;
      var step := if result == 0 then 1 else result;
      if result == 0 { ZeroIsOneByte(e, chunk[at..]); }
      assert chunk[at..][used..] == chunk[at + used..];
      chars, at := chars + [wc], at + step;
    }
  }

  function Prefixed(chars: seq<int>, t: Text): Text { t.(chars := chars + t.chars) }

  /** A null character is always one byte. */
  lemma ZeroIsOneByte(d: Decoder, s: seq<byte>)
    requires Reachable(d) && Scan(d, s).Complete? && Scan(d, s).c == 0
    ensures Scan(d, s).used == 1 && d == INITIAL && s[0] == 0
  {
    var step := Feed(d, s[0]);
    if step.More? {
      NotZero(step.d, s[1..]);
    }
  }

  lemma {:induction false} NotZero(d: Decoder, s: seq<byte>)
    requires Reachable(d) && 0 < d.remaining
    ensures Scan(d, s).Complete? ==> Scan(d, s).c != 0
    decreases |s|
  {
    if s != [] {
      FeedReachable(d, s[0]);
      var step := Feed(d, s[0]);
      if step.More? { NotZero(step.d, s[1..]); }
    }
  }

  function Joined(chunks: seq<seq<byte>>): seq<byte> {
    if chunks == [] then [] else Joined(chunks[..|chunks| - 1]) + chunks[|chunks| - 1]
  }

  /** However the input is cut into chunks, the characters are those of the whole. */
  method ConvertChunks(chunks: seq<seq<byte>>, state: MbState) returns (chars: seq<int>, ok: bool)
    requires state.Valid()
    modifies state
    ensures state.Valid()
    ensures ok ==> Decode(old(state.State()), Joined(chunks)) == Text(chars, state.State(), true)
    ensures !ok ==> !Decode(old(state.State()), Joined(chunks)).ok && chars == Decode(old(state.State()), Joined(chunks)).chars
  {
    ghost var d := state.State();
    chars, ok := [], true;
    for i := 0 to |chunks|
      invariant state.Valid() && ok && Decode(d, Joined(chunks[..i])) == Text(chars, state.State(), true)
    {
      ghost var e := state.State();
      var more, good := ConvertChunk(chunks[i], state);
      assert chunks[..i + 1][..i] == chunks[..i];
      DecodeCut(d, Joined(chunks[..i]), chunks[i]);
      chars := chars + more;
      if !good {
        JoinedStops(d, chunks, i + 1);
        return chars, false;
      }
    }
    assert chunks[..|chunks|] == chunks;
  }

  /** Once decoding has failed, later chunks change nothing. */
  lemma {:induction false} JoinedStops(d: Decoder, chunks: seq<seq<byte>>, n: nat)
    requires n <= |chunks| && !Decode(d, Joined(chunks[..n])).ok
    ensures Decode(d, Joined(chunks)) == Decode(d, Joined(chunks[..n]))
    decreases |chunks| - n
  {
    if n == |chunks| {
      assert chunks[..n] == chunks;
    } else {
      assert chunks[..n + 1][..n] == chunks[..n];
      DecodeCut(d, Joined(chunks[..n]), chunks[n]);
      JoinedStops(d, chunks, n + 1);
    }
  }

  // ----- Encoding

  /** wcrtomb. */
  method WcRToMb(s: array<byte>, wc: WChar, state: MbState) returns (result: int)
    requires 4 <= s.Length
    modifies s, state
    ensures state.State() == INITIAL && state.Valid()
    ensures if Scalar(wc) then result == |Encode(wc)| && s[..result] == Encode(wc) && s[result..] == old(s[..])[result..]
            else result == INVALID && s[..] == old(s[..])
  {
    state.Reset();
    if wc < 0 || !Scalar(wc) {
      return INVALID;
    }
    if wc <= 0x7f {
      s[0] := wc;
      return 1;
    }
    if wc <= 0x7ff {
      s[0] := 0xc0 + wc / 64;
      s[1] := 0x80 + wc % 64;
      return 2;
    }
    if wc <= 0xffff {
      s[0] := 0xe0 + wc / 4096;
      s[1] := 0x80 + wc / 64 % 64;
      s[2] := 0x80 + wc % 64;
      return 3;
    }
    s[0] := 0xf0 + wc / 262144;
    s[1] := 0x80 + wc / 4096 % 64;
    s[2] := 0x80 + wc / 64 % 64;
    s[3] := 0x80 + wc % 64;
    return 4;
  }

  /** The wide characters that have an encoding in a locale; it is the same in both. */
  predicate Encodable(utf8: bool, wc: int) { if utf8 then Scalar(wc) else 0 <= wc <= C_MAX }

  /** __mini_wcrtomb_mode: without a destination only the state is reset. */
  method WcRToMbIn(utf8: bool, s: array?<byte>, wc: WChar, state: MbState) returns (result: int)
    requires s != null ==> 4 <= s.Length
    modifies s, state
    ensures state.State() == INITIAL && state.Valid() && (s == null ==> result == 1)
    ensures s != null ==> if Encodable(utf8, wc) then result == |Encode(wc)| && s[..result] == Encode(wc) && s[result..] == old(s[..])[result..]
                          else result == INVALID && s[..] == old(s[..])
  {
    if s == null {
      state.Reset();
      return 1;
    }
    if utf8 {
      result := WcRToMb(s, wc, state);
      return;
    }
    state.Reset();
    if wc < 0 || C_MAX < wc {
      return INVALID;
    }
    s[0] := wc;
    return 1;
  }

  /** The first k wide characters have been converted and none of them ends the text. */
  ghost predicate Converted(src: seq<WChar>, k: nat) {
    k <= |src| && AllScalars(src[..k]) && 0 !in src[..k]
  }

  lemma ConvertedMore(src: seq<WChar>, k: nat)
    requires Converted(src, k) && k < |src| && Scalar(src[k]) && src[k] != 0
    ensures Converted(src, k + 1) && EncodeAll(src[..k + 1]) == EncodeAll(src[..k]) + Encode(src[k])
  {
    assert src[..k + 1][..k] == src[..k];
  }

  /** The encodings of the first k characters, and nothing else, have been stored. */
  ghost predicate Stored(src: seq<WChar>, k: nat, before: seq<byte>, after: seq<byte>) {
    && Converted(src, k) && |EncodeAll(src[..k])| <= |before| && after == EncodeAll(src[..k]) + before[|EncodeAll(src[..k])|..]
  }

  lemma StoredMore(src: seq<WChar>, k: nat, before: seq<byte>, between: seq<byte>, after: seq<byte>)
    requires Stored(src, k, before, between) && k < |src| && Scalar(src[k]) && src[k] != 0
    requires var n := |EncodeAll(src[..k])|; n + |Encode(src[k])| <= |before| && Put(between, n, Encode(src[k]), after)
    ensures Stored(src, k + 1, before, after) && |EncodeAll(src[..k + 1])| == |EncodeAll(src[..k])| + |Encode(src[k])|
  {
    ConvertedMore(src, k);
  }

  /** `after` is `before` with `data` at `at`. */
  predicate Put(before: seq<byte>, at: nat, data: seq<byte>, after: seq<byte>) {
    at + |data| <= |before| && after == before[..at] + data + before[at + |data|..]
  }

  /** The whole text has been converted and terminated. */
  ghost predicate Finished(src: seq<WChar>, before: seq<byte>, after: seq<byte>, result: int) {
    exists k: nat, between ::
      && Stored(src, k, before, between) && k < |src| && src[k] == 0 && result == |EncodeAll(src[..k])| < |before|
      && Put(between, result, [0], after)
  }

  /** Conversion stopped before character k: it has no encoding, or there is no room for all of it. */
  ghost predicate StoppedAt(src: seq<WChar>, k: nat, before: seq<byte>, after: seq<byte>, len: nat, result: int) {
    && Stored(src, k, before, after) && k < |src| && |EncodeAll(src[..k])| <= len
    && if result == INVALID then !Scalar(src[k])
       else result == |EncodeAll(src[..k])| && Scalar(src[k]) && len < result + (if src[k] == 0 then 1 else |Encode(src[k])|)
  }

  lemma FinishedBy(src: seq<WChar>, k: nat, before: seq<byte>, between: seq<byte>, after: seq<byte>, result: int)
    requires Stored(src, k, before, between) && k < |src| && src[k] == 0 && result == |EncodeAll(src[..k])| < |before|
    requires Put(between, result, [0], after)
    ensures Finished(src, before, after, result)
  {
  }

  lemma Stops(src: seq<WChar>, k: nat, before: seq<byte>, after: seq<byte>, len: nat, count: int)
    requires Stored(src, k, before, after) && k < |src| && count == |EncodeAll(src[..k])| <= len
    ensures !Scalar(src[k]) ==> StoppedAt(src, k, before, after, len, INVALID)
    ensures Scalar(src[k]) && len < count + (if src[k] == 0 then 1 else |Encode(src[k])|) ==> StoppedAt(src, k, before, after, len, count)
  {
  }

  method PutZero(dst: array<byte>, at: nat)
    requires at < dst.Length
    modifies dst
    ensures Put(old(dst[..]), at, [0], dst[..])
  {
    dst[at] := 0;
  }

  lemma StoredFits(src: seq<WChar>, k: nat, before: seq<byte>, after: seq<byte>)
    requires Stored(src, k, before, after)
    ensures Converted(src, k) && |after| == |before|
  {
  }

  /** wcsrtombs: whole characters only, as many as fit, and where it stopped. */
  method WcSrToMbs(dst: array<byte>, src: seq<WChar>, len: nat, state: MbState) returns (result: int, next: Option<nat>)
    requires len <= dst.Length && src != [] && src[|src| - 1] == 0
    modifies dst, state
    ensures next == None ==> Finished(src, old(dst[..]), dst[..], result) && result < len
    ensures next.Some? ==> StoppedAt(src, next.value, old(dst[..]), dst[..], len, result)
  {
    ghost var before := dst[..];
    var encoded := new byte[4];
    var cursor, count := 0, 0;
    assert Stored(src, 0, before, dst[..]);
    hide Stored, StoppedAt, Finished, Put, Converted;
    while true
      invariant cursor < |src| && count <= len && Stored(src, cursor, before, dst[..]) && Converted(src, cursor) && count == |EncodeAll(src[..cursor])|
      decreases |src| - cursor
    {
      ghost var between := dst[..];
      Stops(src, cursor, before, between, len, count);
      var converted := WcRToMb(encoded, src[cursor], state);
      if converted == INVALID {
        return INVALID, Some(cursor);
      }
      if src[cursor] == 0 {
        if len <= count {
          return count, Some(cursor);
        }
        PutZero(dst, count);
        FinishedBy(src, cursor, before, between, dst[..], count);
        return count, None;
      }
      if len - count < converted {
        return count, Some(cursor);
      }
      Store(dst, count, encoded, converted);
      StoredMore(src, cursor, before, between, dst[..]);
      StoredFits(src, cursor + 1, before, dst[..]);
      count := count + converted;
      cursor := cursor + 1;
    }
  }

  method Store(dst: array<byte>, at: nat, src: array<byte>, n: nat)
    requires dst != src && n <= src.Length && at + n <= dst.Length
    modifies dst
    ensures Put(old(dst[..]), at, src[..n], dst[..])
  {
    for i := 0 to n
      invariant dst[..at] == old(dst[..at]) && dst[at..at + i] == src[..i] && dst[at + n..] == old(dst[at + n..])
    {
      dst[at + i] := src[i];
    }
  }

  ghost predicate SizedTo(src: seq<WChar>, k: nat, result: int)
    requires k < |src| && Converted(src, k)
  {
    if result == INVALID then !Scalar(src[k]) else src[k] == 0 && result == |EncodeAll(src[..k])|
  }

  /** wcsrtombs with no destination: the size of the whole text, without its terminator. */
  method SizeOfWcs(src: seq<WChar>) returns (result: int)
    requires src != [] && src[|src| - 1] == 0
    ensures exists k :: 0 <= k < |src| && Converted(src, k) && SizedTo(src, k, result)
  {
    var state := new MbState();
    var encoded := new byte[4];
    var cursor := 0;
    result := 0;
    while true
      invariant 0 <= cursor < |src| && Converted(src, cursor) && result == |EncodeAll(src[..cursor])|
      decreases |src| - cursor
    {
      var converted := WcRToMb(encoded, src[cursor], state);
      if converted == INVALID {
        return INVALID;
      }
      if src[cursor] == 0 {
        return;
      }
      ConvertedMore(src, cursor);
      result := result + converted;
      cursor := cursor + 1;
    }
  }

  // ----- Decoding strings

  /** source_window: up to `maximum` bytes, not past the terminator. */
  method SourceWindow(src: seq<byte>, at: nat, maximum: nat) returns (length: nat)
    requires at < |src| && src[|src| - 1] == 0 && 0 < maximum
    ensures 0 < length <= maximum && at + length <= |src| && 0 !in src[at..at + length - 1]
    ensures length < maximum ==> src[at + length - 1] == 0
  {
    length := 0;
    while length < maximum
      invariant length <= maximum && at + length <= |src| && 0 !in src[at..at + length]
      invariant at + length == |src| ==> false
    {
      length := length + 1;
      if src[at + length - 1] == 0 {
        break;
      }
      assert src[at..at + length] == src[at..at + length - 1] + [src[at + length - 1]];
    }
    assert 0 < length;
  }

  /** A window decides: it has four bytes, or ends in a null byte. */
  lemma {:induction false} NullDecides(d: Decoder, s: seq<byte>)
    requires s != [] && s[|s| - 1] == 0
    ensures !Scan(d, s).Incomplete?
    decreases |s|
  {
    var step := Feed(d, s[0]);
    if step.More? { NullDecides(step.d, s[1..]); }
  }

  /** The first `count` characters of the source, up to `cursor`, have been stored. */
  ghost predicate Loaded(d: Decoder, src: seq<byte>, cursor: nat, e: Decoder, before: seq<int>, after: seq<int>, count: nat) {
    && cursor <= |src| && 0 !in src[..cursor] && count <= |before| == |after|
    && Decode(d, src[..cursor]) == Text(after[..count], e, true)
    && after[count..] == before[count..]
  }

  /** The whole string has been converted, and the terminator stored. */
  ghost predicate LoadedAll(d: Decoder, src: seq<byte>, before: seq<int>, after: seq<int>, result: int) {
    exists cursor: nat, between ::
      && 0 <= result < |before| && Loaded(d, src, cursor, INITIAL, before, between, result)
      && cursor < |src| && src[cursor] == 0 && after == between[result := 0]
  }

  /** Conversion stopped at `cursor`: what comes there is no character, or the room is used up. */
  ghost predicate LoadStopped(d: Decoder, src: seq<byte>, cursor: nat, before: seq<int>, after: seq<int>, len: nat, result: int) {
    exists count: nat, e ::
      && Loaded(d, src, cursor, e, before, after, count) && cursor < |src|
      && if result == INVALID then Scan(e, src[cursor..]).Illegal? else result == count == len
  }

  lemma {:induction false} ScanShort(d: Decoder, s: seq<byte>)
    requires Scan(d, s).Complete?
    ensures Scan(d, s[..Scan(d, s).used]) == Scan(d, s)
    ensures s[Scan(d, s).used - 1] == 0 ==> Scan(d, s).c == 0
    decreases |s|
  {
    var step := Feed(d, s[0]);
    if step.More? {
      ScanShort(step.d, s[1..]);
      var u := Scan(d, s).used;
      assert s[..u][1..] == s[1..][..u - 1];
    }
  }

  /** One more character. */
  lemma LoadMore(d: Decoder, src: seq<byte>, cursor: nat, e: Decoder, before: seq<int>, after: seq<int>, count: nat, window: nat)
    requires Loaded(d, src, cursor, e, before, after, count) && count < |before| && cursor + window <= |src| && 0 < window
    requires 0 !in src[cursor..cursor + window - 1]
    requires var s := Scan(e, src[cursor..cursor + window]); s.Complete? && s.c != 0
    ensures var s := Scan(e, src[cursor..cursor + window]);
      Loaded(d, src, cursor + s.used, INITIAL, before, after[count := s.c], count + 1)
  {
    var s := Scan(e, src[cursor..cursor + window]);
    var piece := src[cursor..cursor + window][..s.used];
    ScanShort(e, src[cursor..cursor + window]);
    assert src[..cursor + s.used] == src[..cursor] + piece;
    DecodeCut(d, src[..cursor], piece);
    DecodeScan(e, piece);
    assert piece[s.used..] == [] && Decode(INITIAL, []) == Text([], INITIAL, true);
    assert [s.c] + [] == [s.c] && after[count := s.c][..count + 1] == after[..count] + [s.c];
    forall i | 0 <= i < |piece| ensures piece[i] != 0 {
      var bytes := src[cursor..cursor + window];
      assert piece[i] == bytes[i];
      if i < window - 1 { assert bytes[i] == src[cursor..cursor + window - 1][i]; } else { assert i == s.used - 1; }
    }
    assert 0 !in piece;
  }

  /** mbsrtowcs. */
  method MbSrToWcs(dst: array<int>, src: seq<byte>, len: nat, state: MbState) returns (result: int, next: Option<nat>)
    requires len <= dst.Length && src != [] && src[|src| - 1] == 0 && state.Valid()
    modifies dst, state
    ensures state.Valid()
    ensures next == None ==> LoadedAll(old(state.State()), src, old(dst[..]), dst[..], result) && result < len
    ensures next.Some? ==> LoadStopped(old(state.State()), src, next.value, old(dst[..]), dst[..], len, result)
  {
    ghost var d, before := state.State(), dst[..];
    var cursor, count := 0, 0;
    while true
      invariant cursor < |src| && count <= len && state.Valid()
      invariant Loaded(d, src, cursor, state.State(), before, dst[..], count)
      decreases |src| - cursor
    {
      ghost var e, between := state.State(), dst[..];
      if len <= count {
        return count, Some(cursor);
      }
      var window := SourceWindow(src, cursor, 4);
      var piece := src[cursor..cursor + window];
      Decides(e, piece);
      assert src[cursor..] == piece + src[cursor + window..];
      ScanPrefix(e, piece, src[cursor + window..]);
      hide Loaded;
      var result, wc := MbRToWc(piece, state);
      if result == INVALID || result == UNFINISHED {
        return INVALID, Some(cursor);
      }
      if result == 0 {
        ZeroIsOneByte(e, piece);
        dst[count] := 0;
        assert dst[..] == between[count := 0];
        return count, None;
      }
      LoadMore(d, src, cursor, e, before, between, count, window);
      dst[count] := wc;
      assert dst[..] == between[count := wc];
      StillInside(src, cursor, window, result, e);
      count := count + 1;
      cursor := cursor + result;
    }
  }

  /** What comes before `cursor` is `count` characters, none of them null. */
  ghost predicate Counted(d: Decoder, src: seq<byte>, cursor: nat, e: Decoder, count: nat) {
    && cursor <= |src| && 0 !in src[..cursor]
    && var t := Decode(d, src[..cursor]); t.ok && t.state == e && |t.chars| == count
  }

  /** The count of all characters, or one comes that is none. */
  ghost predicate SizedMbs(d: Decoder, src: seq<byte>, result: int) {
    exists cursor: nat, e, count: nat ::
      && Counted(d, src, cursor, e, count) && cursor < |src|
      && if result == INVALID then Scan(e, src[cursor..]).Illegal? else src[cursor] == 0 && e == INITIAL && result == count
  }

  lemma CountMore(d: Decoder, src: seq<byte>, cursor: nat, e: Decoder, count: nat, window: nat)
    requires Counted(d, src, cursor, e, count) && cursor + window <= |src| && 0 < window && 0 !in src[cursor..cursor + window - 1]
    requires var s := Scan(e, src[cursor..cursor + window]); s.Complete? && s.c != 0
    ensures Counted(d, src, cursor + Scan(e, src[cursor..cursor + window]).used, INITIAL, count + 1)
  {
    var before := Decode(d, src[..cursor]).chars + [0];
    assert before[..count] == Decode(d, src[..cursor]).chars;
    LoadMore(d, src, cursor, e, before, before, count, window);
  }

  /** mbsrtowcs with no destination: the number of characters up to the terminator, or an error at a
      bad one; the state is a copy. */
  method SizeOfMbs(src: seq<byte>, state: MbState) returns (result: int)
    requires src != [] && src[|src| - 1] == 0 && state.Valid()
    ensures SizedMbs(state.State(), src, result)
  {
    ghost var d := state.State();
    var sizing := new MbState();
    sizing.count, sizing.value := state.count, state.value;
    var cursor, count := 0, 0;
    while true
      invariant cursor < |src| && sizing.Valid() && state.State() == d && Counted(d, src, cursor, sizing.State(), count)
      decreases |src| - cursor
    {
      ghost var e := sizing.State();
      var window := SourceWindow(src, cursor, 4);
      var piece := src[cursor..cursor + window];
      Decides(e, piece);
      assert src[cursor..] == piece + src[cursor + window..];
      ScanPrefix(e, piece, src[cursor + window..]);
      hide Counted;
      var converted, wc := MbRToWc(piece, sizing);
      if converted == INVALID || converted == UNFINISHED {
        return INVALID;
      }
      if converted == 0 {
        ZeroIsOneByte(e, piece);
        return count;
      }
      CountMore(d, src, cursor, e, count, window);
      StillInside(src, cursor, window, converted, e);
      count := count + 1;
      cursor := cursor + converted;
    }
  }

  lemma Decides(d: Decoder, s: seq<byte>)
    requires Reachable(d) && s != [] && (|s| == 4 || s[|s| - 1] == 0)
    ensures !Scan(d, s).Incomplete?
  {
    if |s| == 4 { FourDecide(d, s); } else { NullDecides(d, s); }
  }

  /** A character that is not null leaves the terminator ahead. */
  lemma StillInside(src: seq<byte>, cursor: nat, window: nat, used: nat, e: Decoder)
    requires src != [] && src[|src| - 1] == 0 && cursor + window <= |src|
    requires var s := Scan(e, src[cursor..cursor + window]); s.Complete? && s.c != 0 && s.used == used
    ensures cursor + used < |src|
  {
    ScanShort(e, src[cursor..cursor + window]);
  }
}
