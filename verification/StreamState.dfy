/** What the fields of a stream and its file stand for, as one value: the buffered bytes, the two
    direction flags, the file under it and the two ledgers.  Every operation on streams is an
    equation between such values; the laws about them are here. */
module StreamState {
  import opened ByteMemory
  import opened SimpleFile

  const LONG_MAX := 0x7fff_ffff_ffff_ffff

  datatype Mode = Mode(readable: bool, writable: bool, append: bool, unbuffered: bool, lineBuffered: bool)

  datatype State = State(
    mode: Mode, eof: bool, error: bool, needsPosition: bool, needsSync: bool,
    pending: seq<byte>,     // accepted and not yet delivered
    input: seq<byte>,       // fetched and not yet read
    pushed: seq<byte>,      // pushed back and not yet read again
    bytes: seq<byte>, offset: nat, appends: bool,   // the file
    delivered: seq<byte>, accepted: seq<byte>,      // all bytes written to the file, all bytes taken from the program
    failures: nat)          // system calls and allocations that failed

  /** The direction flags exclude each other, and each covers its buffered bytes. */
  predicate FlagsOk(s: State) {
    && !(s.needsPosition && s.needsSync)
    && (s.pending != [] ==> s.needsSync && !s.mode.unbuffered)
    && (s.input != [] ==> s.needsPosition && !s.mode.unbuffered)
    && (s.pushed != [] ==> s.mode.readable && (s.needsPosition || s.mode.unbuffered))
    && (s.needsSync ==> s.mode.writable) && (s.needsPosition ==> s.mode.readable)
  }

  /** Buffered input is what the file position last passed over. */
  predicate InputOk(s: State) {
    s.input != [] ==> |s.input| <= s.offset <= |s.bytes| && s.input == s.bytes[s.offset - |s.input|..s.offset]
  }

  /** Nothing is lost or repeated: delivered and pending are exactly what was accepted. */
  predicate Conserved(s: State) {
    s.delivered + s.pending == s.accepted
  }

  predicate Ok(s: State) {
    FlagsOk(s) && InputOk(s) && Conserved(s) && s.offset <= LONG_MAX
  }

  /** Where the next byte written will land, unless the file appends. */
  function Landing(s: State): nat { s.offset + |s.pending| }

  /** The logical position. */
  function Position(s: State): int { Landing(s) - |s.input| - |s.pushed| }

  /** The file as it will be once pending output is delivered. */
  function Image(s: State): seq<byte> { Overlay(s.bytes, s.offset, s.pending) }

  /** The bytes that reading will return, in order. */
  function Ahead(s: State): seq<byte> { s.pushed + s.input + From(s.bytes, s.offset) }

  /** A fresh binding of a stream to a file. */
  function Opened(mode: Mode, bytes: seq<byte>, offset: nat, appends: bool): State {
    State(mode, false, false, false, false, [], [], [], bytes, offset, appends, [], [], 0)
  }

  lemma OpenedOk(mode: Mode, bytes: seq<byte>, offset: nat, appends: bool)
    requires offset <= LONG_MAX
    ensures var s := Opened(mode, bytes, offset, appends);
      Ok(s) && Position(s) == offset && Ahead(s) == From(bytes, offset) && Image(s) == bytes
  {
  }

  // ----- Reading

  predicate MayRead(s: State) { s.mode.readable && !s.needsSync }

  /** Inside a buffered read: ok, but input just fetched is not yet marked. */
  predicate Reading(s: State) {
    && MayRead(s) && !s.mode.unbuffered && s.pending == [] && (s.pushed != [] ==> s.needsPosition)
    && InputOk(s) && Conserved(s) && s.offset <= LONG_MAX
  }

  lemma ReadingOk(s: State)
    ensures Reading(s) && (s.input != [] ==> s.needsPosition) ==> Ok(s)
    ensures Ok(s) && MayRead(s) && !s.mode.unbuffered ==> Reading(s) && (s.input != [] ==> s.needsPosition)
  {
  }

  function TakePushed(s: State, n: nat): State
    requires n <= |s.pushed|
  {
    s.(pushed := s.pushed[n..], needsPosition := true)
  }

  function TakeInput(s: State, n: nat): State
    requires n <= |s.input|
  {
    s.(input := s.input[n..], needsPosition := true)
  }

  /** After a read call that returned n bytes into the empty buffer. */
  function Fetched(s: State, n: nat): State
    requires s.offset + n <= |s.bytes|
  {
    s.(input := s.bytes[s.offset..s.offset + n], offset := s.offset + n)
  }

  /** A read call that returned `data`, the bytes at the file position. */
  predicate Fetches(s: State, n: State, data: seq<byte>) {
    && s.offset + |data| <= |s.bytes| && s.offset + |data| <= LONG_MAX && data == s.bytes[s.offset..s.offset + |data|]
    && n == s.(offset := s.offset + |data|)
  }

  function ReadFailed(s: State): State { s.(needsPosition := true, error := true, failures := s.failures + 1) }

  function AtEnd(s: State): State { s.(eof := true, needsPosition := false) }

  /** A read that got all it asked for marks the direction, and nothing else. */
  predicate Marked(s: State, n: State, got: seq<byte>) {
    n.eof == s.eof && n.error == s.error && n.needsPosition == (s.needsPosition || got != []) && n.failures == s.failures
  }

  /** A read that a system call failed, and one that a system call told of the end. */
  predicate CutShort(s: State, n: State) { n.eof == s.eof && n.error && n.needsPosition && n.failures == s.failures + 1 }

  predicate MetEnd(s: State, n: State) {
    n.eof && n.error == s.error && !n.needsPosition && From(n.bytes, n.offset) == [] && n.failures == s.failures
  }

  /** Why a buffered read got less: with nothing left in the buffers a call failed or met the end, or
      the stream was known to be at the end. */
  predicate Ending(s: State, n: State, got: seq<byte>) {
    n.pushed == [] == n.input && (CutShort(s, n) || MetEnd(s, n) || (s.eof && Marked(s, n, got)))
  }

  /** The last round of a buffered read. */
  predicate Halts(n: State, o: State) {
    n.pushed == [] == n.input && (o == ReadFailed(n) || (o == AtEnd(n) && From(n.bytes, n.offset) == []) || (o == n && n.eof))
  }

  /** The file is read only if the buffered bytes are not enough. */
  predicate Frugal(s: State, n: State, length: nat) { n.offset == s.offset || |s.pushed| + |s.input| < length }

  lemma FrugalOn(s: State, n: State, o: State, got: seq<byte>, length: nat)
    requires Served(s, n, got) && |got| < length && Frugal(s, n, length)
    requires o.offset == n.offset || n.pushed == [] == n.input
    ensures Frugal(s, o, length)
  {
    hide Ahead;
  }

  lemma HaltsEnds(s: State, n: State, o: State, got: seq<byte>)
    requires Reading(n) && Marked(s, n, got) && Halts(n, o)
    ensures Ending(s, o, got) && Ok(o) && Served(n, o, [])
  {
    ReadingOk(n);
    ServedNothing(n);
    StoppedServes(n);
  }

  lemma AllRead(s: State, n: State, got: seq<byte>)
    requires Reading(n) && Marked(s, n, got) && got != []
    ensures Ok(n)
  {
    ReadingOk(n);
  }

  lemma MarkedAgain(s: State, n: State, o: State, got: seq<byte>, more: seq<byte>)
    requires Marked(s, n, got) && Marked(n, o, more)
    ensures Marked(s, o, got + more)
  {
  }

  /** The program has been served `got`; what is ahead has shrunk by it and nothing else has changed. */
  predicate Served(s: State, n: State, got: seq<byte>) {
    && got + Ahead(n) == Ahead(s) && Position(n) == Position(s) + |got| && s.offset <= n.offset
    && n.bytes == s.bytes && n.pending == s.pending && n.delivered == s.delivered && n.accepted == s.accepted
    && n.mode == s.mode && n.needsSync == s.needsSync && n.appends == s.appends
  }

  lemma ServedAgain(s: State, n: State, o: State, got: seq<byte>, more: seq<byte>)
    requires Served(s, n, got) && Served(n, o, more)
    ensures Served(s, o, got + more)
  {
    assert (got + more) + Ahead(o) == got + (more + Ahead(o));
  }

  lemma ServedNothing(s: State)
    ensures Served(s, s, [])
  {
    assert [] + Ahead(s) == Ahead(s);
  }

  lemma TakePushedServes(s: State, n: nat)
    requires Reading(s) && n <= |s.pushed|
    ensures Reading(TakePushed(s, n)) && Ok(TakePushed(s, n)) && Served(s, TakePushed(s, n), s.pushed[..n])
    ensures 0 < n ==> Marked(s, TakePushed(s, n), s.pushed[..n])
  {
    assert s.pushed[..n] + (s.pushed[n..] + s.input + From(s.bytes, s.offset)) == s.pushed + s.input + From(s.bytes, s.offset);
  }

  lemma TakeInputReads(s: State, n: nat)
    requires Reading(s) && s.pushed == [] && n <= |s.input|
    ensures Reading(TakeInput(s, n)) && Ok(TakeInput(s, n))
  {
    if s.input[n..] != [] {
      assert s.input[n..] == s.bytes[s.offset - |s.input|..s.offset][n..];
    }
    ReadingOk(TakeInput(s, n));
  }

  lemma TakeInputServes(s: State, n: nat)
    requires Reading(s) && s.pushed == [] && n <= |s.input|
    ensures Reading(TakeInput(s, n)) && Ok(TakeInput(s, n)) && Served(s, TakeInput(s, n), s.input[..n])
    ensures 0 < n ==> Marked(s, TakeInput(s, n), s.input[..n])
  {
    hide From, Reading, Ok;
    TakeInputReads(s, n);
    assert s.input[..n] + ([] + s.input[n..] + From(s.bytes, s.offset)) == [] + s.input + From(s.bytes, s.offset);
  }

  lemma FetchedServes(s: State, n: nat)
    requires Reading(s) && s.pushed == [] == s.input && 0 < n && s.offset + n <= |s.bytes| && s.offset + n <= LONG_MAX
    ensures Reading(Fetched(s, n)) && Served(s, Fetched(s, n), [])
  {
    var t := Fetched(s, n);
    assert From(s.bytes, s.offset) == t.input + From(t.bytes, t.offset);
    assert Ahead(t) == [] + t.input + From(t.bytes, t.offset);
    assert Ahead(s) == [] + [] + From(s.bytes, s.offset);
  }

  lemma StoppedServes(s: State)
    requires Reading(s) && s.pushed == [] == s.input
    ensures Ok(ReadFailed(s)) && Served(s, ReadFailed(s), []) && Ok(AtEnd(s)) && Served(s, AtEnd(s), [])
  {
    assert Ahead(ReadFailed(s)) == Ahead(s) == Ahead(AtEnd(s));
    assert [] + Ahead(s) == Ahead(s);
  }

  /** An unbuffered read took `got` straight from the file; pushed-back bytes stay where they are. */
  predicate RawServed(s: State, n: State, got: seq<byte>) {
    && got <= From(s.bytes, s.offset)
    && n == s.(offset := s.offset + |got|, eof := n.eof, error := n.error, needsPosition := n.needsPosition, failures := n.failures)
    && Position(n) == Position(s) + |got|
  }

  lemma RawServedAgain(s: State, n: State, o: State, got: seq<byte>, more: seq<byte>)
    requires RawServed(s, n, got) && RawServed(n, o, more)
    ensures RawServed(s, o, got + more)
  {
  }

  /** Ok inside an unbuffered read. */
  predicate RawOk(s: State) {
    MayRead(s) && s.mode.unbuffered && s.pending == [] == s.input && Conserved(s) && s.offset <= LONG_MAX
  }

  lemma RawOkStart(s: State)
    requires Ok(s) && MayRead(s) && s.mode.unbuffered
    ensures RawOk(s) && RawServed(s, s, []) && Marked(s, s, [])
  {
  }

  lemma RawOkBounds(s: State)
    requires RawOk(s)
    ensures s.offset <= LONG_MAX
  {
  }

  /** One read call into the caller's memory: some bytes, or a reason to stop. */
  predicate RawStep(s: State, n: State, got: seq<byte>, more: bool) {
    if more then got != [] && RawServed(s, n, got) && RawOk(n) && Marked(s, n, got)
    else got == [] && (n == ReadFailed(s) || (n == AtEnd(s) && From(n.bytes, n.offset) == []))
  }

  lemma RawStepIs(s: State, n: State, got: seq<byte>, more: bool)
    requires RawStep(s, n, got, more)
    ensures if more then got != [] && RawServed(s, n, got) && RawOk(n) && Marked(s, n, got)
            else got == [] && (n == ReadFailed(s) || (n == AtEnd(s) && From(s.bytes, s.offset) == []))
  {
  }

  lemma RawStops(s: State, n: State, got: seq<byte>, length: nat)
    requires Ok(s) && RawOk(s) && RawServed(s, n, got) && RawOk(n) && |got| < length && Marked(s, n, got)
    ensures ReadOutcome(s, ReadFailed(n), length, got)
    ensures From(n.bytes, n.offset) == [] ==> ReadOutcome(s, AtEnd(n), length, got)
  {
  }

  lemma RawDone(s: State, n: State, got: seq<byte>, length: nat)
    requires RawOk(s) && RawServed(s, n, got) && RawOk(n) && |got| == length && 0 < length && Marked(s, n, got)
    ensures ReadOutcome(s, n, length, got)
  {
  }

  /** What a read of `length` bytes does. */
  predicate ReadOutcome(s: State, n: State, length: nat, got: seq<byte>) {
    if length == 0 then n == s && got == []
    else if !MayRead(s) then n == s.(error := true) && got == []
    else
      && |got| <= length && Ok(n)
      && if s.mode.unbuffered then
           RawServed(s, n, got) && (if |got| == length then Marked(s, n, got) else CutShort(s, n) || MetEnd(s, n))
         else
           Served(s, n, got) && Frugal(s, n, length) && (if |got| == length then Marked(s, n, got) else Ending(s, n, got))
  }

  lemma ReadIsOk(s: State, n: State, length: nat, got: seq<byte>)
    requires Ok(s) && ReadOutcome(s, n, length, got)
    ensures Ok(n)
  {
  }

  // ----- Writing

  predicate MayWrite(s: State) { s.mode.writable && !s.needsPosition }

  /** `got` has been accepted: the file to be grows by it at the landing place, and only the output side changed. */
  predicate Written(s: State, n: State, got: seq<byte>) {
    && n.accepted == s.accepted + got && n.appends == s.appends
    && (!s.appends ==> Image(n) == Overlay(Image(s), Landing(s), got) && Landing(n) == Landing(s) + |got|)
    && n.mode == s.mode && n.eof == s.eof && n.needsPosition == s.needsPosition && n.input == s.input && n.pushed == s.pushed
  }

  lemma WrittenAgain(s: State, n: State, o: State, got: seq<byte>, more: seq<byte>)
    requires Written(s, n, got) && Written(n, o, more)
    ensures Written(s, o, got + more)
  {
    hide Overlay, Image, Landing;
    if !s.appends {
      OverlayJoin(Image(s), Landing(s), got, more);
    }
    assert s.accepted + (got + more) == (s.accepted + got) + more;
  }

  lemma WrittenNothing(s: State, n: State)
    requires n == s.(error := n.error, needsSync := n.needsSync, failures := n.failures)
    ensures Written(s, n, [])
  {
  }

  function Accepted(s: State, chunk: seq<byte>): State {
    s.(pending := s.pending + chunk, accepted := s.accepted + chunk)
  }

  lemma AcceptedWritten(s: State, chunk: seq<byte>)
    requires Ok(s) && MayWrite(s) && s.needsSync && !s.mode.unbuffered
    ensures Written(s, Accepted(s, chunk), chunk) && Ok(Accepted(s, chunk))
  {
    hide Overlay;
    var t := Accepted(s, chunk);
    OverlayJoin(s.bytes, s.offset, s.pending, chunk);
    assert t.delivered + t.pending == (s.delivered + s.pending) + chunk == t.accepted;
    assert s.input == [] == s.pushed;
  }

  lemma WritingEmpty(s: State)
    requires Ok(s) && s.needsSync
    ensures s.input == []
  {
  }

  /** The first k pending bytes have been transferred; they still sit in the buffer. */
  predicate Sent(s: State, n: State, k: nat) {
    && k <= |s.pending| && n == s.(bytes := n.bytes, offset := n.offset, delivered := s.delivered + s.pending[..k], failures := n.failures)
    && n.offset <= LONG_MAX && (!s.appends ==> n.bytes == Overlay(s.bytes, s.offset, s.pending[..k]) && n.offset == s.offset + k)
  }

  lemma SentPending(s: State, n: State, k: nat)
    requires Sent(s, n, k)
    ensures n.pending == s.pending
  {
  }

  lemma SentFails(s: State, n: State, o: State, k: nat)
    requires Sent(s, n, k) && o == n.(failures := o.failures)
    ensures Sent(s, o, k)
  {
  }

  lemma SentKeeps(s: State, n: State, k: nat)
    requires Ok(s) && s.pending != [] && Sent(s, n, k)
    ensures k <= |s.pending| && n.pending == s.pending && n.input == [] && n.error == s.error && n.needsSync == s.needsSync
  {
  }

  /** One successful write call of r bytes of `data`. */
  predicate Transferred(s: State, n: State, data: seq<byte>, r: nat) {
    && r <= |data| && n == s.(bytes := n.bytes, offset := n.offset, delivered := s.delivered + data[..r])
    && n.offset <= LONG_MAX && (!s.appends ==> n.bytes == Overlay(s.bytes, s.offset, data[..r]) && n.offset == s.offset + r)
  }

  lemma SentStart(s: State)
    requires s.offset <= LONG_MAX
    ensures Sent(s, s, 0)
  {
    assert s.pending[..0] == [] && s.delivered + [] == s.delivered;
  }

  lemma Prefixes(d: seq<byte>, k: nat, r: nat, before: seq<byte>)
    requires k + r <= |d|
    ensures d[..k + r] == d[..k] + d[k..][..r] && before + d[..k + r] == (before + d[..k]) + d[k..][..r]
    ensures d == d[..k] + d[k..] && (before + d[..k]) + d[k..] == before + d
  {
  }

  lemma SentMore(s: State, n: State, o: State, k: nat, r: nat)
    requires Sent(s, n, k) && Transferred(n, o, s.pending[k..], r)
    ensures Sent(s, o, k + r)
  {
    hide Overlay;
    Prefixes(s.pending, k, r, s.delivered);
    if !s.appends {
      OverlayJoin(s.bytes, s.offset, s.pending[..k], s.pending[k..][..r]);
      assert o.bytes == Overlay(s.bytes, s.offset, s.pending[..k + r]) && o.offset == s.offset + (k + r);
    }
    assert o.delivered == s.delivered + s.pending[..k + r];
    assert o == s.(bytes := o.bytes, offset := o.offset, delivered := o.delivered, failures := o.failures);
  }

  /** Dropping the transferred bytes from the buffer. */
  lemma SentThenDropped(s: State, n: State, k: nat, failed: bool)
    requires Ok(s) && s.pending != [] && Sent(s, n, k)
    ensures var t := n.(pending := s.pending[k..], error := n.error || failed); Ok(t) && Written(s, t, [])
  {
    hide Overlay;
    var t := n.(pending := s.pending[k..], error := n.error || failed);
    Prefixes(s.pending, k, 0, s.delivered);
    assert t.delivered + t.pending == s.accepted == s.accepted + [];
    if !s.appends {
      OverlayJoin(s.bytes, s.offset, s.pending[..k], s.pending[k..]);
      assert Image(t) == Image(s) == Overlay(Image(s), Landing(s), []) by { OverlayNothing(Image(s), Landing(s)); }
    }
  }

  lemma OverlayNothing(m: seq<byte>, at: nat)
    ensures Overlay(m, at, []) == m
  {
  }

  /** One raw write call: transferred and accepted at once. */
  lemma RawWritten(s: State, n: State, data: seq<byte>, r: nat)
    requires Ok(s) && MayWrite(s) && s.mode.unbuffered && Transferred(s, n, data, r)
    ensures var t := n.(accepted := s.accepted + data[..r]); Ok(t) && Written(s, t, data[..r])
  {
    assert s.pending == [] && s.delivered + [] == s.delivered;
    var t := n.(accepted := s.accepted + data[..r]);
    assert t.delivered + t.pending == t.accepted;
  }

  /** What flushing the buffer does: everything delivered, or an error and the rest still pending. */
  predicate FlushOutcome(s: State, n: State, ok: bool) {
    if !s.mode.writable then !ok && n == s.(error := true)
    else Written(s, n, []) && Ok(n) && n.needsSync == s.needsSync && (ok <==> n.pending == [])
         && (if ok then Went(s, n) else n.error && n.failures == s.failures + 1)
  }

  /** Nothing went wrong on the way, or a call failed and left output behind. */
  predicate Went(s: State, n: State) { n.error == s.error && n.failures == s.failures }

  predicate Broke(s: State, n: State) { n.error && n.failures == s.failures + 1 && n.pending != [] }

  const NEWLINE: byte := 10

  /** A line-buffered stream keeps no line end. */
  predicate LinesOut(s: State, n: State) {
    s.mode.lineBuffered && !s.mode.unbuffered && NEWLINE !in s.pending ==> NEWLINE !in n.pending
  }

  lemma LinesOutAgain(s: State, n: State, o: State)
    requires LinesOut(s, n) && LinesOut(n, o) && n.mode == s.mode
    ensures LinesOut(s, o)
  {
  }

  lemma Unlined(s: State, n: State)
    requires s.mode.unbuffered
    ensures LinesOut(s, n)
  {
  }

  lemma WritingStarts(s: State, data: seq<byte>)
    ensures Written(s, s, []) && IsTake([], data) && LinesOut(s, s)
  {
    WrittenNothing(s, s);
  }

  /** All of the data was accepted and nothing failed, or a call failed: then some of the data was
      refused or some output is still pending. */
  predicate WriteEnd(s: State, n: State, all: bool) {
    || (all && n.error == s.error && n.failures == s.failures && LinesOut(s, n))
    || (n.error && n.failures == s.failures + 1 && (!all || n.pending != []))
  }

  /** What a write of `data` does: a prefix `got` is accepted. */
  predicate WriteOutcome(s: State, n: State, data: seq<byte>, got: seq<byte>) {
    if data == [] then n == s && got == []
    else if !MayWrite(s) then n == s.(error := true) && got == []
    else Written(s, n, got) && Ok(n) && n.needsSync && got <= data && WriteEnd(s, n, got == data)
  }

  lemma WrittenMayWrite(s: State, n: State, got: seq<byte>)
    requires Written(s, n, got)
    ensures n.mode == s.mode && (MayWrite(s) ==> MayWrite(n))
  {
  }

  predicate IsTake(got: seq<byte>, data: seq<byte>) { got <= data }

  lemma TakeMore(got: seq<byte>, data: seq<byte>, some: seq<byte>)
    requires IsTake(got, data) && some <= data[|got|..]
    ensures IsTake(got + some, data)
  {
    assert data == got + data[|got|..];
  }

  lemma WriteDone(s: State, n: State, data: seq<byte>, got: seq<byte>)
    requires IsTake(got, data) && Written(s, n, got) && Ok(n) && n.needsSync && MayWrite(s) && data != []
    requires WriteEnd(s, n, |got| == |data|)
    ensures WriteOutcome(s, n, data, got)
  {
  }

  lemma MarksOk(s: State)
    requires Ok(s)
    ensures Ok(s.(error := true)) && (MayWrite(s) ==> Ok(s.(needsSync := true)))
  {
  }

  lemma FailuresWritten(s: State, n: State, o: State, got: seq<byte>)
    requires o == n.(failures := o.failures)
    ensures Written(s, n, got) ==> Written(s, o, got)
    ensures Landing(o) == Landing(n) && Position(o) == Position(n)
  {
  }

  lemma FailuresOk(s: State, n: State)
    requires Ok(s) && n == s.(error := n.error, failures := n.failures)
    ensures Ok(n)
  {
  }

  lemma FlagsClearedOk(s: State)
    requires Ok(s)
    ensures Ok(s.(error := false, eof := false))
  {
  }

  /** The sync flag is set before the first byte is taken. */
  lemma WriteMarked(s: State, n: State, o: State, data: seq<byte>, got: seq<byte>)
    requires MayWrite(s) && n == s.(needsSync := true) && data != [] && WriteOutcome(n, o, data, got)
    ensures WriteOutcome(s, o, data, got)
  {
    hide Overlay, Ok;
  }

  lemma TransferredFrame(s: State, n: State, data: seq<byte>, r: nat)
    requires Transferred(s, n, data, r)
    ensures n == s.(bytes := n.bytes, offset := n.offset, delivered := n.delivered) && n.failures == s.failures
  {
  }

  /** A stream with nothing pending has delivered all it accepted. */
  lemma AllDelivered(s: State, n: State, ok: bool)
    requires Ok(s) && ((FlushOutcome(s, n, ok) && s.mode.writable) || (n == s && s.pending == []))
    ensures Ok(n) && n.mode == s.mode && (ok ==> n.delivered == s.accepted)
  {
    if ok {
      assert n.delivered + [] == n.delivered && s.accepted + [] == s.accepted;
    }
  }

  lemma DeadOk(s: State)
    requires !s.mode.readable && !s.mode.writable && s.offset <= LONG_MAX && s.accepted == s.delivered
    requires s.pending == s.input == s.pushed == [] && !s.needsPosition && !s.needsSync
    ensures Ok(s) && !Live(s)
  {
    assert s.delivered + [] == s.delivered;
  }

  lemma FlushedOk(s: State, n: State, ok: bool)
    requires FlushOutcome(s, n, ok) && Ok(s)
    ensures Ok(n)
  {
  }

  // ----- Synchronising and positioning

  predicate Live(s: State) { s.mode.readable || s.mode.writable }

  /** fflush: on success nothing is pending and the stream may turn to reading. */
  predicate SyncOutcome(s: State, n: State, ok: bool) {
    if !Live(s) then !ok && n == s.(error := true)
    else if !s.mode.writable then ok && n == s
    else
      && Written(s, n, []) && Ok(n) && (ok <==> n.pending == [])
      && (if ok then !n.needsSync && n.error == s.error && n.failures == s.failures
          else n.needsSync == s.needsSync && n.error && n.failures == s.failures + 1)
  }

  lemma SyncedOk(s: State, n: State, ok: bool)
    requires Ok(s) && FlushOutcome(s, n, ok) && s.mode.writable
    ensures SyncOutcome(s, if ok then n.(needsSync := false) else n, ok)
  {
    hide Overlay;
  }

  datatype Whence = Set | Current | End

  /** The offset a seek asks for. */
  function Target(s: State, distance: int, whence: Whence): int {
    distance + match whence case Set => 0 case Current => Position(s) case End => |Image(s)|
  }

  /** fseek: on success the stream stands at the target with nothing buffered and both directions
      open; on failure only pending output may have been delivered. */
  predicate SeekOutcome(s: State, n: State, distance: int, whence: Whence, ok: bool) {
    if !Live(s) then !ok && n == s
    else if ok then
      && n == s.(eof := false, needsPosition := false, needsSync := false, pending := [], input := [], pushed := [],
                 bytes := n.bytes, offset := n.offset, delivered := s.accepted)
      && Ok(n) && (!s.appends ==> n.bytes == Image(s) && n.offset == Target(s, distance, whence) && !NoSuchPlace(s, distance, whence))
    else
      && Written(s, n, []) && Ok(n) && n.needsSync == s.needsSync
      && (n.failures == s.failures + 1 || (Went(s, n) && n.pending == [] && NoSuchPlace(n, distance, whence)))
  }

  /** The target is no file position, or there is more unread than can be counted back from. */
  predicate NoSuchPlace(s: State, distance: int, whence: Whence) {
    !(0 <= Target(s, distance, whence) <= LONG_MAX) || (whence == Current && LONG_MAX < |s.input| + |s.pushed|)
  }

  /** After the flush, at the seek call. */
  lemma SeekDone(s: State, n: State, distance: int, whence: Whence, result: nat)
    requires Ok(s) && Live(s) && Written(s, n, []) && Ok(n) && n.pending == []
    requires n.error == s.error && n.needsSync == s.needsSync && n.failures == s.failures
    requires result <= LONG_MAX
    requires !s.appends ==> result == distance + match whence case Set => 0 case Current => n.offset - |n.input| - |n.pushed| case End => |n.bytes|
    requires whence == Current ==> |n.input| + |n.pushed| <= LONG_MAX
    ensures SeekOutcome(s, n.(offset := result, eof := false, needsPosition := false, needsSync := false, input := [], pushed := []), distance, whence, true)
  {
    hide Overlay;
    if !s.appends {
      OverlayNothing(Image(s), Landing(s));
      OverlayNothing(n.bytes, n.offset);
    }
    assert n.delivered + [] == n.delivered == s.accepted;
  }

  lemma SeekStart(s: State)
    requires Ok(s)
    ensures Written(s, s, []) && (!s.mode.writable ==> s.pending == [])
  {
  }

  lemma LiveMode(s: State)
    ensures Live(s) <==> s.mode.readable || s.mode.writable
  {
  }

  lemma SeekDead(s: State, distance: int, whence: Whence)
    requires !s.mode.readable && !s.mode.writable
    ensures SeekOutcome(s, s, distance, whence, false)
  {
  }

  lemma FlushFacts(s: State, n: State, ok: bool)
    requires FlushOutcome(s, n, ok) && s.mode.writable
    ensures Written(s, n, []) && Ok(n) && n.needsSync == s.needsSync && (ok ==> n.pending == [] && n.error == s.error)
    ensures n.failures == if ok then s.failures else s.failures + 1
  {
  }

  lemma SeekRefused(s: State, n: State, distance: int, whence: Whence)
    requires Live(s) && Written(s, n, []) && Ok(n) && n.needsSync == s.needsSync
    requires n.failures == s.failures + 1 || (Went(s, n) && n.pending == [] && NoSuchPlace(n, distance, whence))
    ensures SeekOutcome(s, n, distance, whence, false)
  {
  }

  /** The seek call is refused, or there is no such place. */
  lemma SeekCallFails(s: State, n: State, o: State, distance: int, whence: Whence)
    requires Live(s) && Written(s, n, []) && Ok(n) && n.needsSync == s.needsSync && n.pending == [] && Went(s, n)
    requires o == n.(failures := n.failures + if 0 <= Target(n, distance, whence) <= LONG_MAX then 1 else 0)
    ensures SeekOutcome(s, o, distance, whence, false) && Ok(o)
  {
    hide Overlay;
    assert Image(o) == Image(n) && Landing(o) == Landing(n) && Target(o, distance, whence) == Target(n, distance, whence);
  }

  /** What a seek call is asked for once the output is delivered. */
  lemma TargetIs(n: State, distance: int, whence: Whence)
    requires n.pending == []
    ensures Target(n, distance, whence) ==
      distance + match whence case Set => 0 case Current => n.offset - |n.input| - |n.pushed| case End => |n.bytes|
  {
  }

  lemma TooFarBack(n: State, distance: int)
    requires n.pending == [] && n.offset <= LONG_MAX
    requires LONG_MAX < |n.input| + |n.pushed| || distance + LONG_MAX + 1 < |n.input| + |n.pushed|
    ensures NoSuchPlace(n, distance, Current)
  {
  }

  lemma SeekDoneOk(s: State, n: State, distance: int, whence: Whence)
    requires Live(s) && SeekOutcome(s, n, distance, whence, true)
    ensures Ok(n)
  {
  }

  lemma SyncedIsOk(s: State, n: State, ok: bool)
    requires SyncOutcome(s, n, ok) && s.mode.writable
    ensures Ok(n)
  {
  }

  /** ftell: the logical position; -1 if the stream is dead, a call failed, or it is no file position. */
  predicate TellOutcome(s: State, n: State, r: int) {
    && Ok(n)
    && (if s.mode.append && s.pending != [] then Written(s, n, []) && n.needsSync == s.needsSync else n == s.(failures := n.failures))
    && (n.failures == s.failures + 1 || Went(s, n))
    && (if r == -1 then !Live(s) || n.failures == s.failures + 1 || LONG_MAX < Landing(n) || Position(n) < 0
        else Live(s) && n.failures == s.failures && 0 <= r <= LONG_MAX && r == Position(n))
  }

  lemma TellDead(s: State)
    requires Ok(s) && !s.mode.readable && !s.mode.writable
    ensures TellOutcome(s, s, -1)
  {
  }

  lemma TellUnflushed(s: State, n: State)
    requires FlushOutcome(s, n, false) && s.mode.writable && s.mode.append && s.pending != []
    ensures TellOutcome(s, n, -1) && Ok(n)
  {
  }

  /** The answer at the seek call, after the flush if there was one. */
  lemma TellThere(s: State, n: State, o: State, r: int)
    requires Live(s) && Ok(o) && o == n.(failures := o.failures) && Went(s, n)
    requires if s.mode.append && s.pending != [] then Written(s, n, []) && n.needsSync == s.needsSync else n == s
    requires o == n || o.failures == n.failures + 1
    requires if r == -1 then o.failures == n.failures + 1 || LONG_MAX < Landing(o) || Position(o) < 0
             else o == n && 0 <= r <= LONG_MAX && r == Position(o)
    ensures TellOutcome(s, o, r)
  {
    FailuresWritten(s, n, o, []);
  }

  predicate MayPush(s: State, bytes: seq<byte>) {
    s.mode.readable && 0 < |bytes| <= 4 && !s.needsSync && s.pushed == []
  }

  /** Pushing back: `bytes` come first again, the position moves down, and writing is closed. */
  function PushedBack(s: State, bytes: seq<byte>): State {
    if MayPush(s, bytes) then s.(pushed := bytes, eof := false, needsPosition := true) else s.(error := true)
  }

  lemma PushedBackMeans(s: State, bytes: seq<byte>)
    requires Ok(s) && MayPush(s, bytes)
    ensures var n := PushedBack(s, bytes);
      && Ok(n) && Position(n) == Position(s) - |bytes| && Ahead(n) == bytes + Ahead(s) && !MayWrite(n)
  {
    assert Ahead(s) == [] + s.input + From(s.bytes, s.offset);
    assert bytes + ([] + s.input + From(s.bytes, s.offset)) == bytes + s.input + From(s.bytes, s.offset);
  }

  /** setvbuf: on success the buffers are new and empty, and the position and the file are as before. */
  predicate RebufferOutcome(s: State, n: State, unbuffered: bool, lineBuffered: bool, size: nat, ok: bool) {
    if ok then
      && Live(s) && Went(s, n) && (unbuffered || 0 < size) && Ok(n) && n.mode == s.mode.(unbuffered := unbuffered, lineBuffered := lineBuffered)
      && n.pending == n.input == n.pushed == [] && !n.needsPosition && !n.needsSync && n.accepted == s.accepted && n.appends == s.appends
      && (!s.appends ==> n.bytes == Image(s) && n.offset == Position(s))
    else
      && Written(s, n, []) && Ok(n)
      && (n.failures == s.failures + 1 || (Went(s, n) && (!Live(s) || (!unbuffered && size == 0) || NoSuchPlace(n, 0, Current))))
  }

  lemma RebufferAnySize(s: State, n: State, lineBuffered: bool, a: nat, b: nat, ok: bool)
    requires RebufferOutcome(s, n, true, lineBuffered, a, ok)
    ensures RebufferOutcome(s, n, true, lineBuffered, b, ok)
  {
  }

  /** Nothing is buffered in either direction, and file and position are as they were. */
  predicate Settled(s: State, n: State) {
    && Ok(n) && n.mode == s.mode && n.pending == n.input == n.pushed == [] && !n.needsPosition && !n.needsSync
    && n.accepted == s.accepted && n.appends == s.appends && Went(s, n)
    && (!s.appends ==> n.bytes == Image(s) && n.offset == Position(s))
  }

  lemma SyncFailed(s: State, n: State)
    requires SyncOutcome(s, n, false) && s.mode.writable
    ensures Written(s, n, []) && n.failures == s.failures + 1
  {
  }

  lemma SyncReadOnly(s: State)
    requires Ok(s) && Live(s) && !s.mode.writable
    ensures SyncOutcome(s, s, true)
  {
  }

  lemma SyncKeepsMode(s: State, n: State)
    requires Live(s) && SyncOutcome(s, n, true)
    ensures n.mode == s.mode
  {
  }

  lemma SettledAlready(s: State, n: State)
    requires Ok(s) && Ok(n) && Live(s) && SyncOutcome(s, n, true)
    requires n.mode.readable ==> !n.needsPosition && n.input == [] == n.pushed
    ensures Settled(s, n)
  {
    hide Overlay;
    OverlayNothing(Image(s), Landing(s));
    OverlayNothing(n.bytes, n.offset);
  }

  lemma SettledBySeek(s: State, n: State, o: State)
    requires Ok(s) && Live(s) && SyncOutcome(s, n, true) && SeekOutcome(n, o, 0, Current, true)
    ensures Settled(s, o)
  {
    hide Overlay;
    OverlayNothing(Image(s), Landing(s));
    OverlayNothing(n.bytes, n.offset);
  }

  lemma SettleFailed(s: State, n: State, o: State)
    requires Ok(s) && Live(s) && SyncOutcome(s, n, true) && SeekOutcome(n, o, 0, Current, false)
    ensures Written(s, o, []) && (o.failures == s.failures + 1 || (Went(s, o) && NoSuchPlace(o, 0, Current)))
  {
    hide Overlay;
    assert Written(s, n, []) by { OverlayNothing(Image(s), Landing(s)); }
    WrittenAgain(s, n, o, [], []);
  }

  lemma SettledFacts(s: State, n: State)
    requires Settled(s, n)
    ensures Ok(n) && n.pending == n.input == n.pushed == []
  {
  }

  lemma RebufferStart(s: State)
    requires Ok(s)
    ensures Written(s, s, [])
  {
  }

  lemma RebufferFailed(s: State, n: State, unbuffered: bool, lineBuffered: bool, size: nat)
    requires Written(s, n, []) && Ok(n)
    requires n.failures == s.failures + 1 || (Went(s, n) && (!Live(s) || (!unbuffered && size == 0) || NoSuchPlace(n, 0, Current)))
    ensures RebufferOutcome(s, n, unbuffered, lineBuffered, size, false)
  {
  }

  lemma SettledRebuffers(s: State, n: State, o: State, unbuffered: bool, lineBuffered: bool, size: nat)
    requires Live(s) && (unbuffered || 0 < size) && Settled(s, n) && o == n.(mode := n.mode.(unbuffered := unbuffered, lineBuffered := lineBuffered))
    ensures RebufferOutcome(s, o, unbuffered, lineBuffered, size, true) && Ok(o)
  {
  }

  lemma SyncNone(s: State)
    requires Ok(s) && !s.mode.writable
    ensures s.pending == []
  {
  }

  lemma PendingWritable(s: State)
    requires Ok(s) && s.pending != []
    ensures s.mode.writable
  {
  }

  lemma WrittenLive(s: State, n: State)
    requires Live(s) && (n == s || Written(s, n, []))
    ensures Live(n)
  {
  }

  function Emptied(s: State): State {
    s.(eof := false, error := false, needsPosition := false, needsSync := false, pending := [], input := [], pushed := [])
  }
}
