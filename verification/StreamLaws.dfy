/** What the stream operations mean to a program, over one call and over every run: each
    operation is the outcome relation that the methods of Stream.File are proved to meet. */
module StreamLaws {
  import opened ByteMemory
  import opened SimpleFile
  import opened StreamState

  /** An operation and its answer. */
  datatype Op =
    | Read(length: nat, got: seq<byte>)
    | Write(data: seq<byte>, got: seq<byte>)
    | Sync(ok: bool)
    | Seek(distance: int, whence: Whence, ok: bool)
    | Tell(r: int)
    | PushBack(bytes: seq<byte>, ok: bool)
    | ClearErr
    | SetBuffer(unbuffered: bool, lineBuffered: bool, size: nat, ok: bool)

  predicate Does(s: State, op: Op, n: State) {
    match op
    case Read(length, got) => ReadOutcome(s, n, length, got)
    case Write(data, got) => WriteOutcome(s, n, data, got)
    case Sync(ok) => SyncOutcome(s, n, ok)
    case Seek(distance, whence, ok) => SeekOutcome(s, n, distance, whence, ok)
    case Tell(r) => TellOutcome(s, n, r)
    case PushBack(bytes, ok) => (ok <==> MayPush(s, bytes)) && n == PushedBack(s, bytes)
    case ClearErr => n == s.(error := false, eof := false)
    case SetBuffer(unbuffered, lineBuffered, size, ok) => RebufferOutcome(s, n, unbuffered, lineBuffered, size, ok)
  }

  predicate IsFresh(s: State) { s == Opened(s.mode, s.bytes, s.offset, s.appends) && s.offset <= LONG_MAX }

  predicate IsRun(states: seq<State>, ops: seq<Op>) {
    && |states| == |ops| + 1 && IsFresh(states[0])
    && forall i :: 0 <= i < |ops| ==> Does(states[i], ops[i], states[i + 1])
  }

  /** The bytes the write calls reported as accepted, in order. */
  function Output(ops: seq<Op>): seq<byte> {
    if ops == [] then []
    else
      var last := ops[|ops| - 1];
      Output(ops[..|ops| - 1]) + if last.Write? then last.got else []
  }

  lemma StepOk(s: State, op: Op, n: State)
    requires Ok(s) && Does(s, op, n)
    ensures Ok(n)
  {
    hide Overlay, Image, Ahead;
    if op.PushBack? && op.ok { PushedBackMeans(s, op.bytes); }
  }

  lemma StepOutput(s: State, op: Op, n: State)
    requires Ok(s) && Does(s, op, n)
    ensures n.accepted == s.accepted + if op.Write? then op.got else []
  {
    hide Overlay, Image, Ahead, Position, Landing;
    assert s.accepted + [] == s.accepted;
  }

  /** In every state of every run: the flags and buffers are consistent, and what was delivered
      followed by what is pending is all the accepted output, in order, none lost or repeated. */
  lemma {:induction false} EveryRun(states: seq<State>, ops: seq<Op>, i: nat)
    requires IsRun(states, ops) && i < |states|
    ensures Ok(states[i]) && states[i].delivered + states[i].pending == states[i].accepted == Output(ops[..i])
  {
    if i > 0 {
      EveryRun(states, ops, i - 1);
      assert Does(states[i - 1], ops[i - 1], states[i]);
      StepOk(states[i - 1], ops[i - 1], states[i]);
      StepOutput(states[i - 1], ops[i - 1], states[i]);
      assert ops[..i][..i - 1] == ops[..i - 1];
    }
  }

  /** The one buffer that both directions may share never holds both, and neither direction is
      open while the other has bytes in it. */
  lemma NeverBoth(states: seq<State>, ops: seq<Op>, i: nat)
    requires IsRun(states, ops) && i < |states|
    ensures var s := states[i];
      && !(s.needsPosition && s.needsSync)
      && (s.pending != [] ==> s.needsSync && s.input == [] && !MayRead(s))
      && (s.input != [] ==> s.needsPosition && s.pending == [] && !MayWrite(s))
      && (s.pushed != [] && !s.mode.unbuffered ==> s.needsPosition)
  {
    EveryRun(states, ops, i);
  }

  // ----- One logical position

  /** A file as a program sees it. */
  datatype Simple = Simple(image: seq<byte>, pos: int)

  function View(s: State): Simple { Simple(Image(s), Position(s)) }

  function Model(v: Simple, op: Op): Simple {
    match op
    case Read(_, got) => v.(pos := v.pos + |got|)
    case Write(_, got) => if v.pos < 0 then v else Simple(Overlay(v.image, v.pos, got), v.pos + |got|)
    case Seek(distance, whence, true) =>
      v.(pos := distance + match whence case Set => 0 case Current => v.pos case End => |v.image|)
    case PushBack(bytes, true) => v.(pos := v.pos - |bytes|)
    case _ => v
  }

  function ModelRun(v: Simple, ops: seq<Op>): Simple {
    if ops == [] then v else Model(ModelRun(v, ops[..|ops| - 1]), ops[|ops| - 1])
  }

  /** Pushback only on buffered streams: unbuffered reads never look at it. */
  predicate Tidy(s: State) { s.mode.unbuffered ==> s.pushed == [] }

  lemma QuietView(s: State, n: State)
    requires !s.appends && Written(s, n, []) && n.input == s.input && n.pushed == s.pushed
    ensures View(n) == View(s)
  {
    OverlayNothing(Image(s), Landing(s));
  }

  lemma ReadView(s: State, n: State, length: nat, got: seq<byte>)
    requires Ok(s) && ReadOutcome(s, n, length, got)
    ensures View(n) == Simple(Image(s), Position(s) + |got|) && (Tidy(s) ==> Tidy(n))
  {
    if MayRead(s) {
      assert s.pending == [];
      OverlayNothing(s.bytes, s.offset);
      OverlayNothing(n.bytes, n.offset);
    }
  }

  lemma WriteView(s: State, n: State, data: seq<byte>, got: seq<byte>)
    requires Ok(s) && Tidy(s) && !s.appends && WriteOutcome(s, n, data, got)
    ensures View(n) == Model(View(s), Write(data, got)) && Tidy(n)
  {
    if MayWrite(s) { assert Position(s) == Landing(s); } else { assert Overlay(Image(s), 0, []) == Image(s); }
  }

  lemma SeekView(s: State, n: State, distance: int, whence: Whence, ok: bool)
    requires Ok(s) && !s.appends && SeekOutcome(s, n, distance, whence, ok)
    ensures View(n) == Model(View(s), Seek(distance, whence, ok)) && (Tidy(s) ==> Tidy(n)) && !n.appends
  {
    hide Overlay;
    if Live(s) && ok { OverlayNothing(n.bytes, n.offset); } else { OverlayNothing(Image(s), Landing(s)); }
  }

  lemma SettleView(s: State, n: State)
    requires Ok(s) && !s.appends && n.bytes == Image(s) && n.offset == Position(s) && n.pending == n.input == n.pushed == []
    ensures View(n) == View(s)
  {
    hide Overlay;
    OverlayNothing(n.bytes, n.offset);
  }

  /** One operation moves file and position as the simple model says. */
  lemma StepView(s: State, op: Op, n: State)
    requires Ok(s) && Tidy(s) && !s.appends && Does(s, op, n) && (op.PushBack? ==> !s.mode.unbuffered)
    ensures View(n) == Model(View(s), op) && Tidy(n) && !n.appends
  {
    hide Image, Overlay, Ahead, Position, Landing, ReadOutcome, WriteOutcome, SeekOutcome, View;
    match op
    case Read(length, got) => ReadView(s, n, length, got); KeepsAppends(s, op, n); ViewOf(s);
    case Write(data, got) => WriteView(s, n, data, got); KeepsAppends(s, op, n);
    case Seek(distance, whence, ok) => SeekView(s, n, distance, whence, ok);
    case Sync(ok) => QuietOrSame(s, n);
    case Tell(r) => QuietOrSame(s, n);
    case PushBack(bytes, ok) => PushView(s, bytes);
    case ClearErr => SameView(s, n);
    case SetBuffer(_, _, _, ok) => if ok { SettleView(s, n); } else { QuietOrSame(s, n); }
  }

  lemma ViewOf(s: State)
    ensures View(s) == Simple(Image(s), Position(s))
  {
  }

  lemma KeepsAppends(s: State, op: Op, n: State)
    requires Does(s, op, n) && (op.Read? || op.Write?)
    ensures n.appends == s.appends
  {
  }

  lemma SameView(s: State, n: State)
    requires n == s.(error := n.error, eof := n.eof, needsSync := n.needsSync, needsPosition := n.needsPosition, failures := n.failures)
    ensures View(n) == View(s)
  {
  }

  lemma QuietOrSame(s: State, n: State)
    requires !s.appends && (n == s.(failures := n.failures) || n == s.(error := true) || Written(s, n, []))
    ensures View(n) == View(s) && n.appends == s.appends && (Tidy(s) ==> Tidy(n))
  {
    if Written(s, n, []) { QuietView(s, n); }
  }

  lemma PushView(s: State, bytes: seq<byte>)
    requires Ok(s)
    ensures var n := PushedBack(s, bytes); View(n) == Model(View(s), PushBack(bytes, MayPush(s, bytes)))
  {
  }

  /** Over every run of a file that does not append, ftell's position and the file are those of the
      simple model: the position moves up by bytes read or accepted, down by bytes pushed back, is set
      by seeks and kept by everything else, and each accepted byte lands where the position stood. */
  lemma {:induction false} EveryRunView(states: seq<State>, ops: seq<Op>, i: nat)
    requires IsRun(states, ops) && i < |states| && !states[0].appends
    requires forall k :: 0 <= k < |ops| && ops[k].PushBack? ==> !states[k].mode.unbuffered
    ensures View(states[i]) == ModelRun(View(states[0]), ops[..i]) && Tidy(states[i]) && !states[i].appends
  {
    if i > 0 {
      EveryRun(states, ops, i - 1);
      EveryRunView(states, ops, i - 1);
      var s, op, n := states[i - 1], ops[i - 1], states[i];
      assert Does(s, op, n);
      hide Does, Ok, Tidy, View, Model, IsFresh;
      StepView(s, op, n);
      assert ops[..i][..i - 1] == ops[..i - 1];
    }
  }

  // ----- What the position is good for

  /** Where a permitted write lands is the position exactly when no pushed-back byte is unread;
      on a buffered stream that is always. */
  lemma LandsAtPosition(s: State)
    requires Ok(s) && MayWrite(s)
    ensures Landing(s) == Position(s) <==> s.pushed == []
    ensures !s.mode.unbuffered ==> s.pushed == []
  {
  }

  predicate Covered(s: State) { s.pushed != [] ==> s.needsPosition }

  /** An unbuffered read can leave a pushed-back byte unread and writing permitted. */
  lemma UnbufferedPushbackEscapes() returns (s: State, n: State)
    ensures Ok(s) && s.mode.unbuffered && Covered(s) && ReadOutcome(s, n, 1, [])
    ensures n.pushed != [] && MayWrite(n) && Position(n) != Landing(n)
  {
    s := PushedBack(Opened(Mode(true, true, false, true, false), [7], 1, false), [9]);
    n := AtEnd(s);
    assert From(s.bytes, s.offset) == [];
  }

  /** It can happen exactly when something is pushed back and the read asks beyond the end. */
  lemma PushbackStaysCovered(s: State, length: nat)
    requires Ok(s) && MayRead(s) && s.mode.unbuffered && Covered(s) && 0 < length && |s.bytes| <= LONG_MAX
    ensures (forall n, got :: ReadOutcome(s, n, length, got) ==> Covered(n)) <==> (s.pushed == [] || length <= |From(s.bytes, s.offset)|)
  {
    var rest := From(s.bytes, s.offset);
    if s.pushed != [] && |rest| < length {
      var n := AtEnd(s.(offset := s.offset + |rest|));
      assert Position(n) == Position(s) + |rest| && From(n.bytes, n.offset) == [];
      assert ReadOutcome(s, n, length, rest) && !Covered(n);
    } else {
      forall n, got | ReadOutcome(s, n, length, got) ensures Covered(n) {
        if |got| < length { assert n.offset == s.offset + |got|; }
      }
    }
  }

  /** On a buffered stream the bytes ahead are what was pushed back, then the file from there. */
  lemma AheadIsFile(s: State)
    requires Ok(s) && MayRead(s) && !s.mode.unbuffered
    ensures Position(s) + |s.pushed| >= 0 && Ahead(s) == s.pushed + From(Image(s), Position(s) + |s.pushed|)
  {
    OverlayNothing(s.bytes, s.offset);
    if s.input != [] {
      assert s.bytes[s.offset - |s.input|..] == s.input + s.bytes[s.offset..];
      assert s.pushed + s.input + s.bytes[s.offset..] == s.pushed + (s.input + s.bytes[s.offset..]);
    } else {
      assert s.pushed + [] == s.pushed;
    }
  }

  /** A buffered read returns the bytes ahead, in order, and all that are buffered before it stops. */
  lemma ReadReturnsAhead(s: State, n: State, length: nat, got: seq<byte>)
    requires Ok(s) && MayRead(s) && !s.mode.unbuffered && 0 < length && ReadOutcome(s, n, length, got)
    ensures got <= Ahead(s) && Ahead(n) == Ahead(s)[|got|..]
    ensures |got| < length ==> |s.pushed| + |s.input| <= |got|
  {
    hide Overlay;
    assert got + Ahead(n) == Ahead(s);
    assert |Ahead(s)| == |got| + |Ahead(n)|;
  }

  /** What was pushed back is what is read next. */
  lemma PushThenRead(s: State, n: State, bytes: seq<byte>, got: seq<byte>)
    requires Ok(s) && !s.mode.unbuffered && MayPush(s, bytes) && ReadOutcome(PushedBack(s, bytes), n, |bytes|, got)
    ensures got == bytes
  {
    hide Overlay;
    var p := PushedBack(s, bytes);
    PushedBackMeans(s, bytes);
    ReadReturnsAhead(p, n, |bytes|, got);
    assert got == (bytes + Ahead(s))[..|got|];
  }

  /** An unbuffered read returns the next bytes of the file and leaves those pushed back unread: it
      returns them exactly if the file happens to go on with the same bytes. */
  lemma PushThenReadExactly(s: State, n: State, bytes: seq<byte>, got: seq<byte>)
    requires Ok(s) && MayPush(s, bytes) && ReadOutcome(PushedBack(s, bytes), n, |bytes|, got)
    ensures got == bytes <==> !s.mode.unbuffered || (|got| == |bytes| && bytes <= From(s.bytes, s.offset))
    ensures s.mode.unbuffered ==> got <= From(s.bytes, s.offset) && n.pushed == bytes
  {
    if s.mode.unbuffered {
      assert got == From(s.bytes, s.offset)[..|got|];
    } else {
      PushThenRead(s, n, bytes, got);
    }
  }

  /** Accepted output is read back after seeking to where it was written. */
  lemma WriteSeekRead(s: State, w: State, k: State, n: State, data: seq<byte>, written: seq<byte>, got: seq<byte>)
    requires Ok(s) && !s.appends && !s.mode.unbuffered && s.mode.readable && MayWrite(s) && data != []
    requires WriteOutcome(s, w, data, written)
    requires SeekOutcome(w, k, Position(s), Set, true)
    requires ReadOutcome(k, n, |written|, got)
    ensures got <= written
  {
    LandsAtPosition(s);
    if |written| > 0 {
      assert k.mode == s.mode && MayRead(k) && k.bytes == Image(w) == Overlay(Image(s), Position(s), written) && k.offset == Position(s);
      ReadBack(Image(s), Position(s), written);
      ReadReturnsAhead(k, n, |written|, got);
      assert Ahead(k) == [] + [] + From(k.bytes, k.offset);
      assert got == written[..|got|];
    }
  }

  /** After a successful fflush the file has every accepted byte. */
  lemma SyncDelivers(states: seq<State>, ops: seq<Op>, i: nat)
    requires IsRun(states, ops) && i < |ops| && ops[i] == Sync(true)
    ensures states[i + 1].delivered == Output(ops[..i + 1])
  {
    EveryRun(states, ops, i + 1);
    var s, n := states[i], states[i + 1];
    assert Does(s, ops[i], n);
    EveryRun(states, ops, i);
    assert n.pending == [] && n.delivered + [] == n.delivered;
  }

  // ----- What goes wrong has a cause

  /** The calls that are refused before any system call, and set the error flag. */
  predicate Refused(s: State, op: Op) {
    match op
    case Read(length, _) => length != 0 && !MayRead(s)
    case Write(data, _) => data != [] && !MayWrite(s)
    case Sync(_) => !Live(s)
    case PushBack(bytes, _) => !MayPush(s, bytes)
    case _ => false
  }

  /** The error flag comes up only if a system call failed or the call was refused. */
  lemma ErrorHasCause(s: State, op: Op, n: State)
    requires Ok(s) && Does(s, op, n) && n.error && !s.error
    ensures Refused(s, op) || n.failures == s.failures + 1
  {
    hide Overlay, Image, Ahead, Landing, Position;
  }

  function Min(a: nat, b: nat): nat { if a < b then a else b }

  /** If no call fails, a read returns as much as was asked or all there is, and meets the end
      exactly in the second case. */
  lemma ReadsAll(s: State, n: State, length: nat, got: seq<byte>)
    requires Ok(s) && MayRead(s) && ReadOutcome(s, n, length, got) && n.failures == s.failures && !s.eof
    ensures |got| == Min(length, |if s.mode.unbuffered then From(s.bytes, s.offset) else Ahead(s)|)
    ensures n.error == s.error && (n.eof <==> |got| < length)
  {
    hide Overlay;
    if !s.mode.unbuffered && 0 < length {
      assert |Ahead(s)| == |got| + |Ahead(n)|;
    }
  }

  /** If no call fails, everything is accepted. */
  lemma WritesAll(s: State, n: State, data: seq<byte>, got: seq<byte>)
    requires Ok(s) && MayWrite(s) && WriteOutcome(s, n, data, got) && n.failures == s.failures
    ensures got == data && n.error == s.error
  {
    hide Overlay, Image, Landing;
  }

  /** If no call fails, a seek on a live stream succeeds exactly if there is such a place. */
  lemma SeeksThere(s: State, n: State, distance: int, whence: Whence, ok: bool)
    requires Ok(s) && Live(s) && !s.appends && SeekOutcome(s, n, distance, whence, ok) && n.failures == s.failures
    ensures ok <==> !NoSuchPlace(s, distance, whence)
  {
    hide Overlay;
    if !ok {
      OverlayNothing(Image(s), Landing(s));
    }
  }

  /** If no call fails, fflush of a writable stream succeeds, and ftell answers the position unless that is no file position. */
  lemma SyncsAndTells(s: State, n: State, ok: bool, r: int)
    requires Ok(s) && n.failures == s.failures && s.mode.writable
    ensures SyncOutcome(s, n, ok) ==> ok
    ensures TellOutcome(s, n, r) ==> r == Position(n) || (r == -1 && !(0 <= Position(n) && Landing(n) <= LONG_MAX))
  {
    hide Overlay, Image, Landing, Position;
  }

  // ----- One call after another

  /** Pushing back, a seek and clearerr all end the end-of-file state: if no call fails, the next
      buffered read returns as much as was asked or all there is. */
  lemma EndIsNotSticky(s: State, op: Op, k: State, n: State, length: nat, got: seq<byte>)
    requires Ok(s) && Does(s, op, k) && ((op.PushBack? && op.ok) || (op.Seek? && op.ok && Live(s)) || op.ClearErr?)
    requires MayRead(k) && !k.mode.unbuffered && ReadOutcome(k, n, length, got) && n.failures == k.failures
    ensures |got| == Min(length, |Ahead(k)|)
    ensures op.PushBack? ==> Ahead(k) == op.bytes + Ahead(s)
  {
    hide Overlay, Image, Ahead, ReadOutcome;
    StepOk(s, op, k);
    ReadsAll(k, n, length, got);
    if op.PushBack? { PushedBackMeans(s, op.bytes); }
  }

  /** A write closes reading, and a read that got all it asked for closes writing. */
  lemma DirectionsExclude(s: State, op: Op, n: State)
    requires Ok(s) && Does(s, op, n)
    ensures op.Write? && op.data != [] && MayWrite(s) ==> !MayRead(n)
    ensures op.Read? && op.length != 0 && MayRead(s) && |op.got| == op.length ==> !MayWrite(n)
  {
    hide Overlay, Image, Ahead, Landing, Position;
  }

  /** A successful fflush of a stream with output opens reading, a successful seek both directions. */
  lemma TurnsAround(s: State, op: Op, n: State)
    requires Ok(s) && Does(s, op, n)
    ensures op.Sync? && op.ok && s.mode.writable && s.mode.readable ==> MayRead(n)
    ensures op.Seek? && op.ok && Live(s) ==> (MayRead(n) <==> s.mode.readable) && (MayWrite(n) <==> s.mode.writable)
  {
    hide Overlay, Image, Ahead, Landing, Position;
  }
}
