/** Whole programs on a stream: every sequence of calls of the methods of Stream.File is a run as
    StreamLaws describes them. */
module StreamRuns {
  import opened ByteMemory
  import opened StreamState
  import opened Stream
  import opened StreamLaws

  type Long = x: int | LONG_MIN <= x <= LONG_MAX

  /** What a program asks for. */
  datatype Call =
    | AskRead(length: nat)
    | AskWrite(data: seq<byte>)
    | AskSync
    | AskSeek(distance: Long, whence: Whence)
    | AskTell
    | AskPushBack(bytes: seq<byte>)
    | AskClearErr
    | AskSetBuffer(buf: array?<byte>, how: Buffering, size: nat)

  /** The operation is an answer to the call. */
  predicate Answers(op: Op, call: Call) {
    match call
    case AskRead(length) => op.Read? && op.length == length
    case AskWrite(data) => op.Write? && op.data == data
    case AskSync => op.Sync?
    case AskSeek(distance, whence) => op.Seek? && op.distance == distance && op.whence == whence
    case AskTell => op.Tell?
    case AskPushBack(bytes) => op.PushBack? && op.bytes == bytes
    case AskClearErr => op.ClearErr?
    case AskSetBuffer(_, how, size) =>
      op.SetBuffer? && op.unbuffered == (how == Buffering.None) && op.lineBuffered == (how == Line) && op.size == size
  }

  function Lent(call: Call): set<array<byte>> {
    if call.AskSetBuffer? && call.buf != null then {call.buf} else {}
  }

  /** A lent buffer is the program's own, and as large as it says. */
  ghost predicate Permitted(f: File, call: Call) {
    Lent(call) !! {f.pushbackBytes, f.inlineWriteBuffer, f.inlineReadBuffer}
    && (call.AskSetBuffer? && call.buf != null ==> call.size <= call.buf.Length)
  }

  method ApplyRead(f: File, length: nat) returns (ghost op: Op)
    requires f.Valid()
    modifies f, f.kernel, f.Buffers()
    ensures f.Valid() && f.kernel == old(f.kernel) && f.Buffers() <= old(f.Buffers())
    ensures Answers(op, AskRead(length)) && Does(old(f.Value()), op, f.Value())
  {
    hide ReadOutcome, Spliced;
    ghost var s := f.Value();
    var memory := new byte[length];
    assert f.Valid() && f.Value() == s;
    var completed, got := f.Read(memory, length);
    op := Op.Read(length, got);
  }

  /** One call of a method. */
  method Apply(f: File, call: Call) returns (ghost op: Op)
    requires f.Valid() && Permitted(f, call)
    modifies f, f.kernel, f.Buffers()
    ensures f.Valid() && f.kernel == old(f.kernel) && Answers(op, call) && Does(old(f.Value()), op, f.Value())
    ensures fresh(f.Buffers() - old(f.Buffers()) - Lent(call))
  {
    hide ReadOutcome, WriteOutcome, SyncOutcome, SeekOutcome, TellOutcome, RebufferOutcome, MayPush, PushedBack, f.Valid, f.Value;
    match call
    case AskRead(length) =>
      op := ApplyRead(f, length);
    case AskWrite(data) =>
      var completed, got := f.Write(data);
      op := Op.Write(data, got);
    case AskSync =>
      var ok := f.Sync();
      op := Op.Sync(ok);
    case AskSeek(distance, whence) =>
      var ok := f.Seek(distance, whence);
      op := Op.Seek(distance, whence, ok);
    case AskTell =>
      var r := f.Tell();
      op := Op.Tell(r);
    case AskPushBack(bytes) =>
      var ok := f.PushBack(bytes);
      op := Op.PushBack(bytes, ok);
    case AskClearErr =>
      f.ClearErr();
      op := Op.ClearErr;
    case AskSetBuffer(buf, how, size) =>
      var ok := f.SetBuffer(buf, how, size);
      op := Op.SetBuffer(how == Buffering.None, how == Line, size, ok);
  }

  /** A run, and the answers to the calls so far. */
  ghost predicate Follows(states: seq<State>, ops: seq<Op>, calls: seq<Call>, last: State) {
    && IsRun(states, ops) && |ops| <= |calls| && states[|ops|] == last
    && forall k :: 0 <= k < |ops| ==> Answers(ops[k], calls[k])
  }

  lemma OneMore(states: seq<State>, ops: seq<Op>, calls: seq<Call>, s: State, op: Op, n: State)
    requires Follows(states, ops, calls, s) && |ops| < |calls| && Answers(op, calls[|ops|]) && Does(s, op, n)
    ensures Follows(states + [n], ops + [op], calls, n)
  {
    hide Does, Answers, IsFresh;
  }

  /** Any sequence of calls on a newly opened stream, whatever the kernel answers, is a run. */
  method RunProgram(f: File, calls: seq<Call>, ghost arena: set<array<byte>>) returns (ghost states: seq<State>, ghost ops: seq<Op>)
    requires f.Valid() && IsFresh(f.Value())
    requires forall c :: c in calls ==> Permitted(f, c) && Lent(c) <= arena
    modifies f, f.kernel, f.Buffers(), arena
    ensures f.Valid() && |ops| == |calls| && Follows(states, ops, calls, f.Value()) && states[0] == old(f.Value())
    ensures f.Value().delivered + f.Value().pending == Output(ops)
  {
    ghost var given, kernel, s := f.Buffers(), f.kernel, f.Value();
    states, ops := [s], [];
    hide Does, f.Valid, f.Value, f.Buffers, IsFresh, Permitted, Answers, Lent;
    assert Follows(states, ops, calls, s);
    hide Follows;
    for i := 0 to |calls|
      invariant f.Valid() && f.kernel == kernel && fresh(f.Buffers() - given - arena)
      invariant Follows(states, ops, calls, f.Value()) && |ops| == i < |states| && states[0] == s
    {
      ghost var before := f.Value();
      ghost var op := Apply(f, calls[i]);
      OneMore(states, ops, calls, before, op, f.Value());
      states, ops := states + [f.Value()], ops + [op];
    }
    Conserves(states, ops, calls, f.Value());
  }

  lemma Conserves(states: seq<State>, ops: seq<Op>, calls: seq<Call>, s: State)
    requires Follows(states, ops, calls, s)
    ensures s.delivered + s.pending == Output(ops)
  {
    EveryRun(states, ops, |ops|);
    assert ops[..|ops|] == ops;
  }
}
