/** Buffered streams: the FILE structure with its direction flags and buffers, over a kernel that
    may transfer less than asked or fail at any time.  After `SetBuffer` the read and the write
    buffer are one array. */
module Stream {
  import opened ByteMemory
  import opened SimpleFile
  import opened StreamState

  const BUFFER_SIZE := 256
  const PUSHBACK_MAX := 4
  const LONG_MIN := -0x8000_0000_0000_0000

  datatype Buffering = Full | Line | None

  /** An open file description.  `delivered` is every byte a write call has transferred, `failures`
      counts the calls that failed. */
  class Kernel {
    var bytes: seq<byte>
    var offset: nat
    const appends: bool
    ghost var delivered: seq<byte>
    ghost var failures: nat

    ghost predicate Valid() reads this { offset <= LONG_MAX }

    constructor (contents: seq<byte>, appends: bool)
      ensures Valid() && bytes == contents && offset == 0 && delivered == [] && failures == 0 && this.appends == appends
    {
      bytes, offset, this.appends, delivered, failures := contents, 0, appends, [], 0;
    }

    /** The read system call: a negative answer is an error, and one beyond `n` transferred nothing. */
    method Read(n: nat) returns (result: int, data: seq<byte>)
      requires Valid() && 0 < n
      modifies this`offset, this`failures
      ensures Valid() && (result == 0 ==> From(bytes, offset) == [])
      ensures failures == old(failures) + if 0 <= result <= n then 0 else 1
      ensures if 0 < result <= n then |data| == result && From(old(bytes), old(offset)) == data + From(bytes, offset)
                                      && offset == old(offset) + result <= |bytes| && data == bytes[old(offset)..offset]
              else offset == old(offset) && data == []
    {
      var some := From(bytes, offset);
      var limit := if |some| < n then |some| else n;
      data := [];
      if * {
        result := -5;
      } else if * {
        result := n + 1;
      } else if limit == 0 {
        result := 0;
      } else if LONG_MAX - offset < limit {
        result := -75;
      } else {
        result :| 1 <= result <= limit;
        data := some[..result];
        offset := offset + result;
      }
      if result < 0 || n < result {
        failures := failures + 1;
      }
    }

    method Write(data: seq<byte>) returns (result: int)
      requires Valid() && data != []
      modifies this
      ensures Valid()
      ensures if 0 < result <= |data| then delivered == old(delivered) + data[..result]
                                           && (!appends ==> bytes == Overlay(old(bytes), old(offset), data[..result])
                                                            && offset == old(offset) + result)
              else bytes == old(bytes) && offset == old(offset) && delivered == old(delivered)
      ensures failures == old(failures) + if 0 < result <= |data| then 0 else 1
    {
      var at := if appends then |bytes| else offset;
      if * {
        result := -5;
      } else if * {
        result := 0;
      } else if * {
        result := |data| + 1;
      } else {
        result :| 1 <= result <= |data|;
        if LONG_MAX - at < result {
          result := -27;
        } else {
          bytes := Overlay(bytes, at, data[..result]);
          offset := at + result;
          delivered := delivered + data[..result];
        }
      }
      if result <= 0 || |data| < result {
        failures := failures + 1;
      }
    }

    method Seek(distance: int, whence: Whence) returns (result: int)
      requires Valid()
      modifies this`offset, this`failures
      ensures Valid() && (result < 0 ==> offset == old(offset)) && (0 <= result ==> offset == result)
      ensures 0 <= result ==>
        result == distance + match whence case Set => 0 case Current => old(offset) case End => |bytes|
      ensures var target := distance + match whence case Set => 0 case Current => old(offset) case End => |bytes|;
        failures == old(failures) + if result < 0 && 0 <= target <= LONG_MAX then 1 else 0
    {
      var target := distance + match whence case Set => 0 case Current => offset case End => |bytes|;
      if * {
        result := -29;
      } else if 0 <= target <= LONG_MAX {
        offset := target;
        result := target;
      } else {
        result := -22;
      }
      if result < 0 && 0 <= target <= LONG_MAX {
        failures := failures + 1;
      }
    }
  }

  /** `after` is `before` with `got` stored at `at`. */
  predicate Spliced(before: seq<byte>, at: nat, got: seq<byte>, after: seq<byte>) {
    at + |got| <= |before| && after == before[..at] + got + before[at + |got|..]
  }

  lemma SplicedNothing(a: seq<byte>, at: nat)
    requires at <= |a|
    ensures Spliced(a, at, [], a)
  {
  }

  lemma SplicedGrows(a: seq<byte>, at: nat, got: seq<byte>, b: seq<byte>)
    requires Spliced(a, at, got, b)
    ensures |b| == |a| && at + |got| <= |b| && b[..at + |got|] == a[..at] + got
  {
  }

  lemma SplicedAgain(a: seq<byte>, at: nat, got: seq<byte>, b: seq<byte>, more: seq<byte>, c: seq<byte>)
    requires Spliced(a, at, got, b) && Spliced(b, at + |got|, more, c)
    ensures Spliced(a, at, got + more, c)
  {
  }

  method Copy(dst: array<byte>, at: nat, src: array<byte>, from: nat, n: nat)
    requires dst != src && at + n <= dst.Length && from + n <= src.Length
    modifies dst
    ensures Spliced(old(dst[..]), at, src[from..from + n], dst[..])
  {
    for i := 0 to n
      invariant dst[..at] == old(dst[..at]) && dst[at + n..] == old(dst[at + n..])
      invariant dst[at..at + i] == src[from..from + i]
    {
      dst[at + i] := src[from + i];
    }
  }

  /** Copies as much of src[lo..hi] as is wanted. */
  method CopySome(dst: array<byte>, at: nat, src: array<byte>, lo: nat, hi: nat, wanted: nat) returns (chunk: nat)
    requires dst != src && lo < hi <= src.Length && 0 < wanted && at + wanted <= dst.Length
    modifies dst
    ensures 0 < chunk <= wanted && chunk <= hi - lo && Spliced(old(dst[..]), at, src[lo..hi][..chunk], dst[..])
  {
    var available := hi - lo;
    chunk := if available < wanted then available else wanted;
    Copy(dst, at, src, lo, chunk);
    assert src[lo..hi][..chunk] == src[lo..lo + chunk];
  }

  /** Stores a system call's data, or a caller's, into a buffer. */
  method StoreAt(dst: array<byte>, at: nat, data: seq<byte>)
    requires at + |data| <= dst.Length
    modifies dst
    ensures Spliced(old(dst[..]), at, data, dst[..])
  {
    for i := 0 to |data|
      invariant dst[..at] == old(dst[..at]) && dst[at + |data|..] == old(dst[at + |data|..])
      invariant dst[at..at + i] == data[..i]
    {
      dst[at + i] := data[i];
    }
  }

  /** Moves the bytes from `from` up to `to` to the front. */
  method ShiftDown(a: array<byte>, from: nat, to: nat)
    requires from <= to <= a.Length
    modifies a
    ensures a[..to - from] == old(a[from..to])
  {
    ghost var moved := a[from..to];
    for i := 0 to to - from
      invariant forall k :: 0 <= k < i ==> a[k] == moved[k]
      invariant forall k :: i <= k < to - from ==> a[from + k] == moved[k]
    {
      a[i] := a[from + i];
    }
    assert a[..to - from] == moved;
  }

  ghost function Part(a: array?<byte>, lo: nat, hi: nat): seq<byte> reads a {
    if a != null && lo <= hi <= a.Length then a[lo..hi] else []
  }

  /** How much of the data goes into the buffer in one round, and whether it ends a line. */
  method ChunkLength(data: seq<byte>, space: nat, lineBuffered: bool) returns (chunk: nat, flushLine: bool)
    requires data != [] && 0 < space
    ensures 0 < chunk <= |data| && chunk <= space
    ensures !flushLine ==> chunk == |data| || chunk == space
    ensures lineBuffered ==> (flushLine <==> NEWLINE in data[..chunk]) && NEWLINE !in data[..chunk - 1]
    ensures !lineBuffered ==> !flushLine
    ensures |data| <= space && (!lineBuffered || NEWLINE !in data) ==> chunk == |data| && !flushLine
  {
    chunk, flushLine := if |data| <= space then |data| else space, false;
    if lineBuffered {
      var limit := chunk;
      for i := 0 to limit
        invariant chunk == limit && !flushLine && NEWLINE !in data[..i]
      {
        if data[i] == NEWLINE {
          chunk, flushLine := i + 1, true;
          assert data[..i + 1][i] == NEWLINE;
          return;
        }
      }
    }
  }

  class File {
    var kernel: Kernel
    var mode: Mode
    var eof: bool
    var error: bool
    var needsPosition: bool
    var needsSync: bool
    var writeLength: nat
    var writeBuffer: array?<byte>
    var readOffset: nat
    var readLength: nat
    var pushbackOffset: nat
    var pushbackLength: nat
    const pushbackBytes: array<byte>
    var readBuffer: array?<byte>
    var bufferSize: nat
    const inlineWriteBuffer: array<byte>
    const inlineReadBuffer: array<byte>
    /** Every byte a write call reported as accepted. */
    ghost var accepted: seq<byte>

    // ----- What the fields stand for

    ghost function Buffers(): set<array<byte>> reads this`writeBuffer, this`readBuffer {
      {pushbackBytes, inlineWriteBuffer, inlineReadBuffer}
      + (if writeBuffer == null then {} else {writeBuffer}) + (if readBuffer == null then {} else {readBuffer})
    }

    /** Buffers are both missing, or the two inline ones, or one shared array. */
    ghost predicate Shape() reads this {
      && pushbackBytes.Length == PUSHBACK_MAX && inlineWriteBuffer.Length == inlineReadBuffer.Length == BUFFER_SIZE
      && inlineWriteBuffer != inlineReadBuffer && pushbackBytes != inlineWriteBuffer && pushbackBytes != inlineReadBuffer
      && writeBuffer != pushbackBytes && readBuffer != pushbackBytes
      && (|| (writeBuffer == null && readBuffer == null && bufferSize == 0)
          || (writeBuffer == inlineWriteBuffer && readBuffer == inlineReadBuffer && bufferSize == BUFFER_SIZE)
          || (writeBuffer == readBuffer && writeBuffer != null && 0 < bufferSize <= writeBuffer.Length))
      && writeLength <= bufferSize && readOffset <= readLength <= bufferSize && pushbackOffset <= pushbackLength <= PUSHBACK_MAX
    }

    ghost function Value(): State reads this, kernel, Buffers() {
      State(mode, eof, error, needsPosition, needsSync,
            Part(writeBuffer, 0, writeLength), Part(readBuffer, readOffset, readLength),
            Part(pushbackBytes, pushbackOffset, pushbackLength),
            kernel.bytes, kernel.offset, kernel.appends, kernel.delivered, accepted, kernel.failures)
    }

    ghost predicate Valid() reads this, kernel, Buffers() {
      Shape() && Ok(Value())
    }

    /** The fields behind the value's parts. */
    lemma Fields()
      requires Shape()
      ensures Value().mode == mode && Value().eof == eof && Value().needsPosition == needsPosition && Value().needsSync == needsSync
      ensures |Value().pending| == writeLength && |Value().input| == readLength - readOffset
      ensures |Value().pushed| == pushbackLength - pushbackOffset && Unread() == |Value().input| + |Value().pushed|
      ensures Value().bytes == kernel.bytes && Value().offset == kernel.offset && Value().accepted == accepted && Value().delivered == kernel.delivered && Value().failures == kernel.failures
      ensures Ok(Value()) ==> kernel.Valid()
    {
    }

    lemma OutputFields()
      requires Shape() && writeBuffer != null
      ensures writeLength <= writeBuffer.Length && writeBuffer != pushbackBytes && Value().pending == writeBuffer[..writeLength]
      ensures readOffset == readLength ==> Part(readBuffer, readOffset, readLength) == []
    {
    }

    lemma SizeFields()
      requires Shape()
      ensures writeLength <= bufferSize && (writeBuffer != null ==> 0 < bufferSize) && (writeBuffer == null ==> bufferSize == 0)
    {
    }

    /** How much output can be buffered before a flush. */
    ghost function Room(): int reads this {
      (if bufferSize == 0 then BUFFER_SIZE else bufferSize) - writeLength
    }

    lemma PushedFields()
      requires Shape()
      ensures pushbackOffset <= pushbackLength <= pushbackBytes.Length
      ensures Value().pushed == pushbackBytes[pushbackOffset..pushbackLength]
    {
    }

    lemma InputFields()
      requires Shape() && readOffset < readLength
      ensures readBuffer != null && readLength <= readBuffer.Length && Value().input == readBuffer[readOffset..readLength]
    {
    }

    /** A stream being read holds no output and has room for input. */
    lemma ReadingFields()
      requires Shape() && Reading(Value()) && readBuffer != null
      ensures 0 < bufferSize && writeLength == 0 && kernel.Valid()
    {
      Fields();
    }

    function Unread(): nat
      requires Shape()
      reads this
    {
      (readLength - readOffset) + (pushbackLength - pushbackOffset)
    }

    // ----- Opening

    constructor (kernel: Kernel, mode: Mode)
      requires kernel.Valid() && kernel.delivered == [] && kernel.failures == 0
      ensures Valid() && this.kernel == kernel && fresh(Buffers())
      ensures Value() == Opened(mode, kernel.bytes, kernel.offset, kernel.appends)
    {
      this.kernel, this.mode := kernel, mode;
      eof, error, needsPosition, needsSync := false, false, false, false;
      writeLength, readOffset, readLength, pushbackOffset, pushbackLength := 0, 0, 0, 0, 0;
      writeBuffer, readBuffer, bufferSize := null, null, 0;
      pushbackBytes := new byte[PUSHBACK_MAX];
      inlineWriteBuffer := new byte[BUFFER_SIZE];
      inlineReadBuffer := new byte[BUFFER_SIZE];
      accepted := [];
      new;
      OpenedOk(mode, kernel.bytes, kernel.offset, kernel.appends);
    }

    method EnsureStorage()
      requires Shape()
      modifies this`writeBuffer, this`readBuffer, this`bufferSize
      ensures Shape() && writeBuffer != null && readBuffer != null && Buffers() <= old(Buffers()) && Value() == old(Value())
      ensures old(writeBuffer) != null ==> writeBuffer == old(writeBuffer) && readBuffer == old(readBuffer) && bufferSize == old(bufferSize)
      ensures bufferSize == if old(bufferSize) == 0 then BUFFER_SIZE else old(bufferSize)
    {
      if bufferSize == 0 {
        bufferSize := BUFFER_SIZE;
      }
      if writeBuffer == null {
        writeBuffer := inlineWriteBuffer;
      }
      if readBuffer == null {
        readBuffer := inlineReadBuffer;
      }
    }

    // ----- Reading

    method AdvancePushed(chunk: nat)
      requires Shape() && chunk <= pushbackLength - pushbackOffset
      modifies this`pushbackOffset, this`pushbackLength, this`needsPosition
      ensures Shape() && Value() == TakePushed(old(Value()), chunk)
    {
      pushbackOffset := pushbackOffset + chunk;
      if pushbackOffset == pushbackLength {
        pushbackOffset := 0;
        pushbackLength := 0;
      }
      needsPosition := true;
    }

    method AdvanceInput(chunk: nat)
      requires Shape() && chunk <= readLength - readOffset
      modifies this`readOffset, this`needsPosition
      ensures Shape() && Value() == TakeInput(old(Value()), chunk)
    {
      readOffset := readOffset + chunk;
      needsPosition := true;
    }

    method Hold(data: seq<byte>)
      requires Shape() && readBuffer != null && writeLength == 0 && 0 < |data| <= bufferSize
      modifies this`readOffset, this`readLength, readBuffer
      ensures Shape() && Value() == old(Value()).(input := data)
    {
      StoreAt(readBuffer, 0, data);
      readOffset := 0;
      readLength := |data|;
    }

    method MarkReadError()
      modifies this`needsPosition, this`error
      ensures Shape() == old(Shape()) && Value() == old(Value()).(needsPosition := true, error := true)
    {
      needsPosition := true;
      error := true;
    }

    method MarkEnd()
      requires Shape() && Value().input == []
      modifies this`readOffset, this`readLength, this`eof, this`needsPosition
      ensures Shape() && Value() == AtEnd(old(Value()))
    {
      readOffset := 0;
      readLength := 0;
      eof := true;
      needsPosition := false;
    }

    method MarkRawEnd()
      modifies this`eof, this`needsPosition
      ensures Shape() == old(Shape()) && Value() == AtEnd(old(Value()))
    {
      eof := true;
      needsPosition := false;
    }

    /** Bytes that a read call put into the caller's memory. */
    method Deliver(dst: array<byte>, at: nat, data: seq<byte>, ghost n: State)
      requires Shape() && dst !in Buffers() && at + |data| <= dst.Length && RawOk(n) && data != []
      requires Fetches(n, Value(), data)
      modifies this`needsPosition, dst
      ensures Shape() && RawStep(n, Value(), data, true)
      ensures Spliced(old(dst[..]), at, data, dst[..])
    {
      StoreAt(dst, at, data);
      needsPosition := true;
      assert Value() == n.(offset := n.offset + |data|, needsPosition := true);
    }

    method ReadCall(n: nat) returns (result: int, data: seq<byte>)
      requires kernel.Valid() && 0 < n
      modifies kernel`offset, kernel`failures
      ensures Shape() == old(Shape()) && (result == 0 ==> From(Value().bytes, Value().offset) == [])
      ensures if 0 < result <= n then |data| == result && Fetches(old(Value()), Value(), data)
              else data == [] && Value() == old(Value()).(failures := old(Value()).failures + if result == 0 then 0 else 1)
    {
      result, data := kernel.Read(n);
    }

    method Fetch(data: seq<byte>, ghost s: State)
      requires Shape() && Reading(s) && s.pushed == [] == s.input && Fetches(s, Value(), data)
      requires readBuffer != null && writeLength == 0 && 0 < |data| <= bufferSize
      modifies this`readOffset, this`readLength, readBuffer
      ensures Shape() && Served(s, Value(), []) && Reading(Value()) && Value().input != [] && Marked(s, Value(), [])
    {
      hide Value, Shape, Reading, Served;
      Hold(data);
      FetchedServes(s, |data|);
    }

    /** One read call into the empty buffer: input to take, or a reason to stop. */
    method Fill() returns (more: bool)
      requires Shape() && Reading(Value()) && readBuffer != null && Value().pushed == [] == Value().input
      modifies this`readOffset, this`readLength, this`eof, this`error, this`needsPosition, kernel`offset, kernel`failures, readBuffer
      ensures Shape() && if more then Served(old(Value()), Value(), []) && Reading(Value()) && Value().input != [] && Marked(old(Value()), Value(), [])
                         else Halts(old(Value()), Value())
    {
      hide Served, Reading, Ok, Value, Shape;
      ghost var s := Value();
      Fields();
      ReadingFields();
      var result, data := ReadCall(bufferSize);
      if result < 0 || bufferSize < result {
        MarkReadError();
        return false;
      }
      if result == 0 {
        MarkEnd();
        return false;
      }
      Fetch(data, s);
      return true;
    }

    method ServePushed(dst: array<byte>, at: nat, wanted: nat) returns (chunk: nat)
      requires Shape() && Value().pushed != [] && 0 < wanted && at + wanted <= dst.Length && dst !in Buffers()
      modifies this`pushbackOffset, this`pushbackLength, this`needsPosition, dst
      ensures Shape() && 0 < chunk <= wanted && chunk <= |old(Value()).pushed| && Value() == TakePushed(old(Value()), chunk)
      ensures Spliced(old(dst[..]), at, old(Value()).pushed[..chunk], dst[..])
    {
      hide Value, Shape, Part, Spliced;
      PushedFields();
      chunk := CopySome(dst, at, pushbackBytes, pushbackOffset, pushbackLength, wanted);
      AdvancePushed(chunk);
    }

    method ServeInput(dst: array<byte>, at: nat, wanted: nat) returns (chunk: nat)
      requires Shape() && Value().input != [] && 0 < wanted && at + wanted <= dst.Length && dst !in Buffers()
      modifies this`readOffset, this`needsPosition, dst
      ensures Shape() && 0 < chunk <= wanted && chunk <= |old(Value()).input| && Value() == TakeInput(old(Value()), chunk)
      ensures Spliced(old(dst[..]), at, old(Value()).input[..chunk], dst[..])
    {
      hide Value, Shape, Part, Spliced;
      Fields();
      InputFields();
      chunk := CopySome(dst, at, readBuffer, readOffset, readLength, wanted);
      AdvanceInput(chunk);
    }

    /** One round of the read loop: takes bytes, fetches some, or stops. */
    method ReadRound(dst: array<byte>, completed: nat, length: nat) returns (chunk: nat, more: bool, ghost got: seq<byte>)
      requires Shape() && Reading(Value()) && readBuffer != null && completed < length <= dst.Length && dst !in Buffers()
      modifies this`pushbackOffset, this`pushbackLength, this`readOffset, this`readLength, this`eof, this`error, this`needsPosition
      modifies kernel`offset, kernel`failures, readBuffer, dst
      ensures Shape() && chunk == |got| <= length - completed && Spliced(old(dst[..]), completed, got, dst[..])
      ensures if more then Served(old(Value()), Value(), got) && Reading(Value()) && Marked(old(Value()), Value(), got)
                           && (got != [] || old(Value()).input == [] != Value().input)
              else got == [] && Halts(old(Value()), Value())
      ensures Value().offset == old(Value()).offset || old(Value()).pushed == [] == old(Value()).input
    {
      hide Value, Served, Reading, Ok, Shape, Spliced, Marked;
      ghost var s := Value();
      Fields();
      chunk, got := 0, [];
      SplicedNothing(dst[..], completed);
      if pushbackOffset < pushbackLength {
        chunk := ServePushed(dst, completed, length - completed);
        got := s.pushed[..chunk];
        TakePushedServes(s, chunk);
        more := true;
      } else if readOffset < readLength {
        chunk := ServeInput(dst, completed, length - completed);
        got := s.input[..chunk];
        TakeInputServes(s, chunk);
        more := true;
      } else if eof {
        more := false;
      } else {
        more := Fill();
      }
    }

    /** The round, and what has been read before it. */
    method ReadOn(dst: array<byte>, completed: nat, length: nat, ghost s: State, ghost before: seq<byte>, ghost got: seq<byte>)
        returns (chunk: nat, more: bool, ghost all: seq<byte>)
      requires Shape() && Reading(Value()) && readBuffer != null && completed < length <= dst.Length && dst !in Buffers()
      requires |got| == completed && Served(s, Value(), got) && Marked(s, Value(), got) && Spliced(before, 0, got, dst[..])
      requires Frugal(s, Value(), length)
      modifies this`pushbackOffset, this`pushbackLength, this`readOffset, this`readLength, this`eof, this`error, this`needsPosition
      modifies kernel`offset, kernel`failures, readBuffer, dst
      ensures Shape() && |all| == completed + chunk <= length && Served(s, Value(), all) && Spliced(before, 0, all, dst[..])
      ensures Frugal(s, Value(), length)
      ensures if more then Reading(Value()) && Marked(s, Value(), all) && (0 < chunk || old(Value()).input == [] != Value().input)
              else Ok(Value()) && Ending(s, Value(), all) && chunk == 0
    {
      ghost var n, between := Value(), dst[..];
      hide Value, Served, Reading, Ok, Shape, Spliced, Marked, Halts, Ending, Frugal;
      ghost var some;
      chunk, more, some := ReadRound(dst, completed, length);
      FrugalOn(s, n, Value(), got, length);
      if more {
        MarkedAgain(s, n, Value(), got, some);
      } else {
        HaltsEnds(s, n, Value(), got);
        assert got + some == got;
      }
      ServedAgain(s, n, Value(), got, some);
      SplicedAgain(before, 0, got, between, some, dst[..]);
      all := got + some;
    }

    lemma StartReading(dst: array<byte>)
      requires Shape() && Ok(Value()) && MayRead(Value()) && !mode.unbuffered
      ensures Reading(Value()) && Served(Value(), Value(), []) && Marked(Value(), Value(), []) && Spliced(dst[..], 0, [], dst[..])
    {
      SplicedNothing(dst[..], 0);
      ServedNothing(Value());
      ReadingOk(Value());
    }

    method ReadLoop(dst: array<byte>, length: nat) returns (completed: nat, ghost got: seq<byte>)
      requires Shape() && Ok(Value()) && MayRead(Value()) && !mode.unbuffered && 0 < length <= dst.Length && dst !in Buffers() && readBuffer != null
      modifies this`pushbackOffset, this`pushbackLength, this`readOffset, this`readLength, this`eof, this`error, this`needsPosition
      modifies kernel`offset, kernel`failures, readBuffer, dst
      ensures Shape() && Ok(Value()) && completed == |got| <= length
      ensures if completed == length then Marked(old(Value()), Value(), got) else Ending(old(Value()), Value(), got)
      ensures Served(old(Value()), Value(), got) && Frugal(old(Value()), Value(), length) && Spliced(old(dst[..]), 0, got, dst[..])
    {
      hide Value, Served, Reading, Ok, Shape, Spliced, MayRead, Ending, Marked;
      ghost var s, before := Value(), dst[..];
      completed, got := 0, [];
      StartReading(dst);
      while completed < length
        invariant Shape() && Reading(Value()) && completed == |got| <= length && dst !in Buffers() && Marked(s, Value(), got)
        invariant Served(s, Value(), got) && Frugal(s, Value(), length) && Spliced(before, 0, got, dst[..])
        decreases length - completed, if Value().input != [] then 0 else 1
      {
        var chunk, more;
        chunk, more, got := ReadOn(dst, completed, length, s, before, got);
        completed := completed + chunk;
        if !more {
          return;
        }
      }
      AllRead(s, Value(), got);
    }

    method ReadBuffered(dst: array<byte>, length: nat) returns (completed: nat, ghost got: seq<byte>)
      requires Shape() && Ok(Value()) && MayRead(Value()) && !mode.unbuffered && 0 < length <= dst.Length && dst !in Buffers()
      modifies this, kernel`offset, kernel`failures, Buffers(), dst
      ensures Shape() && completed == |got| && kernel == old(kernel) && Buffers() <= old(Buffers())
      ensures ReadOutcome(old(Value()), Value(), length, got) && Spliced(old(dst[..]), 0, got, dst[..])
    {
      EnsureStorage();
      hide Shape, Spliced, Part;
      completed, got := ReadLoop(dst, length);
    }

    /** A read call that failed, or met the end. */
    method RawEnds(failed: bool, ghost n: State)
      requires Value() == n.(failures := n.failures + if failed then 1 else 0) && (!failed ==> From(n.bytes, n.offset) == [])
      modifies this`eof, this`error, this`needsPosition
      ensures Shape() == old(Shape()) && RawStep(n, Value(), [], false)
    {
      hide Value, Shape;
      if failed {
        MarkReadError();
      } else {
        MarkRawEnd();
      }
    }

    /** One read call straight into the caller's memory. */
    method RawRound(dst: array<byte>, at: nat, remaining: nat) returns (taken: nat, more: bool, ghost got: seq<byte>)
      requires Shape() && RawOk(Value()) && 0 < remaining && at + remaining <= dst.Length && dst !in Buffers()
      modifies this`eof, this`error, this`needsPosition, kernel`offset, kernel`failures, dst
      ensures Shape() && taken == |got| <= remaining && Spliced(old(dst[..]), at, got, dst[..])
      ensures RawStep(old(Value()), Value(), got, more)
    {
      hide Value, Shape, Spliced, RawOk, RawServed, Fetches, Marked, From, RawStep;
      ghost var n := Value();
      Fields();
      RawOkBounds(n);
      SplicedNothing(dst[..], at);
      taken, more, got := 0, false, [];
      var result, data := ReadCall(remaining);
      if result <= 0 || remaining < result {
        RawEnds(result != 0, n);
      } else {
        Deliver(dst, at, data, n);
        taken, more, got := result, true, data;
      }
    }

    /** Unbuffered: read calls straight into the caller's memory, until `length` bytes, the end or an error. */
    method ReadRaw(dst: array<byte>, length: nat) returns (completed: nat, ghost got: seq<byte>)
      requires Shape() && Ok(Value()) && MayRead(Value()) && mode.unbuffered && 0 < length <= dst.Length && dst !in Buffers()
      modifies this`eof, this`error, this`needsPosition, kernel`offset, kernel`failures, dst
      ensures Shape() && completed == |got|
      ensures ReadOutcome(old(Value()), Value(), length, got) && Spliced(old(dst[..]), 0, got, dst[..])
    {
      hide Value, Shape, Spliced, RawOk, RawServed, Ok, MayRead, ReadOutcome, RawStep, Marked, From;
      ghost var s, before := Value(), dst[..];
      completed, got := 0, [];
      Fields();
      SplicedNothing(before, 0);
      RawOkStart(s);
      while completed < length
        invariant completed == |got| <= length && Shape() && dst !in Buffers()
        invariant RawServed(s, Value(), got) && RawOk(Value()) && Marked(s, Value(), got)
        invariant Spliced(before, 0, got, dst[..])
      {
        ghost var n, between := Value(), dst[..];
        var taken, more, some := RawRound(dst, completed, length - completed);
        RawStepIs(n, Value(), some, more);
        SplicedAgain(before, 0, got, between, some, dst[..]);
        if !more {
          RawStops(s, n, got, length);
          assert got + some == got;
          return;
        }
        RawServedAgain(s, n, Value(), got, some);
        MarkedAgain(s, n, Value(), got, some);
        completed := completed + taken;
        got := got + some;
      }
      RawDone(s, Value(), got, length);
    }

    method MarkError()
      modifies this`error
      ensures Shape() == old(Shape()) && Value() == old(Value()).(error := true)
    {
      error := true;
    }

    /** Reads up to `length` bytes into dst. */
    method Read(dst: array<byte>, length: nat) returns (completed: nat, ghost got: seq<byte>)
      requires Valid() && length <= dst.Length && dst !in Buffers()
      modifies this, kernel`offset, kernel`failures, Buffers(), dst
      ensures Valid() && completed == |got| && kernel == old(kernel) && Buffers() <= old(Buffers())
      ensures ReadOutcome(old(Value()), Value(), length, got) && Spliced(old(dst[..]), 0, got, dst[..])
    {
      hide Spliced, Shape, Value, Ok;
      completed, got := 0, [];
      SplicedNothing(dst[..], 0);
      ghost var s := Value();
      Fields();
      MarksOk(s);
      if length == 0 {
        return;
      }
      if !mode.readable || needsSync {
        MarkError();
        return;
      }
      if mode.unbuffered {
        completed, got := ReadRaw(dst, length);
      } else {
        completed, got := ReadBuffered(dst, length);
      }
      ReadIsOk(s, Value(), length, got);
    }

    // ----- Writing

    method WriteCall(data: seq<byte>) returns (result: int)
      requires kernel.Valid() && data != []
      modifies kernel
      ensures Shape() == old(Shape()) && kernel.Valid()
      ensures if 0 < result <= |data| then Transferred(old(Value()), Value(), data, result)
              else Value() == old(Value()).(failures := old(Value()).failures + 1)
    {
      result := kernel.Write(data);
    }

    ghost method Account(got: seq<byte>)
      modifies this`accepted
      ensures Shape() == old(Shape()) && Value() == old(Value()).(accepted := old(accepted) + got)
    {
      accepted := accepted + got;
    }

    /** One write call straight from the caller's data. */
    method RawWriteRound(data: seq<byte>) returns (taken: nat)
      requires Shape() && Ok(Value()) && MayWrite(Value()) && Value().mode.unbuffered && data != []
      modifies this`error, this`accepted, kernel
      ensures Shape() && taken <= |data| && Ok(Value()) && Written(old(Value()), Value(), data[..taken])
      ensures if taken == 0 then Value().error && Value().failures == old(Value()).failures + 1
              else Value().error == old(Value()).error && Value().failures == old(Value()).failures
      ensures Value().needsSync == old(Value()).needsSync
    {
      hide Value, Shape, Written, Transferred, MayWrite, Ok;
      ghost var s := Value();
      Fields();
      var result := WriteCall(data);
      if result <= 0 || |data| < result {
        MarkError();
        FailuresOk(s, Value());
        WrittenNothing(s, Value());
        return 0;
      }
      ghost var n := Value();
      RawWritten(s, n, data, result);
      TransferredFrame(s, n, data, result);
      Account(data[..result]);
      return result;
    }

    /** Write calls straight from the caller's data. */
    method WriteRaw(data: seq<byte>) returns (completed: nat, ghost got: seq<byte>)
      requires Shape() && Ok(Value()) && MayWrite(Value()) && Value().needsSync && Value().mode.unbuffered && data != []
      modifies this`error, this`accepted, kernel
      ensures Shape() && completed == |got| && WriteOutcome(old(Value()), Value(), data, got)
    {
      hide Written, Ok, Shape, Value, WriteOutcome, MayWrite, IsTake, LinesOut;
      ghost var s := Value();
      completed, got := 0, [];
      WritingStarts(s, data);
      Unlined(s, s);
      while completed < |data|
        invariant completed == |got| <= |data| && Shape() && Ok(Value()) && Written(s, Value(), got) && IsTake(got, data)
        invariant Value().needsSync && Value().error == s.error && Value().failures == s.failures && LinesOut(s, Value())
      {
        ghost var n := Value();
        WrittenMayWrite(s, n, got);
        var remaining := data[completed..];
        var taken := RawWriteRound(remaining);
        ghost var some := remaining[..taken];
        WrittenAgain(s, n, Value(), got, some);
        TakeMore(got, data, some);
        Unlined(s, Value());
        got := got + some;
        completed := completed + taken;
        if taken == 0 {
          break;
        }
      }
      WriteDone(s, Value(), data, got);
    }

    // ----- Flushing

    method ShiftOut(completed: nat)
      requires Shape() && writeBuffer != null && completed <= writeLength && Value().input == []
      modifies writeBuffer
      ensures Shape() && |Value().pending| == writeLength && Value() == old(Value()).(pending := Value().pending)
      ensures Value().pending[..writeLength - completed] == old(Value()).pending[completed..]
    {
      hide Shape, Part;
      OutputFields();
      Fields();
      ghost var rest := Value().pending[completed..];
      assert rest == writeBuffer[completed..writeLength];
      ShiftDown(writeBuffer, completed, writeLength);
      OutputFields();
      assert Value().pending[..writeLength - completed] == writeBuffer[..writeLength - completed];
    }

    method ReduceOutput(length: nat)
      requires Shape() && length <= writeLength
      modifies this`writeLength
      ensures Shape() && length <= |old(Value()).pending| && Value() == old(Value()).(pending := old(Value()).pending[..length])
    {
      writeLength := length;
    }

    /** Keeps the last bytes of the buffer, moved to the front. */
    method DropSent(completed: nat)
      requires Shape() && writeBuffer != null && completed <= writeLength && Value().input == []
      modifies this`writeLength, writeBuffer
      ensures Shape() && Value() == old(Value()).(pending := old(Value()).pending[completed..])
    {
      hide Value, Shape;
      ShiftOut(completed);
      ReduceOutput(writeLength - completed);
    }

    /** One write call for what is still in the buffer. */
    method WritePending(completed: nat) returns (result: int)
      requires Shape() && writeBuffer != null && completed < writeLength && kernel.Valid()
      modifies kernel
      ensures kernel.Valid() && Shape() && (0 < result ==> completed + result <= writeLength)
      ensures completed <= |old(Value()).pending|
      ensures if 0 < result then Transferred(old(Value()), Value(), old(Value()).pending[completed..], result)
              else Value() == old(Value()).(failures := old(Value()).failures + 1)
    {
      hide Value, Shape, Transferred, Part;
      OutputFields();
      var data := writeBuffer[completed..writeLength];
      assert data == Value().pending[completed..];
      result := WriteCall(data);
      if |data| < result {
        result := 0;
      }
    }

    method FlushRound(completed: nat, ghost s: State) returns (taken: nat)
      requires Shape() && writeBuffer != null && completed < writeLength && kernel.Valid() && Sent(s, Value(), completed)
      modifies kernel
      ensures kernel.Valid() && Shape() && completed + taken <= writeLength && Sent(s, Value(), completed + taken)
      ensures Value().failures == old(Value()).failures + if taken == 0 then 1 else 0
    {
      hide Value, Shape, Sent, Transferred, Part;
      ghost var n := Value();
      SentPending(s, n, completed);
      var result := WritePending(completed);
      if result <= 0 {
        SentFails(s, n, Value(), completed);
        return 0;
      }
      TransferredFrame(n, Value(), s.pending[completed..], result);
      SentMore(s, n, Value(), completed, result);
      return result;
    }

    /** Delivers the buffer; on a failure the rest stays pending. */
    method FlushPending() returns (ok: bool)
      requires Shape() && Ok(Value()) && Value().pending != [] && writeBuffer != null
      modifies this`error, this`writeLength, writeBuffer, kernel
      ensures Shape() && FlushOutcome(old(Value()), Value(), ok)
    {
      hide Sent, Ok, FlushOutcome, Value, Shape;
      ghost var s := Value();
      var completed := 0;
      Fields();
      PendingWritable(s);
      SentStart(s);
      while completed < writeLength
        invariant completed <= writeLength == |s.pending| && Shape() && kernel.Valid() && Sent(s, Value(), completed)
        invariant Value().failures == s.failures
      {
        var taken := FlushRound(completed, s);
        if taken == 0 {
          FinishFlush(s, completed, true);
          return false;
        }
        completed := completed + taken;
      }
      FinishFlush(s, completed, false);
      return true;
    }

    method FinishFlush(ghost s: State, completed: nat, failed: bool)
      requires Shape() && writeBuffer != null && completed <= writeLength && Sent(s, Value(), completed)
      requires Ok(s) && s.pending != [] && s.mode.writable && (failed <==> completed < |s.pending|)
      requires Value().failures == if failed then s.failures + 1 else s.failures
      modifies this`error, this`writeLength, writeBuffer
      ensures Shape() && FlushOutcome(s, Value(), !failed)
    {
      hide Value, Shape, Sent, Ok, Written;
      SentThenDropped(s, Value(), completed, failed);
      SentKeeps(s, Value(), completed);
      DropSent(completed);
      if failed {
        MarkError();
      }
    }

    method Flush() returns (ok: bool)
      requires Valid()
      modifies this`error, this`writeLength, this`writeBuffer, this`readBuffer, this`bufferSize, kernel, Buffers()
      ensures Valid() && Buffers() <= old(Buffers()) && FlushOutcome(old(Value()), Value(), ok)
      ensures old(writeBuffer) != null ==> writeBuffer == old(writeBuffer) && readBuffer == old(readBuffer) && bufferSize == old(bufferSize)
    {
      hide Value, Shape, Written, Ok;
      ghost var s := Value();
      Fields();
      if !mode.writable {
        MarksOk(s);
        MarkError();
        return false;
      }
      if writeLength == 0 {
        WrittenNothing(s, s);
        return true;
      }
      EnsureStorage();
      ok := FlushPending();
      FlushedOk(s, Value(), ok);
    }

    // ----- Buffered writing

    method Append(chunk: seq<byte>)
      requires Shape() && writeBuffer != null && writeLength + |chunk| <= bufferSize && Value().input == []
      modifies this`writeLength, writeBuffer
      ensures Shape() && Value() == old(Value()).(pending := old(Value()).pending + chunk)
    {
      hide Spliced;
      OutputFields();
      ghost var pending, before := Value().pending, writeBuffer[..];
      StoreAt(writeBuffer, writeLength, chunk);
      SplicedGrows(before, writeLength, chunk, writeBuffer[..]);
      writeLength := writeLength + |chunk|;
      assert writeBuffer[..writeLength] == pending + chunk;
    }

    /** Room for the next chunk. */
    method MakeRoom() returns (ok: bool)
      requires Shape() && Ok(Value()) && MayWrite(Value()) && writeBuffer != null
      modifies this`error, this`writeLength, this`writeBuffer, this`readBuffer, this`bufferSize, kernel, Buffers()
      ensures Shape() && Ok(Value()) && Written(old(Value()), Value(), []) && Value().needsSync == old(Value()).needsSync
      ensures writeBuffer == old(writeBuffer) && readBuffer == old(readBuffer) && bufferSize == old(bufferSize)
      ensures if ok then writeLength < bufferSize && Went(old(Value()), Value()) else Broke(old(Value()), Value())
      ensures ok ==> Value().pending == old(Value()).pending || Value().pending == []
      ensures old(writeLength) < bufferSize ==> ok && Value() == old(Value())
    {
      hide Value, Shape, Ok, Written;
      Fields();
      SizeFields();
      WrittenNothing(Value(), Value());
      ok := true;
      if writeLength == bufferSize {
        ok := Flush();
        Fields();
      }
    }

    /** A chunk goes into the buffer and counts as accepted. */
    method Buffer(chunk: seq<byte>)
      requires Shape() && Ok(Value()) && MayWrite(Value()) && Value().needsSync && !Value().mode.unbuffered
      requires writeBuffer != null && writeLength + |chunk| <= bufferSize
      modifies this`writeLength, this`accepted, writeBuffer
      ensures Shape() && Ok(Value()) && Value() == Accepted(old(Value()), chunk) && Written(old(Value()), Value(), chunk)
    {
      hide Value, Shape, Written, Ok;
      ghost var s := Value();
      Fields();
      WritingEmpty(s);
      AcceptedWritten(s, chunk);
      Append(chunk);
      Account(chunk);
    }

    /** Delivers the line just ended, if one was. */
    method EndLine(flushLine: bool) returns (ok: bool)
      requires Shape() && Ok(Value()) && MayWrite(Value()) && writeBuffer != null
      modifies this`error, this`writeLength, this`writeBuffer, this`readBuffer, this`bufferSize, kernel, Buffers()
      ensures Shape() && Ok(Value()) && Written(old(Value()), Value(), []) && Value().needsSync == old(Value()).needsSync
      ensures writeBuffer == old(writeBuffer) && readBuffer == old(readBuffer)
      ensures !flushLine ==> ok && Value() == old(Value())
      ensures if ok then Went(old(Value()), Value()) && Value().pending == if flushLine then [] else old(Value()).pending
              else Broke(old(Value()), Value())
    {
      hide Value, Shape, Ok, Written;
      WrittenNothing(Value(), Value());
      ok := true;
      if flushLine {
        ok := Flush();
      }
    }

    method PutChunk(data: seq<byte>) returns (chunk: nat, more: bool)
      requires Shape() && Ok(Value()) && MayWrite(Value()) && Value().needsSync && !Value().mode.unbuffered
      requires writeBuffer != null && writeLength < bufferSize && data != []
      modifies this`error, this`writeLength, this`writeBuffer, this`readBuffer, this`bufferSize, this`accepted, kernel, Buffers()
      ensures Shape() && Ok(Value()) && Value().needsSync && writeBuffer == old(writeBuffer) && readBuffer == old(readBuffer)
      ensures 0 < chunk <= |data| && Written(old(Value()), Value(), data[..chunk])
      ensures if more then Went(old(Value()), Value()) && LinesOut(old(Value()), Value()) else Broke(old(Value()), Value())
      ensures old(writeLength) + |data| <= old(bufferSize) && (!mode.lineBuffered || NEWLINE !in data) ==>
        more && chunk == |data| && Value() == Accepted(old(Value()), data)
    {
      hide Value, Shape, Written, Ok, MayWrite;
      ghost var s := Value();
      Fields();
      var flushLine;
      chunk, flushLine := ChunkLength(data, bufferSize - writeLength, mode.lineBuffered);
      Buffer(data[..chunk]);
      ghost var n := Value();
      WrittenMayWrite(s, n, data[..chunk]);
      more := EndLine(flushLine);
      WrittenAgain(s, n, Value(), data[..chunk], []);
      assert data[..chunk] + [] == data[..chunk];
    }

    /** One round of the buffered write loop. */
    method WriteRound(data: seq<byte>) returns (chunk: nat, more: bool)
      requires Shape() && Ok(Value()) && MayWrite(Value()) && Value().needsSync && !Value().mode.unbuffered && writeBuffer != null && data != []
      modifies this`error, this`writeLength, this`writeBuffer, this`readBuffer, this`bufferSize, this`accepted, kernel, Buffers()
      ensures Shape() && Ok(Value()) && Value().needsSync && writeBuffer == old(writeBuffer) && readBuffer == old(readBuffer)
      ensures chunk <= |data| && Written(old(Value()), Value(), data[..chunk])
      ensures if more then 0 < chunk && Went(old(Value()), Value()) && LinesOut(old(Value()), Value())
              else Broke(old(Value()), Value())
      ensures old(writeLength) + |data| <= old(bufferSize) && (!mode.lineBuffered || NEWLINE !in data) ==>
        more && chunk == |data| && Value() == Accepted(old(Value()), data)
    {
      hide Value, Shape, Written, Ok, MayWrite;
      ghost var s := Value();
      Fields();
      SizeFields();
      more := MakeRoom();
      Fields();
      ghost var n := Value();
      chunk := 0;
      WrittenMayWrite(s, n, []);
      if more {
        chunk, more := PutChunk(data);
        WrittenAgain(s, n, Value(), [], data[..chunk]);
        assert [] + data[..chunk] == data[..chunk];
      }
    }

    /** The round, and what has been written before it. */
    method WriteOn(data: seq<byte>, completed: nat, ghost s: State, ghost got: seq<byte>)
        returns (taken: nat, more: bool, ghost all: seq<byte>)
      requires Shape() && Ok(Value()) && MayWrite(s) && Value().needsSync && !s.mode.unbuffered && writeBuffer != null
      requires |got| == completed < |data| && IsTake(got, data) && Written(s, Value(), got)
      requires Went(s, Value()) && LinesOut(s, Value())
      modifies this`error, this`writeLength, this`writeBuffer, this`readBuffer, this`bufferSize, this`accepted, kernel, Buffers()
      ensures Shape() && Ok(Value()) && Value().needsSync && writeBuffer == old(writeBuffer) && readBuffer == old(readBuffer)
      ensures |all| == completed + taken <= |data| && IsTake(all, data) && Written(s, Value(), all)
      ensures if more then 0 < taken && Went(s, Value()) && LinesOut(s, Value()) else Broke(s, Value())
      ensures completed == 0 && old(writeLength) + |data| <= old(bufferSize) && (!mode.lineBuffered || NEWLINE !in data) ==>
        more && taken == |data| && Value() == Accepted(old(Value()), data)
    {
      hide Written, Ok, Shape, Value, MayWrite, IsTake, LinesOut;
      ghost var n := Value();
      WrittenMayWrite(s, n, got);
      var remaining := data[completed..];
      assert completed == 0 ==> remaining == data;
      taken, more := WriteRound(remaining);
      ghost var some := remaining[..taken];
      WrittenAgain(s, n, Value(), got, some);
      TakeMore(got, data, some);
      all := got + some;
      if more {
        LinesOutAgain(s, n, Value());
      }
    }

    method WriteBuffered(data: seq<byte>) returns (completed: nat, ghost got: seq<byte>)
      requires Shape() && Ok(Value()) && MayWrite(Value()) && Value().needsSync && !Value().mode.unbuffered && data != []
      modifies this`error, this`writeLength, this`writeBuffer, this`readBuffer, this`bufferSize, this`accepted, kernel, Buffers()
      ensures Shape() && completed == |got| && Buffers() <= old(Buffers()) && WriteOutcome(old(Value()), Value(), data, got)
      ensures |data| <= old(Room()) && (!mode.lineBuffered || NEWLINE !in data) ==> Value() == Accepted(old(Value()), data)
    {
      hide Written, Ok, Shape, Value, WriteOutcome, MayWrite, IsTake, LinesOut, Accepted;
      ghost var s, fits := Value(), |data| <= Room() && (!mode.lineBuffered || NEWLINE !in data);
      Fields();
      SizeFields();
      EnsureStorage();
      Fields();
      SizeFields();
      ghost var buffers := Buffers();
      completed, got := 0, [];
      WritingStarts(s, data);
      while completed < |data|
        invariant completed == |got| <= |data| && Shape() && Ok(Value()) && Written(s, Value(), got) && IsTake(got, data)
        invariant Value().needsSync && Went(s, Value()) && writeBuffer != null && Buffers() == buffers && LinesOut(s, Value())
        invariant fits && completed == 0 ==> Value() == s && writeLength + |data| <= bufferSize
        invariant fits && 0 < completed ==> completed == |data| && Value() == Accepted(s, data)
      {
        var taken, more;
        taken, more, got := WriteOn(data, completed, s, got);
        completed := completed + taken;
        if !more {
          break;
        }
      }
      WriteDone(s, Value(), data, got);
    }

    method MarkWriting()
      modifies this`needsSync
      ensures Shape() == old(Shape()) && Value() == old(Value()).(needsSync := true)
    {
      needsSync := true;
    }

    /** Writes `data`; `completed` bytes of it are accepted. */
    method Write(data: seq<byte>) returns (completed: nat, ghost got: seq<byte>)
      requires Valid()
      modifies this`error, this`needsSync, this`writeLength, this`writeBuffer, this`readBuffer, this`bufferSize, this`accepted, kernel, Buffers()
      ensures Valid() && completed == |got| && Buffers() <= old(Buffers()) && WriteOutcome(old(Value()), Value(), data, got)
      ensures MayWrite(old(Value())) && !mode.unbuffered && data != [] && |data| <= old(Room()) && (!mode.lineBuffered || NEWLINE !in data) ==>
        Value() == Accepted(old(Value()).(needsSync := true), data)
    {
      hide Value, Shape, Ok, Written;
      ghost var s := Value();
      Fields();
      MarksOk(s);
      completed, got := 0, [];
      if data == [] {
        return;
      }
      if !mode.writable || needsPosition {
        MarkError();
        return;
      }
      MarkWriting();
      ghost var n := Value();
      if mode.unbuffered {
        completed, got := WriteRaw(data);
      } else {
        completed, got := WriteBuffered(data);
      }
      WriteMarked(s, n, Value(), data, got);
    }

    // ----- Synchronising and positioning

    method ClearSync()
      modifies this`needsSync
      ensures Shape() == old(Shape()) && Value() == old(Value()).(needsSync := false)
    {
      needsSync := false;
    }

    /** fflush. */
    method Sync() returns (ok: bool)
      requires Valid()
      modifies this`error, this`needsSync, this`writeLength, this`writeBuffer, this`readBuffer, this`bufferSize, kernel, Buffers()
      ensures Valid() && Buffers() <= old(Buffers()) && SyncOutcome(old(Value()), Value(), ok)
    {
      hide Value, Shape, Ok, FlushOutcome, Written;
      ghost var s := Value();
      Fields();
      MarksOk(s);
      if !mode.readable && !mode.writable {
        MarkError();
        return false;
      }
      if !mode.writable {
        return true;
      }
      ok := Flush();
      ghost var n := Value();
      SyncedOk(s, n, ok);
      SyncedIsOk(s, if ok then n.(needsSync := false) else n, ok);
      if ok {
        ClearSync();
      }
    }

    method SeekCall(distance: int, whence: Whence) returns (result: int)
      requires kernel.Valid()
      modifies kernel`offset, kernel`failures
      ensures Shape() == old(Shape()) && kernel.Valid()
      ensures var target := distance + match whence case Set => 0 case Current => old(kernel.offset) case End => |kernel.bytes|;
        Value() == old(Value()).(offset := if result < 0 then old(kernel.offset) else result,
                                 failures := old(Value()).failures + if result < 0 && 0 <= target <= LONG_MAX then 1 else 0)
      ensures 0 <= result ==>
        result <= LONG_MAX && result == distance + match whence case Set => 0 case Current => old(kernel.offset) case End => |kernel.bytes|
    {
      result := kernel.Seek(distance, whence);
    }

    method DiscardInput()
      requires Shape()
      modifies this`readOffset, this`readLength, this`pushbackOffset, this`pushbackLength
      ensures Shape() && Value() == old(Value()).(input := [], pushed := [])
    {
      readOffset := 0;
      readLength := 0;
      pushbackOffset := 0;
      pushbackLength := 0;
    }

    method ClearDirections()
      modifies this`eof, this`needsPosition, this`needsSync
      ensures Shape() == old(Shape()) && Value() == old(Value()).(eof := false, needsPosition := false, needsSync := false)
    {
      eof, needsPosition, needsSync := false, false, false;
    }

    method Rewound()
      requires Shape()
      modifies this`readOffset, this`readLength, this`pushbackOffset, this`pushbackLength, this`eof, this`needsPosition, this`needsSync
      ensures Shape() && Value() == old(Value()).(eof := false, needsPosition := false, needsSync := false, input := [], pushed := [])
    {
      hide Value, Shape;
      DiscardInput();
      ClearDirections();
    }

    /** The seek call with what is unread taken off, and the reset after it. */
    method SeekNow(adjusted: int, distance: int, whence: Whence, ghost s: State) returns (ok: bool)
      requires Shape() && Ok(s) && Live(s) && Ok(Value()) && Value().pending == []
      requires Written(s, Value(), []) && Went(s, Value()) && Value().needsSync == s.needsSync
      requires adjusted == if whence == Current then distance - Unread() else distance
      requires whence == Current ==> Unread() <= LONG_MAX
      modifies this`readOffset, this`readLength, this`pushbackOffset, this`pushbackLength, this`eof, this`needsPosition, this`needsSync, kernel`offset, kernel`failures
      ensures Shape() && Ok(Value()) && SeekOutcome(s, Value(), distance, whence, ok)
    {
      hide Value, Shape, Ok, Written, SeekOutcome, Live, Target, Position, Landing, Image;
      ghost var n := Value();
      Fields();
      TargetIs(n, distance, whence);
      var result := SeekCall(adjusted, whence);
      if result < 0 {
        SeekCallFails(s, n, Value(), distance, whence);
        return false;
      }
      Rewound();
      SeekDone(s, n, distance, whence, result);
      SeekDoneOk(s, Value(), distance, whence);
      return true;
    }

    /** The part of fseek after the flush. */
    method SeekAndDiscard(distance: int, whence: Whence, ghost s: State) returns (ok: bool)
      requires LONG_MIN <= distance <= LONG_MAX && Shape() && Ok(s) && Live(s) && Ok(Value()) && Value().pending == []
      requires Written(s, Value(), []) && Went(s, Value()) && Value().needsSync == s.needsSync
      modifies this`readOffset, this`readLength, this`pushbackOffset, this`pushbackLength, this`eof, this`needsPosition, this`needsSync, kernel`offset, kernel`failures
      ensures Shape() && Ok(Value()) && SeekOutcome(s, Value(), distance, whence, ok)
    {
      hide Value, Shape, Ok, Written, SeekOutcome, Live;
      var adjusted := distance;
      if whence == Current {
        var unread := Unread();
        if LONG_MAX < unread || distance < LONG_MIN + unread {
          Fields();
          TooFarBack(Value(), distance);
          SeekRefused(s, Value(), distance, whence);
          return false;
        }
        adjusted := distance - unread;
      }
      ok := SeekNow(adjusted, distance, whence, s);
    }

    /** fseek. */
    method Seek(distance: int, whence: Whence) returns (ok: bool)
      requires Valid() && LONG_MIN <= distance <= LONG_MAX
      modifies this, kernel, Buffers()
      ensures Valid() && kernel == old(kernel) && Buffers() <= old(Buffers())
      ensures SeekOutcome(old(Value()), Value(), distance, whence, ok)
    {
      hide Value, Shape, Ok, Written, SeekOutcome, FlushOutcome, Live;
      ghost var s := Value();
      Fields();
      SeekStart(s);
      if !mode.readable && !mode.writable {
        SeekDead(s, distance, whence);
        return false;
      }
      assert Live(s) by { LiveMode(s); }
      if mode.writable {
        ok := Flush();
        FlushFacts(s, Value(), ok);
        if !ok {
          SeekRefused(s, Value(), distance, whence);
          return;
        }
      }
      ok := SeekAndDiscard(distance, whence, s);
    }

    /** The part of ftell after the append-mode flush. */
    method TellHere() returns (r: int)
      requires Valid() && Live(Value())
      modifies kernel`offset, kernel`failures
      ensures Valid() && Value() == old(Value()).(failures := Value().failures)
      ensures Value() == old(Value()) || Value().failures == old(Value()).failures + 1
      ensures if r == -1 then Value().failures == old(Value()).failures + 1 || LONG_MAX < Landing(Value()) || Position(Value()) < 0
              else Value() == old(Value()) && 0 <= r <= LONG_MAX && r == Position(Value())
    {
      hide Value, Shape, Ok;
      ghost var s := Value();
      Fields();
      var result := SeekCall(0, Current);
      FailuresOk(s, Value());
      if result < 0 || LONG_MAX - writeLength < result {
        return -1;
      }
      var logical := result + writeLength;
      var unread := Unread();
      if logical < unread {
        return -1;
      }
      return logical - unread;
    }

    /** The flush that ftell makes on an append stream. */
    method FlushAppended() returns (ok: bool)
      requires Valid() && Live(Value())
      modifies this`error, this`writeLength, this`writeBuffer, this`readBuffer, this`bufferSize, kernel, Buffers()
      ensures Valid() && Buffers() <= old(Buffers()) && Live(Value()) && (!ok ==> TellOutcome(old(Value()), Value(), -1))
      ensures var s, n := old(Value()), Value();
        ok ==> Went(s, n) && if s.mode.append && s.pending != [] then Written(s, n, []) && n.needsSync == s.needsSync else n == s
    {
      hide Value, Shape, Ok, Written, TellOutcome, FlushOutcome, Live;
      ghost var s := Value();
      Fields();
      ok := true;
      if mode.append && writeLength != 0 {
        assert mode.writable by { PendingWritable(s); }
        ok := Flush();
        FlushFacts(s, Value(), ok);
        WrittenLive(s, Value());
        if !ok {
          TellUnflushed(s, Value());
        }
      }
    }

    /** ftell. */
    method Tell() returns (r: int)
      requires Valid()
      modifies this`error, this`writeLength, this`writeBuffer, this`readBuffer, this`bufferSize, kernel, Buffers()
      ensures Valid() && Buffers() <= old(Buffers()) && TellOutcome(old(Value()), Value(), r)
    {
      hide Value, Shape, Ok, Written, TellOutcome, FlushOutcome, Live, Landing, Position;
      ghost var s := Value();
      Fields();
      LiveMode(s);
      if !mode.readable && !mode.writable {
        TellDead(s);
        return -1;
      }
      var ok := FlushAppended();
      if !ok {
        return -1;
      }
      ghost var n := Value();
      r := TellHere();
      TellThere(s, n, Value(), r);
    }

    /** __mini_stdio_pushback_unlocked. */
    method PushBack(bytes: seq<byte>) returns (ok: bool)
      requires Valid()
      modifies this`error, this`eof, this`needsPosition, this`pushbackOffset, this`pushbackLength, pushbackBytes
      ensures Valid() && (ok <==> MayPush(old(Value()), bytes)) && Value() == PushedBack(old(Value()), bytes)
    {
      hide Value, Shape, Ok;
      ghost var s := Value();
      Fields();
      if !mode.readable || |bytes| == 0 || PUSHBACK_MAX < |bytes| || needsSync || pushbackOffset < pushbackLength {
        MarksOk(s);
        MarkError();
        return false;
      }
      PushedBackMeans(s, bytes);
      StorePushed(bytes);
      MarkPushed();
      return true;
    }

    method MarkPushed()
      modifies this`eof, this`needsPosition
      ensures Shape() == old(Shape()) && Value() == old(Value()).(eof := false, needsPosition := true)
    {
      eof, needsPosition := false, true;
    }

    method StorePushed(bytes: seq<byte>)
      requires Shape() && |bytes| <= PUSHBACK_MAX
      modifies this`pushbackOffset, this`pushbackLength, pushbackBytes
      ensures Shape() && Value() == old(Value()).(pushed := bytes)
    {
      StoreAt(pushbackBytes, 0, bytes);
      pushbackOffset := 0;
      pushbackLength := |bytes|;
    }

    /** clearerr. */
    method ClearErr()
      requires Valid()
      modifies this`error, this`eof
      ensures Valid() && Value() == old(Value()).(error := false, eof := false)
    {
      hide Ok;
      FlagsClearedOk(Value());
      error, eof := false, false;
    }

    // ----- Changing buffers and files

    method SwapBuffers(buffer: array?<byte>, size: nat)
      requires Shape() && writeLength == readOffset == readLength == pushbackOffset == pushbackLength == 0
      requires if size == 0 then buffer == null else buffer != null && size <= buffer.Length
      requires buffer != pushbackBytes
      modifies this`writeBuffer, this`readBuffer, this`bufferSize
      ensures Shape() && writeBuffer == readBuffer == buffer && bufferSize == size && Value() == old(Value())
    {
      writeBuffer := buffer;
      readBuffer := buffer;
      bufferSize := size;
    }

    method SetMode(m: Mode)
      modifies this`mode
      ensures Shape() == old(Shape()) && Value() == old(Value()).(mode := m)
    {
      mode := m;
    }

    /** The end of setvbuf: the new buffer serves both directions. */
    method Install(buffer: array?<byte>, size: nat, how: Buffering)
      requires Shape() && Value().pending == [] && Value().input == [] && Value().pushed == []
      requires if size == 0 then buffer == null else buffer != null && size <= buffer.Length
      requires buffer != pushbackBytes
      modifies this`mode, this`writeBuffer, this`readBuffer, this`bufferSize, this`writeLength, this`readOffset, this`readLength,
               this`pushbackOffset, this`pushbackLength
      ensures Shape() && writeBuffer == readBuffer == buffer && bufferSize == size
      ensures Value() == old(Value()).(mode := old(mode).(unbuffered := how == None, lineBuffered := how == Line))
    {
      hide Value, Shape;
      ZeroCounts();
      SwapBuffers(buffer, size);
      SetMode(mode.(unbuffered := how == None, lineBuffered := how == Line));
    }

    /** Brings the file in step with the program: output delivered, input given back. */
    method Settle() returns (ok: bool)
      requires Valid() && Live(Value())
      modifies this, kernel, Buffers()
      ensures Valid() && kernel == old(kernel) && Buffers() <= old(Buffers())
      ensures if ok then Settled(old(Value()), Value())
              else Written(old(Value()), Value(), [])
                   && (Value().failures == old(Value()).failures + 1 || (Went(old(Value()), Value()) && NoSuchPlace(Value(), 0, Current)))
    {
      hide Value, Shape, Ok, Written, Settled, SyncOutcome, SeekOutcome, Live;
      ghost var s := Value();
      Fields();
      if mode.writable {
        ok := Sync();
        if !ok {
          SyncFailed(s, Value());
          return;
        }
      } else {
        SyncReadOnly(s);
      }
      ghost var n := Value();
      assert n.mode == s.mode == mode by { SyncKeepsMode(s, n); Fields(); }
      assert (needsPosition <==> n.needsPosition) && (readOffset != readLength <==> n.input != []) && (pushbackOffset < pushbackLength <==> n.pushed != []) by { Fields(); }
      if mode.readable && (needsPosition || readOffset != readLength || pushbackOffset < pushbackLength) {
        ok := Seek(0, Current);
        if !ok {
          SettleFailed(s, n, Value());
          return;
        }
        SettledBySeek(s, n, Value());
      } else {
        SettledAlready(s, n);
      }
      ok := true;
    }

    /** setvbuf once the arguments are in order. */
    method Rebuffer(buffer: array?<byte>, how: Buffering, size: nat) returns (ok: bool)
      requires Valid() && Live(Value()) && buffer != pushbackBytes
      requires if size == 0 then how == None && buffer == null else buffer != null && size <= buffer.Length
      modifies this, kernel, Buffers()
      ensures Valid() && kernel == old(kernel) && RebufferOutcome(old(Value()), Value(), how == None, how == Line, size, ok)
      ensures if ok then writeBuffer == readBuffer == buffer && bufferSize == size else Buffers() <= old(Buffers())
    {
      ghost var s := Value();
      hide Ok, Written, RebufferOutcome, Settled, Value, Shape;
      ok := Settle();
      if !ok {
        RebufferFailed(s, Value(), how == None, how == Line, size);
        return;
      }
      ghost var n := Value();
      SettledFacts(s, n);
      assert n.mode == mode by { Fields(); }
      Install(buffer, size, how);
      SettledRebuffers(s, n, Value(), how == None, how == Line, size);
    }

    method Allocate(size: nat) returns (buffer: array?<byte>)
      modifies kernel`failures
      ensures buffer != null ==> fresh(buffer) && buffer.Length == size
      ensures Shape() == old(Shape()) && Value() == old(Value()).(failures := old(Value()).failures + if buffer == null then 1 else 0)
    {
      if * {
        kernel.failures := kernel.failures + 1;
        return null;
      }
      buffer := new byte[size];
    }

    /** setvbuf with a buffer, the program's or a new one. */
    method UseBuffer(buf: array?<byte>, how: Buffering, size: nat) returns (ok: bool)
      requires Valid() && Live(Value()) && buf != pushbackBytes && (buf != null ==> size <= buf.Length) && how != None && 0 < size
      modifies this, kernel, Buffers()
      ensures Valid() && kernel == old(kernel)
      ensures RebufferOutcome(old(Value()), Value(), false, how == Line, size, ok)
      ensures if ok then writeBuffer == readBuffer != null && bufferSize == size && (if buf != null then writeBuffer == buf else fresh(writeBuffer))
              else Buffers() <= old(Buffers())
    {
      hide Ok, Written, RebufferOutcome, Value, Shape, Live;
      ghost var s := Value();
      var buffer := buf;
      if buffer == null {
        buffer := Allocate(size);
        if buffer == null {
          FailuresOk(s, Value());
          WrittenNothing(s, Value());
          RebufferFailed(s, Value(), false, how == Line, size);
          return false;
        }
      }
      ok := Rebuffer(buffer, how, size);
    }

    /** setvbuf. */
    method SetBuffer(buf: array?<byte>, how: Buffering, size: nat) returns (ok: bool)
      requires Valid() && (buf != null ==> buf !in {pushbackBytes, inlineWriteBuffer, inlineReadBuffer} && size <= buf.Length)
      modifies this, kernel, Buffers()
      ensures Valid() && kernel == old(kernel)
      ensures RebufferOutcome(old(Value()), Value(), how == None, how == Line, size, ok)
      ensures ok && how != None ==> writeBuffer == readBuffer && bufferSize == size && (buf != null ==> writeBuffer == buf)
      ensures fresh(Buffers() - old(Buffers()) - (if buf == null then {} else {buf}))
    {
      hide Ok, Written, RebufferOutcome, Value, Shape, Live;
      ghost var s := Value();
      Fields();
      RebufferStart(s);
      LiveMode(s);
      if !(mode.readable || mode.writable) || (how != None && size == 0) {
        RebufferFailed(s, Value(), how == None, how == Line, size);
        return false;
      }
      if how == None {
        ok := Rebuffer(null, how, 0);
        RebufferAnySize(s, Value(), how == Line, 0, size, ok);
        return;
      }
      ok := UseBuffer(buf, how, size);
    }

    method ClearFlags()
      modifies this`eof, this`error, this`needsPosition, this`needsSync
      ensures Shape() == old(Shape())
      ensures Value() == old(Value()).(eof := false, error := false, needsPosition := false, needsSync := false)
    {
      eof, error, needsPosition, needsSync := false, false, false, false;
    }

    method ZeroCounts()
      requires Shape()
      modifies this`writeLength, this`readOffset, this`readLength, this`pushbackOffset, this`pushbackLength
      ensures Shape() && Value() == old(Value()).(pending := [], input := [], pushed := [])
      ensures writeLength == readOffset == readLength == pushbackOffset == pushbackLength == 0
    {
      writeLength := 0;
      readOffset := 0;
      readLength := 0;
      pushbackOffset := 0;
      pushbackLength := 0;
    }

    /** reset_rebound_state. */
    method ResetState()
      requires Shape()
      modifies this`eof, this`error, this`needsPosition, this`needsSync, this`writeLength, this`readOffset, this`readLength,
               this`pushbackOffset, this`pushbackLength
      ensures Shape() && Value() == Emptied(old(Value()))
      ensures writeLength == readOffset == readLength == pushbackOffset == pushbackLength == 0
    {
      hide Value, Shape;
      ClearFlags();
      ZeroCounts();
    }

    /** Output that was lost no longer counts as accepted. */
    ghost method ForgetLost()
      modifies this`accepted
      ensures Shape() == old(Shape())
      ensures Value() == old(Value()).(accepted := kernel.delivered) && Value().delivered == kernel.delivered && Value().offset == kernel.offset
    {
      accepted := kernel.delivered;
    }

    /** discard_failed_rebind on a stream that is not freed: nothing can be done with it any more. */
    method Abandon()
      requires Shape() && kernel.Valid()
      modifies this
      ensures Valid() && kernel == old(kernel) && !Live(Value()) && Buffers() <= old(Buffers())
    {
      hide Ok, Value, Shape;
      ResetState();
      SwapBuffers(null, 0);
      SetMode(Mode(false, false, false, false, false));
      ForgetLost();
      DeadOk(Value());
    }

    method SetKernel(target: Kernel)
      modifies this`kernel, this`accepted
      ensures kernel == target && Shape() == old(Shape())
      ensures Value() == old(Value()).(bytes := target.bytes, offset := target.offset, appends := target.appends,
                                       delivered := target.delivered, accepted := [], failures := target.failures)
    {
      kernel := target;
      accepted := [];
    }

    /** The success of freopen: the stream on another file, with its old buffering. */
    method Rebind(target: Kernel, readable: bool, writable: bool, append: bool)
      requires Shape() && target.Valid() && target.delivered == [] && target.failures == 0
      modifies this
      ensures Valid() && kernel == target && Buffers() == old(Buffers())
      ensures Value() == Opened(old(mode).(readable := readable, writable := writable, append := append), target.bytes, target.offset, target.appends)
    {
      hide Ok, Value, Shape;
      Fields();
      ResetState();
      SetMode(mode.(readable := readable, writable := writable, append := append));
      SetKernel(target);
      OpenedOk(Value().mode, target.bytes, target.offset, target.appends);
    }

    /** freopen, given what open returned (null for a failure): a stream that moves to another file
        has delivered everything it accepted; one that fails on the way is dead. */
    method Reopen(target: Kernel?, readable: bool, writable: bool, append: bool) returns (ok: bool)
      requires Valid() && (target != null ==> target != kernel && target.Valid() && target.delivered == [] && target.failures == 0)
      modifies this, kernel, Buffers()
      ensures Valid() && Buffers() <= old(Buffers())
      ensures ok ==> target != null && kernel == target && old(kernel).delivered == old(accepted)
      ensures ok ==> Value() == Opened(old(mode).(readable := readable, writable := writable, append := append), target.bytes, target.offset, target.appends)
      ensures !ok ==> kernel == old(kernel) && !Live(Value())
    {
      hide Ok, Value, Shape, Written;
      ghost var s := Value();
      ghost var k := kernel;
      Fields();
      if !mode.readable && !mode.writable {
        return false;
      }
      var failed := false;
      if mode.writable {
        var flushed := Flush();
        failed := !flushed;
        AllDelivered(s, Value(), flushed);
      } else {
        SyncNone(s);
        AllDelivered(s, s, true);
      }
      Fields();
      if * {
        failed := true;
      }
      if failed || target == null {
        Abandon();
        return false;
      }
      Rebind(target, readable, writable, append);
      return true;
    }
  }
}
