# mini-libc, verified model

mini-libc is a freestanding C runtime: a `brk` heap, C11 threads over futexes, buffered streams,
exact arithmetic on doubles and dates, and the text codecs of the printf, strtol, strtod and wide
character families. This project models the parts of it where the logic is hard and proves what
they are for. `dafny verify dfyconfig.toml` checks all of it.

Every kernel answer is arbitrary within what the call promises: `brk` may refuse at any time,
reads and writes may be short or fail, futex waits may be interrupted, time out or return for no
reason, `munmap`, `mmap` and `clone` may fail. Every theorem holds for all of them.

## The files

| Part | Files | Shape |
|---|---|---|
| Heap | `ByteMemory`, `BlockList`, `HeapImage`, `Allocator`, `AllocatorRuns` | `class Heap` over a byte memory: the 32-byte headers live inside the same bytes as the payloads, all fields are little-endian words in it, and the list of blocks is a ghost that the invariant ties to the bytes. `malloc`, `free` and `realloc` are methods on the bytes; their contracts speak only of the caller's view, a map from live pointers to their bytes. |
| Threads | `FutexLock`, `CountedLock`, `Mutex`, `Condition`, `Lifecycle`, `LifecycleResult`, `LifecycleCalls`, `LifecycleExample` | small-step transition systems over any number of threads, one atomic operation, critical section or system call a step. Theorems are about every state of every run, and about whole calls: what a call that begins in one state of a run and ends in a later one returns, and why. |
| Streams | `SimpleFile`, `StreamState`, `Stream`, `StreamLaws`, `StreamRuns` | `class File` with the fields of the C structure and real byte arrays, the shared buffer of `setvbuf` included, over `class Kernel`. Each method is proved to meet an outcome relation between snapshots of the stream, `StreamLaws` proves what runs of those outcomes mean to a program, and `StreamRuns` that every sequence of method calls is such a run. |
| Dates | `CivilDays`, `Calendar` | the era arithmetic as functions, against a naive count of years and months; `gmtime` and `mktime` as methods on `class Tm`, every intermediate in a 64-bit or unsigned 32-bit variable. |
| Doubles | `Binary`, `Doubles`, `Rounding`, `Scaling`, `Representable`, `Remainder` | doubles are sign, exponent field and fraction; their values are whole numbers of smallest subnormals. A floating-point operation delivers any neighbouring double of the exact result, so what is proved exact is exact in every rounding direction. |
| Text | `Utf8`, `WideChars`, `WideStream`, `Numerals`, `IntegerParse`, `IntegerPrint`, `FloatGrammar`, `FloatParse` | the restartable decoder as a state machine and its in-place form; the digit loops; the strtod scanner with its cursor, get, unget, mark and restore, against a declarative grammar. |

## What the proofs found

Where the code does not do what one would expect, the model follows the code, a lemma shows the
input, and another says exactly when the expectation holds.

- An unbuffered read never looks at pushed-back bytes. At the end of the file it clears the flag
  that covers them, so that writing is permitted while they are unread, and `ftell` is then not
  where the write lands (`StreamLaws.UnbufferedPushbackEscapes`). It can happen exactly when
  something is pushed back and the read asks beyond the end (`StreamLaws.PushbackStaysCovered`);
  the position is where writes land exactly when nothing pushed back is unread
  (`StreamLaws.LandsAtPosition`).
- A signal made without the mutex can be taken by a thread that began to wait after it. Whoever has
  the mutex, a signal is sure to end the wait of one of those waiting if and only if one of them is
  not yet asleep, or the mutex is with a thread in the middle of a wake (the signaller, above all) or
  of a wait (`Condition.SignalFreesExactly`). Otherwise any idle thread can take a signal made while
  the mutex is free (`Condition.SignalCanMiss`, and `Condition.SignalWithoutMutexMisses` for a run
  with three threads), and the thread that has it can do so too (`Condition.HolderCanMiss`). After
  exactly a multiple of 2^32 wake calls inside one wait window the
  compare is fooled (`Condition.WrapIsMissed`, an if-and-only-if).
- A number printed with precision 0 and value 0 has no digit. strtol then still gives 0, but its end
  pointer is the start of the text: "+" is one such text (`IntegerPrint.PlusAloneReadsNothing`).
  Value and end are right exactly when a digit is printed or nothing stands before where it would
  be (`IntegerPrint.LongReadsBack`), which `IntegerPrint.ReadsBackWhen` says in terms of flags, width
  and precision.
- `thrd_create` unmaps the stack after a refused clone although `clear_tid` is not 0 there
  (`LifecycleExample.UnmappedUncleared`). When a stack is unmapped, `clear_tid` is 0 if and only if a
  thread was started on it, which is if and only if the step is not that one
  (`Lifecycle.UnmapsDeadStacks`).
- If a detached thread dies between the two searches of the reaper, the second one finds it dead, and
  the reaper sleeps on its event word with no time limit beside a thread it could reap
  (`LifecycleExample.ReaperSleepsBesideDead`). The reaper asleep on the current event leaves a detached
  thread waiting if and only if that happened (`LifecycleCalls.ReaperMisses`); otherwise it misses none,
  because new work always raises the event (`LifecycleCalls.NoNewWork`).
- The repository's own README calls the allocator and stdio single-threaded; the code takes a
  lock around them, and the model follows the code.

## Model

| member | source | states |
|---|---|---|
| ByteMemory.LoadAfterStore | src/stdlib/allocator.c:13-18 | a header field read back is the 64-bit value stored, whatever the value |
| ByteMemory.SliceAfterStore | src/stdlib/allocator.c:13-18 | a store into a field leaves every byte outside its eight alone |
| Allocator.AlignUp | src/stdlib/allocator.c:39-49 | the least multiple of 16 that is at least the request |
| Allocator.Heap.SysBrk | src/stdlib/allocator.c:51-82 | the kernel's answer is the break it left, and the break is either where it was or where it was asked to be; every refusal is counted |
| Allocator.Heap.ExtendBreak | src/stdlib/allocator.c:122-159 | granted means heap end and break have both moved by exactly the growth and lie inside memory; refused means neither moved, and either the kernel refused or the addresses are exhausted |
| Allocator.Heap.InitializeHeap | src/stdlib/allocator.c:51-82 | success exactly when the heap is initialised afterwards, aligned and empty the first time; an initialised heap is not touched; a failure is a refusal of the kernel or a break that is no address to begin at |
| Allocator.Heap.SplitBlock | src/stdlib/allocator.c:84-107 | cuts exactly when a header and 16 bytes are left over; the two blocks replace the one in the list read from memory, the tail pointer follows, no other live payload changes and the kept part keeps its bytes |
| Allocator.Heap.FindFreeBlock | src/stdlib/allocator.c:109-120 | the first free block in address order that is large enough; null exactly when there is none |
| Allocator.Heap.GrowHeap | src/stdlib/allocator.c:122-159 | appends exactly one block in use at the old end of the heap and links it, or changes neither memory nor list, and then the kernel refused or there are no addresses for so much |
| Allocator.Heap.MergeWithNext | src/stdlib/allocator.c:204-218 | absorbs the right neighbour exactly when it is free and leaves the list alone otherwise, with no byte changed outside the block's own header |
| Allocator.Heap.Malloc | src/stdlib/allocator.c:161-193 | null for size 0; otherwise a pointer that was not live with exactly `size` bytes and every other live allocation with its bytes as before, or null with ENOMEM and nothing changed; if a free block is large enough, the pointer is the first such block in address order and the break does not move; for a size that can be aligned, null means that no free block is large enough and that the heap could not grow by a header and the aligned size. The invariant, in every state: no block in use is larger than its request by a header and 16 bytes or more, so what is cut off stays free |
| Allocator.Heap.Free | src/stdlib/allocator.c:220-246 | the pointer is no longer live and every other allocation keeps its bytes; null changes nothing; the heap invariant, coalescing included, holds again |
| Allocator.Heap.Trim | src/stdlib/allocator.c:270-278 | shrinking in place: the same pointer, the smaller request, its prefix kept, the cut-off tail free and merged to the right |
| Allocator.Heap.GrowIntoNext | src/stdlib/allocator.c:280-297 | growing over a free right neighbour that is large enough, all old bytes kept |
| Allocator.Heap.GrowThroughLast | src/stdlib/allocator.c:280-316 | growing over a free last block and then past the end of the heap; a failure leaves memory and list as they were and means a refusal of the kernel, or no addresses, for exactly what is missing |
| Allocator.Heap.GrowTail | src/stdlib/allocator.c:319-335 | growing the last block past the end of the heap; a failure leaves memory and list as they were and means that the block is not the last, or a refusal for exactly what is missing |
| Allocator.Heap.ResizeInPlace | src/stdlib/allocator.c:270-335 | of the four in-place paths the one that fits, keeping the first min(old block size, new) bytes and all other allocations, or nothing changed at all; it fails only when the block, with a free right neighbour, is too small and, at the end of the heap, the heap could not grow by what is missing |
| Allocator.Heap.TryResize | src/stdlib/allocator.c:263-338 | the first critical section of realloc: resized in place under the same pointer, or nothing changed and the number of bytes a move has to copy; a shrink never fails, and a growth fails only when ResizeInPlace may |
| Allocator.Heap.Move | src/stdlib/allocator.c:337-348 | the move path: a new allocation with the old first min(old requested, new) bytes, the old one freed; on failure, which means what it means in Malloc, the old one intact |
| Allocator.Heap.Realloc | src/stdlib/allocator.c:248-349 | malloc for null, free for size 0; otherwise one live pointer of the new size replaces the old with the first min(old requested, new) bytes kept on every path, or null with ENOMEM and every allocation, the old one included, as before; a shrink keeps the pointer, so does a growth for which the block and a free right neighbour have room, and null means what it means in Malloc |
| Allocator.Heap.WriteBytes | src/stdlib/allocator.c:161-349 | a write by the program inside a live allocation changes those bytes of it and nothing else, the allocator's own structures included |
| AllocatorRuns.Apply | src/stdlib/allocator.c:161-349 | each call on the bytes is a step of the ideal heap, a map from pointers to contents |
| AllocatorRuns.RunProgram | src/stdlib/allocator.c:161-349 | any sequence of calls, writes and critical sections of realloc, with arbitrary refusals, from the empty heap is a run of the ideal heap; with threads, the sequence is the order in which they get the lock |
| AllocatorRuns.StepKeeps | src/stdlib/allocator.c:161-349 | a step that does not name a live pointer keeps it live with its bytes |
| AllocatorRuns.Undisturbed | src/stdlib/allocator.c:161-349 | over any part of any run without a call naming p, p stays live and keeps its contents |
| AllocatorRuns.MoveAmongOthers | src/stdlib/allocator.c:335-348 | a realloc that moves, in its pieces with any calls of other threads between them that name neither block, ends with the old block gone and the new one of the new size with the kept bytes |
| AllocatorRuns.PayloadsDisjoint | src/stdlib/allocator.c:161-349 | live payloads are 16-aligned, inside the heap, as long as requested and pairwise disjoint |
| AllocatorRuns.WalkFrom | src/stdlib/allocator.c:109-120 | following the next words in memory from a block gives exactly the rest of the ghost list |
| AllocatorRuns.ListInMemory | src/stdlib/allocator.c:84-159 | the blocks as read from memory tile heap start to heap end exactly, sizes are positive multiples of 16, the tail pointer is the last block, no two neighbours are both free, and a block in use holds its request and has less than a header and 16 bytes behind it |
| BlockList.LiveDisjoint | src/stdlib/allocator.c:84-107 | two live payloads of a tiling list are the same or do not overlap |
| BlockList.FreedCoalesced | src/stdlib/allocator.c:220-246 | after freeing and merging to the right, only the pair to the left may still be two free neighbours |
| BlockList.LeftCoalesced | src/stdlib/allocator.c:220-246 | the merge to the left then leaves no two free neighbours anywhere |
| BlockList.ReuseCoalesced | src/stdlib/allocator.c:161-193 | reusing a free block, cut or whole, leaves no two free neighbours |
| BlockList.TrimCoalesced | src/stdlib/allocator.c:270-278 | cutting a block in use and merging the cut-off part to its right leaves no two free neighbours |
| BlockList.GrownCoalesced | src/stdlib/allocator.c:280-297 | a block in use that takes over its free neighbour has no free pair beside it |
| HeapImage.SplitLinked | src/stdlib/allocator.c:84-107 | the six stores of a split turn the memory image of a list into that of the split list, and touch only that block |
| HeapImage.MergeLinked | src/stdlib/allocator.c:204-218 | the stores of a merge turn the image of a list into that of the merged list |
| HeapImage.AppendLinked | src/stdlib/allocator.c:122-159 | the stores of an append turn the image of a list into that of the list with one more block |
| HeapImage.ExtendLinked | src/stdlib/allocator.c:319-335 | the store of a tail growth turns the image of a list into that of the list with a longer last block |
| HeapImage.WrittenView | src/stdlib/allocator.c:161-349 | bytes stored inside a live payload change that allocation in the view and no other |
| FutexLock.StepOwned | src/internal/futex_lock.h:26-40 | every step keeps: the word is 1 exactly when one thread owns the lock, and at most one does |
| FutexLock.StepNoLostWake | src/internal/futex_lock.h:26-40 | every step keeps: a free lock with sleepers has a thread about to wake one or about to retry the exchange |
| FutexLock.EveryRun | src/internal/futex_lock.h:26-40 | both in every state of every run, with spurious, interrupted and refused waits |
| Mutex.RunOwn | src/thread/mutex.c:36-128 | what one atomic operation of a thread does to its own standing and to owner, depth and word, for every program point |
| Mutex.StepNoLostWake | src/thread/mutex.c:92-128 | every step keeps: a free mutex with sleepers has a thread about to wake one or to retry the exchange, timeouts, EINTR and EAGAIN included |
| Mutex.EveryRun | src/thread/mutex.c:36-233 | in every state of every run there is at most one holder with owner and depth as its program point says, and no wakeup is lost |
| Mutex.MutualExclusion | src/thread/mutex.c:42-50 | in every state of every run two holders are the same thread |
| Mutex.FieldsBetweenCalls | src/thread/mutex.c:42-61 | between its calls a thread holds the mutex if and only if the owner field names it, and then the word is 1 and the depth is its number of outstanding locks |
| Mutex.OwnedByIsExact | src/thread/mutex.c:36-40 | the two separate loads of owned_by answer true exactly for the holder |
| Mutex.RefinesLock | src/thread/mutex.c:63-233 | every step of every run of the code is a step of the counted lock by that thread, or changes nothing there |
| Mutex.ResultsAreHonest | src/thread/mutex.c:63-233 | every atomic operation that ends a call in any run: busy means that somebody holds the mutex, an end other than success changes no count, a completed lock leaves its caller the holder, an unlock refused at owned_by is by a thread that does not hold |
| Mutex.LockReturns | src/thread/mutex.c:63-190 | a whole lock, timed lock or try, over every run: it succeeds exactly if its thread then holds once more than before; it times out exactly if the kernel said so, which only a timed lock lets it; it is an error exactly if the kernel failed it, the depth was at its limit, or the holder of a plain mutex asked to wait for itself; it is busy only as a try, with the mutex held by someone; a try never waits |
| Mutex.UnlockReturns | src/thread/mutex.c:192-233 | a whole unlock, over every run: it succeeds exactly if its thread held, and then holds once less; otherwise an error and nothing changes |
| Condition.StepInv | src/thread/condition.c:41-123 | every step keeps one holder, the standing of each thread, and no latecomers while a signaller holds the mutex |
| Condition.EveryRun | src/thread/condition.c:41-123 | the invariant in every state of every run with fewer than 2^32 wake calls inside one wait window |
| Condition.StepsOfTheLock | src/thread/condition.c:68-123 | what threads do with the mutex in every run here are steps of the counted lock that Mutex refines |
| Condition.BroadcastReleasesAll | src/thread/condition.c:41-56 | a thread asleep at any time after a broadcast's wake loaded the sequence at or after that broadcast's increment |
| Condition.SignalFreesOne | src/thread/condition.c:41-56 | in every run a signal made with the mutex held frees at least one waiter from before its increment, if there is one |
| Condition.SignalFreesExactly | src/thread/condition.c:41-66 | for any signaller about to increment while threads wait, whoever has the mutex: every continuation of every run up to its wake ends the wait of one of those threads if and only if one of them is not yet asleep, or the mutex is with a thread in the middle of a wake (the signaller itself) or of a wait |
| Condition.SignalCanMiss | src/thread/condition.c:41-66 | without the mutex, from any such run any idle thread can come late and take the wake, and everyone who slept before the increment sleeps on |
| Condition.HolderCanMiss | src/thread/condition.c:41-123 | nor does it help that another thread has the mutex, if that thread may still go to sleep: it can take the wake, and everyone who slept before the increment sleeps on |
| Condition.EngagedFrees | src/thread/condition.c:41-123 | a thread that has the mutex in the middle of a wake or of a wait keeps every new waiter out until a wake, its own or the signaller's, ends the wait of one who waited at the increment |
| Condition.StaysReleased | src/thread/condition.c:68-123 | in every run a wait that is over, or that is still before the futex call when the sequence is incremented, does not fall asleep again |
| Condition.FreedCannotSleep | src/thread/condition.c:68-123 | in every run a freed thread that comes to the futex call is refused and goes on to take the mutex |
| Condition.WaitReturnsLocked | src/thread/condition.c:68-123 | success and timeout are returned only with the mutex held by that thread alone, as often as on entry |
| Condition.WaitReturns | src/thread/condition.c:68-123 | a whole wait, over every run, by what took the thread out of its sleep: timed out exactly if the time had expired, which only a timed wait lets it; success exactly if it was woken by name, woke for no reason, or found the word changed since it loaded it; an error exactly if the kernel failed it or the mutex could not be taken back, or its thread did not hold it; and the mutex is held as often as on entry unless it could not be taken back |
| Condition.WakeReturns | src/thread/condition.c:41-66 | a whole signal or broadcast, over every run: the count goes up by one; then one sleeper if there is any, or every sleeper, is taken out of the queue, to return success once it has the mutex; the call succeeds |
| Condition.SignalWithoutMutexMisses | src/thread/condition.c:58-61 | the same in a concrete run of three threads from the start |
| Condition.WrapIsMissed | src/thread/condition.c:68-123 | a waiter at the futex call is put to sleep exactly when the number of wake calls since its load is a multiple of 2^32 |
| Lifecycle.StepInv | src/thread/lifecycle.c:90-518 | every critical section, atomic access and system call of create, detach, join, exit and the reaper keeps the invariant on controls and threads |
| Lifecycle.EveryRun | src/thread/lifecycle.c:90-518 | the invariant in every state of every run, any number of threads |
| Lifecycle.TouchesLive | src/thread/lifecycle.c:124-182 | a step touches only control blocks that exist and have not been freed, list walks included |
| Lifecycle.NoUseAfterFree | src/thread/lifecycle.c:124-518 | no step of any run reads or writes a freed control block, a child that detaches before it is published included |
| Lifecycle.Alone | src/thread/lifecycle.c:140-182 | whoever claims a control or will publish it is the only thread at work on it |
| Lifecycle.OneClaimant | src/thread/lifecycle.c:124-182 | two threads that build, drop or reclaim the same control at the same time are the same thread |
| Lifecycle.AtMostOnce | src/thread/lifecycle.c:161-182 | in every state of every run a stack has been unmapped at most once and its block freed at most once, and a started thread's block only after its stack |
| Lifecycle.WhoUnmaps | src/thread/lifecycle.c:161-182 | only the unmap steps of the claimant and of a failed create unmap a stack |
| Lifecycle.UnmapsDeadStacks | src/thread/lifecycle.c:161-182 | when a stack is unmapped no living thread has it; clear_tid is 0 then if and only if a thread was started on it, which is if and only if the step is not that of a create whose clone was refused |
| Lifecycle.LivingThreads | src/thread/lifecycle.c:328-390 | while a thread lives its control is registered and not freed, its stack mapped, its clear_tid not 0 |
| LifecycleExample.CreatedExitedJoined | src/thread/lifecycle.c:279-518 | a concrete run in which a thread is created, published, exits and is joined, its stack unmapped once and its block freed once |
| LifecycleExample.UnmappedUncleared | src/thread/lifecycle.c:334-346 | a concrete run in which the clone is refused and the stack is unmapped while clear_tid is -1 |
| LifecycleExample.ReaperSleepsBesideDead | src/thread/lifecycle.c:184-220 | a concrete run after which the reaper sleeps on the current event with a dead detached thread left to it |
| LifecycleResult.EveryFullRun | src/thread/lifecycle.c:279-390 | in every state of every run with the values a started control has exactly one thread, and once that has stored, the result field is what it gave thrd_exit |
| LifecycleResult.JoinGivesPassed | src/thread/lifecycle.c:458-518 | where thrd_join reads the result, the joined thread is gone and the value is the one it gave thrd_exit |
| LifecycleCalls.CreateReturns | src/thread/lifecycle.c:279-359 | a whole creation, over every run: success exactly if a thread was started on the block, which is then published under the id the kernel gave; otherwise the block is freed, with no-memory if mapping failed or the kernel said so and an error else |
| LifecycleCalls.JoinReturns | src/thread/lifecycle.c:458-518 | a whole join, over every run: success means that it picked a joinable thread and freed its block, with no call failing in between; an error means that it was the caller itself, that there was none to join or one not joinable and nothing changed, or that a wait or the unmap failed and the thread is joinable again |
| LifecycleCalls.DetachReturns | src/thread/lifecycle.c:404-456 | a whole detach, over every run: success means that it picked a joinable thread, which is freed if it was dead and published then, and else is detached with the reaper started; an error means that there was none to detach or one not joinable and nothing changed, that no reaper could be started and nothing changed, or that the unmap failed and the thread is joinable again |
| LifecycleCalls.PartedStays | src/thread/lifecycle.c:124-222 | once detached, always detached, until the reaper has claimed it or it is freed |
| LifecycleCalls.DetachedForGood | src/thread/lifecycle.c:404-518 | after a detach of a thread not yet dead has returned success, in every later state: no thread is at work joining it, and once it is published and gone it is the reaper's to take until the reaper has taken it |
| LifecycleCalls.NoNewWork | src/thread/lifecycle.c:124-159 | no step leaves work for the reaper where there was none without raising the event it sleeps on |
| LifecycleCalls.ReaperMisses | src/thread/lifecycle.c:124-220 | the reaper, asleep on the current event, leaves a detached thread waiting exactly if its second search had found one, dead since the first; and that one is dead, published and still its to take |
| SimpleFile.OverlayJoin | src/stdio/stdio.c:238-273 | two adjacent writes leave the file as one write of both |
| SimpleFile.ReadBack | src/stdio/stdio.c:214-236 | what was written is what is read back from there |
| SimpleFile.WriteIsLocal | src/stdio/stdio.c:214-236 | a write leaves the bytes before and after it alone |
| Stream.Kernel.Read | src/stdio/stdio.c:110-133 | the read call: any non-empty prefix of what lies ahead, the end only at the end, or a failure that moves nothing and is counted |
| Stream.Kernel.Write | src/stdio/stdio.c:214-236 | the write call: some prefix lands at the offset, or at the end for an appending file, or nothing happens and the failure is counted |
| Stream.Kernel.Seek | src/stdio/position.c:34-72 | the seek call: the offset asked for, or a failure that moves nothing and is counted |
| Stream.File.constructor | src/stdio/stdio_internal.h:53-69 | a new stream is in a consistent state on the file as it stands, nothing buffered |
| Stream.File.EnsureStorage | src/stdio/stdio.c:82-93 | both buffers exist afterwards, existing ones are kept, and the stream's value is unchanged |
| Stream.File.Fill | src/stdio/stdio.c:176-198 | one read call into the empty buffer: unread input that is exactly the next bytes of the file; the error flag only if the call failed, the end only if the file has no more |
| Stream.File.ReadRound | src/stdio/stdio.c:136-199 | one round serves pushed-back bytes, then buffered ones, then fetches; the bytes served are the next ones ahead |
| Stream.File.ReadBuffered | src/stdio/stdio.c:135-202 | a buffered read: the next bytes ahead in order, as many as asked, or fewer with empty buffers because a call failed or the file ended; the file is read only if the buffered bytes are not enough |
| Stream.File.ReadRaw | src/stdio/stdio.c:110-133 | an unbuffered read: the next bytes of the file, pushed-back bytes untouched, or fewer because a call failed or the file ended |
| Stream.File.Read | src/stdio/stdio.c:95-202 | all branches of a read against ReadOutcome: bytes, position, flags and their cause, and refusal when output needs a sync |
| Stream.File.WriteRaw | src/stdio/stdio.c:214-236 | unbuffered output: the bytes counted as accepted are exactly those delivered, all of the data, or a prefix of it with the error flag set because a call failed |
| Stream.File.Flush | src/stdio/stdio.c:238-273 | success exactly when nothing is pending afterwards; a failure means that a call failed, and then the delivered prefix is gone from the buffer, the rest stays in order and the error flag is set |
| Stream.File.FlushRound | src/stdio/stdio.c:252-269 | one write call sends the next bytes of the buffer in order; a short write is continued where it stopped |
| Stream.File.WriteBuffered | src/stdio/stdio.c:304-344 | buffered and line-buffered output: an accepted prefix, all of it unless a call failed; what fits into the buffer is only buffered, unless it ends a line of a line-buffered stream; such a stream keeps no line end after success |
| Stream.File.Write | src/stdio/stdio.c:285-344 | all branches of a write against WriteOutcome, with refusal while input needs positioning; what fits into the buffer is only buffered |
| Stream.File.Sync | src/stdio/stdio.c:382-399 | fflush: success exactly when nothing is pending, and then the stream may turn to reading; a failure means that a call failed and keeps the output and the flag |
| Stream.File.Seek | src/stdio/position.c:34-72 | fseek: on success at the target counted from the logical position, both directions open, output delivered, nothing buffered; on failure a call failed or there is no such place, and output was at most delivered |
| Stream.File.Tell | src/stdio/position.c:74-108 | ftell: the logical position, or -1 because a call failed or that is no file position, changing nothing but a flush on an append stream |
| Stream.File.PushBack | src/stdio/stdio.c:56-80 | succeeds exactly on a readable stream not owing a sync, for one to four bytes with none pushed back; the bytes come next, the position moves down, EOF is cleared; otherwise only the error flag is set |
| Stream.File.ClearErr | src/stdio/stdio.c:594-601 | clears the two flags and nothing else |
| Stream.File.SetBuffer | src/stdio/file.c:145-209 | setvbuf: on success one buffer serves both directions, nothing is buffered, file and logical position are as before, the mode is the one asked for; on failure the request was none or a call failed, and at most output was delivered |
| Stream.File.ResetState | src/stdio/file.c:105-113 | all flags, counters and pushed-back bytes are cleared |
| Stream.File.Abandon | src/stdio/file.c:115-128 | after a failed rebinding the stream can neither read nor write |
| Stream.File.Reopen | src/stdio/file.c:251-304 | freopen: a stream that moves to another file has delivered all it accepted and starts afresh with its old buffering; one that fails can do nothing more |
| StreamState.PushedBackMeans | src/stdio/stdio.c:56-80 | pushback keeps the stream consistent, puts the bytes before all that is ahead, moves the position down by them and closes writing |
| StreamRuns.Apply | src/stdio/stdio.c:56-399 | each method call, whatever the kernel answers, is an operation of StreamLaws that answers the call |
| StreamRuns.RunProgram | src/stdio/stdio.c:56-399 | any sequence of reads, writes, flushes, seeks, tells, pushbacks, clearerrs and setvbufs on a newly opened stream is a run as StreamLaws describes them, and delivered bytes followed by pending ones are the accepted output |
| StreamLaws.EveryRun | src/stdio/stdio.c:95-399 | in every state of every run, those of StreamRuns.RunProgram included, flags and buffers are consistent, and delivered bytes followed by pending ones are exactly the accepted ones, in order |
| StreamLaws.NeverBoth | src/stdio/file.c:197-200 | in every reachable state the flags are never both set, pending output implies needs-sync and no input, unread input implies needs-position and no pending output: the shared buffer never holds both |
| StreamLaws.StepView | src/stdio/position.c:13-108 | each operation moves the pair of file and position as a simple file with an offset does |
| StreamLaws.EveryRunView | src/stdio/position.c:13-108 | over every run without append, file and ftell position are those of the simple file: up by bytes read or accepted, down by bytes pushed back, set by seeks, kept by setvbuf and fflush |
| StreamLaws.LandsAtPosition | src/stdio/position.c:13-24 | a permitted write lands at the position exactly when nothing pushed back is unread, which is always so on a buffered stream |
| StreamLaws.UnbufferedPushbackEscapes | src/stdio/stdio.c:110-133 | a concrete unbuffered read after which a pushed-back byte is unread, writing is permitted and the position is not where it lands |
| StreamLaws.PushbackStaysCovered | src/stdio/stdio.c:110-133 | every outcome of an unbuffered read keeps pushed-back bytes covered if and only if there are none or the read does not ask beyond the end |
| StreamLaws.AheadIsFile | src/stdio/position.c:13-24 | on a buffered stream the bytes ahead are those pushed back and then the file from the position on |
| StreamLaws.ReadReturnsAhead | src/stdio/stdio.c:135-202 | a buffered read returns a prefix of the bytes ahead and leaves the rest ahead; when it stops early all buffered bytes were returned |
| StreamLaws.PushThenRead | src/stdio/stdio.c:56-80 | what was pushed back is what is read next |
| StreamLaws.PushThenReadExactly | src/stdio/stdio.c:95-202 | a read of as many bytes as were pushed back returns them if and only if the stream is buffered or the file goes on with the same bytes; an unbuffered one returns the file and leaves them unread |
| StreamLaws.WriteSeekRead | src/stdio/position.c:34-72 | output that was accepted is read back after seeking to where it was written |
| StreamLaws.SyncDelivers | src/stdio/stdio.c:382-399 | after a successful fflush the file has been given every accepted byte |
| StreamLaws.ErrorHasCause | src/stdio/stdio.c:95-399 | the error flag goes up only in a refused call or in one in which a system call failed |
| StreamLaws.ReadsAll | src/stdio/stdio.c:95-202 | if no system call fails, a read returns all that was asked for or all there is, and reports the end exactly in the second case |
| StreamLaws.WritesAll | src/stdio/stdio.c:285-344 | if no system call fails, a permitted write accepts everything |
| StreamLaws.SeeksThere | src/stdio/position.c:34-72 | if no system call fails, a seek succeeds exactly if there is such a place |
| StreamLaws.SyncsAndTells | src/stdio/stdio.c:382-399 | if no system call fails, fflush of a writable stream succeeds and ftell answers the position, unless that is no file position |
| StreamLaws.EndIsNotSticky | src/stdio/stdio.c:56-202 | after a push back, a seek or clearerr the next read serves what is ahead, whatever end was met before |
| StreamLaws.DirectionsExclude | src/stdio/stdio.c:95-344 | a write closes reading, and a read that got all it asked for closes writing |
| StreamLaws.TurnsAround | src/stdio/position.c:34-72 | a successful seek opens both directions the stream was opened for, and a successful fflush of output opens reading |
| CivilDays.FloorDiv | src/time/calendar.c:27-36 | the division that truncates, corrected, is floor division for every sign |
| CivilDays.LeapIsLeap | src/time/calendar.c:48-52 | the truncating tests give the Gregorian rule for every year, negative ones included |
| CivilDays.YearOfEraBrackets | src/time/calendar.c:77-93 | the year-of-era division finds the year whose days contain the given day, for every day of an era |
| CivilDays.DaysFromCivilCounts | src/time/calendar.c:54-75 | the closed form equals the naive count that walks years and months by leap years, for every date |
| CivilDays.CivilOfDays | src/time/calendar.c:77-93 | every valid date comes back from its day number |
| CivilDays.DaysOfCivil | src/time/calendar.c:77-93 | every integer is the day number of the valid date computed for it |
| CivilDays.Monotone | src/time/calendar.c:54-75 | a later date has a larger day number |
| Calendar.ComputeDays | src/time/calendar.c:54-75 | no 64-bit or unsigned intermediate overflows, and the result is DaysFromCivil |
| Calendar.ComputeCivil | src/time/calendar.c:77-93 | no 64-bit or unsigned intermediate overflows, and the result is CivilFromDays |
| Calendar.BrokenDown | src/time/calendar.c:95-130 | the fields are in range, the date is valid and the day of the year counts from 1 January |
| Calendar.Weekdays | src/time/calendar.c:95-130 | day 0 is a Thursday, the next day has the next weekday, and a weekday lasts a day |
| Calendar.CalendarFromEpoch | src/time/calendar.c:95-130 | fills the structure exactly when the year fits an int and leaves it alone otherwise |
| Calendar.AddUp | src/time/calendar.c:150-189 | for any int fields no intermediate overflows 64 bits, and days and seconds add up to the time the fields stand for |
| Calendar.MkTime | src/time/calendar.c:150-189 | the time the fields stand for with the fields normalised, or -1 and the fields untouched, exactly when the year does not fit |
| Calendar.TimeOfBrokenDown | src/time/calendar.c:95-130 | the fields of a time stand for that time |
| Calendar.MkTimeFixedPoint | src/time/calendar.c:150-189 | fields that mktime has written are left as they are by mktime |
| Calendar.BrokenDownInjective | src/time/calendar.c:95-130 | different times have different fields |
| Calendar.GmTimeThenMkTime | src/time/calendar.c:132-189 | mktime after gmtime gives the time back, for every time whose year fits |
| Calendar.Carries | src/time/calendar.c:150-189 | out-of-range fields carry: 60 seconds are a minute, and so on up to twelve months and a year |
| Rounding.IntegralMeans | src/math/fenv_rounding.c:66-128 | the prescription by its meaning: the integer below, above, toward zero, or nearest with ties to even |
| Rounding.LowBits | src/math/fenv_rounding.c:106-126 | the bit above the fraction is odd exactly when the integral part is, at exponent 0 too, where it is the exponent's own low bit |
| Rounding.RoundedValues | src/math/fenv_rounding.c:106-128 | clearing the fraction bits and adding a unit give the two neighbouring integers, with the carry into the exponent |
| Rounding.RoundSmall | src/math/fenv_rounding.c:84-101 | magnitudes between 0 and 1 round as prescribed, with the sign kept, and are inexact |
| Rounding.RoundFraction | src/math/fenv_rounding.c:102-128 | magnitudes with bits on both sides of the point round as prescribed, inexact exactly when the value changes |
| Rounding.RoundMode | src/math/fenv_rounding.c:66-192 | for every finite double and every finite float, and all four modes, the integral value prescribed by IEEE 754, the sign kept, inexact exactly when the value changes; NaNs and infinities come through |
| Scaling.HighestBit | src/math/scale.c:63-72 | the index of the highest bit set, -1 for 0 |
| Scaling.Normalize | src/math/scale.c:144-153 | significand with its top bit in place and exponent of any finite magnitude but 0, subnormals included |
| Scaling.FrExp | src/math/decompose.c:109-164 | of a finite number but 0 a magnitude from a half up to one which scaled by the exponent is the argument exactly; zeros, infinities and NaNs unchanged with exponent 0 |
| Scaling.RoundShift | src/math/scale.c:74-124 | shifting right rounds as the mode and the sign prescribe, for any shift, and reports discarded bits exactly |
| Scaling.RoundedShiftMeans | src/math/scale.c:74-124 | the rounded shift of a signed value is its quotient rounded as the standard prescribes, ties and directions included |
| Scaling.Scale | src/math/scale.c:126-183 | scaled exactly when the target exponent is normal; rounded once into the subnormals otherwise, inexact when bits were lost and the result is normal, underflow when bits were lost and it is not; infinity and overflow above |
| Scaling.ScaleRounds | src/math/scale.c:126-183 | scaling down, into the subnormals and below them: the result is the signed value over 2^-n, rounded once as the mode prescribes |
| Scaling.ExactIsScaled | src/math/scale.c:126-183 | whenever no inexact, overflow or underflow is reported, the result is the scaled value |
| Scaling.ScaleIsExact | src/math/scale.c:126-183 | when the scaled value is a double at all, the result is it, in every mode |
| Representable.CloseDifference | src/math/remainder.c:145-163 | the difference of two doubles within a factor of two is a double |
| Representable.ExactResult | src/math/remainder.c:53-86 | an operation whose exact result is a double delivers it in every rounding direction |
| Remainder.DivisionStep | src/math/remainder.c:68-80 | one round keeps: dividend significand shifted = quotient times divisor + remainder |
| Remainder.Round | src/math/remainder.c:68-80 | the subtraction and the doubling of a round are exact in floating point |
| Remainder.Divide | src/math/remainder.c:53-86 | the loop computes quotient and remainder of the significands, the quotient kept modulo 128 |
| Remainder.ReducePositive | src/math/remainder.c:53-86 | remainder and low quotient bits of the values themselves, for any finite magnitudes |
| Remainder.ScaleBack | src/math/remainder.c:131-142 | the final rescale is exact |
| Remainder.FModFinite | src/math/remainder.c:120-143 | for all finite x and finite nonzero y the exact remainder of the magnitudes with the sign of x |
| Remainder.FModMeans | src/math/remainder.c:120-143 | such a result r has a magnitude below that of y, the sign of x, and x - r is an integral multiple of y |
| Remainder.Near | src/math/remainder.c:153-162 | comparing x with the rounded difference \|y\| - x decides the nearest multiple exactly |
| Remainder.Far | src/math/remainder.c:166-177 | beyond one divisor: the rest after the nearest multiple, exactly, and that multiple modulo 128 |
| Remainder.NearestMeans | src/math/remainder.c:145-191 | the nearest quotient leaves at most half the divisor, and on a tie is even |
| Remainder.RemainderFinite | src/math/remainder.c:145-191 | the exact rest after the nearest multiple, a zero signed like x, and the signed low bits of the multiple |
| Remainder.RemainderMeans | src/math/remainder.c:145-191 | no other multiple of y is nearer to x, ties take the even one, and remquo's quotient has its sign and is congruent to it modulo 128 |
| Remainder.FMod | src/math/remainder.c:193-217 | fmod on all doubles: NaNs through, domain error for infinite x or zero y, x for infinite y, and FModOutcome otherwise |
| Remainder.RemQuo | src/math/remainder.c:245-324 | remainder and remquo on all doubles, the quotient 0 in the special cases |
| Utf8.ValueOfEncode | src/wchar/wchar.c:177-229 | the encoding of every scalar is well formed by the table of section 4 of RFC 3629 and has its value |
| Utf8.EncodeOfValue | src/wchar/wchar.c:177-229 | every well-formed sequence is the encoding of its value: one encoding each |
| Utf8.AcceptsExactly | src/wchar/wchar.c:72-169 | the decoder accepts a sequence as one character if and only if it is well formed, with that value |
| Utf8.FourDecide | src/wchar/wchar.c:72-169 | from any state four bytes always decide |
| Utf8.FeedReachable | src/wchar/wchar.c:72-169 | every byte leads to a legal state or a scalar |
| Utf8.DecodeOfEncode | src/wchar/wchar.c:72-229 | decoding the encoding of a scalar gives the scalar, whatever follows |
| Utf8.DecodeOfEncodeAll | src/wchar/wchar.c:72-229 | decoding inverts encoding on every text of scalars |
| Utf8.DecodeCut | src/wchar/wchar.c:72-169 | the characters are the same however the bytes are cut in two |
| WideChars.FeedByte | src/wchar/wchar.c:88-165 | one byte on the state in place is one step of the decoder, and the state is the initial one unless more is needed |
| WideChars.MbRToWc | src/wchar/wchar.c:105-169 | mbrtowc is one scan of the bytes from the state: its result, character and new state |
| WideChars.MbRToWcIn | src/wchar/wchar.c:72-169 | mbrtowc in either locale: no source resets the state; otherwise one scan of the bytes, which in the C locale takes a byte up to 0x7f as itself and nothing inside a character |
| WideChars.ConvertChunk | src/wchar/wchar.c:72-169 | repeated calls on a chunk decode all of it |
| WideChars.ConvertChunks | src/wchar/wchar.c:72-169 | however the input is cut into chunks, the characters are those of the whole |
| WideChars.WcRToMb | src/wchar/wchar.c:204-229 | exactly the encoding and its length for a scalar, no byte past it touched; an error and nothing stored otherwise |
| WideChars.WcRToMbIn | src/wchar/wchar.c:177-229 | wcrtomb in either locale: the same encoding for what the locale has, an error and nothing stored otherwise; without a destination only the state is reset |
| WideChars.SourceWindow | src/wchar/wchar.c:236-247 | up to the maximum, never past the terminator |
| WideChars.NullDecides | src/wchar/wchar.c:249-303 | a window of four bytes, or ending in the terminator, always decides |
| WideChars.MbSrToWcs | src/wchar/wchar.c:249-303 | the characters of the source up to its terminator, or up to the room, or up to the first bad one, with the place where it stopped |
| WideChars.SizeOfMbs | src/wchar/wchar.c:249-303 | with no destination, the number of characters before the terminator, or the error at a bad one; the state is not changed |
| WideChars.WcSrToMbs | src/wchar/wchar.c:305-359 | whole encodings only, in order, as many as fit; the place of the first character not stored, or of the one that is no scalar |
| WideChars.SizeOfWcs | src/wchar/wchar.c:305-359 | with no destination, the size of the whole text without its terminator, or the error |
| WideStream.GetByte | src/wchar/wide_stdio.c:45-71 | one byte taken from the stream, or none: refused, or with nothing left in the buffers a call failed or the file ended |
| WideStream.GetWide | src/wchar/wide_stdio.c:45-71 | on any stream in either locale: takes exactly the bytes of one character and gives it; or bytes that are none, with an error; or the stream refused to read, a call failed or the input ended, with an error if inside a character |
| WideStream.UngetWide | src/wchar/wide_stdio.c:91-112 | succeeds exactly for a character of the locale on a stream that takes pushback; the encoding comes next |
| WideStream.UngetThenGet | src/wchar/wide_stdio.c:45-112 | a wide character pushed back is the one read next, taking exactly its encoding |
| Numerals.NumberOfNumeral | src/stdio/format.c:632-646 | the numeral of a number in any base denotes it |
| Numerals.LeadingZeros | src/stdio/format.c:648-727 | leading zeros do not change the number |
| Numerals.NumeralLeads | src/stdio/format.c:632-646 | a numeral begins with 0 only if it is 0 |
| IntegerParse.FindSubject | src/stdlib/strtol.c:34-77 | white space, sign, prefix and base detection find where the digits of the subject begin |
| IntegerParse.OverflowTest | src/stdlib/strtol.c:86-95 | comparing before multiplying decides overflow exactly |
| IntegerParse.Accumulate | src/stdlib/strtol.c:79-97 | the digit loop: the end of the digits, and their exact number or that it exceeds the limit |
| IntegerParse.SubjectOfSpelling | src/stdlib/strtol.c:34-97 | spaces, sign, prefix, digits and rest, put together as the standard's grammar has them in any base, 0 included: the subject is the digits, with their number, base and sign |
| IntegerParse.SubjectIsSpelled | src/stdlib/strtol.c:34-97 | and whatever the code takes for a number is put together so |
| IntegerParse.LongOfSpelling | src/stdlib/strtol.c:24-121 | the exact value of the digits with its sign, or the end of the range of long beyond which it lies, with a range error; the end pointer is behind the digits |
| IntegerParse.UnsignedOfSpelling | src/stdlib/strtoul.c:24-112 | the value, or what added to it gives 0 modulo 2^64 after a minus sign; ULONG_MAX with a range error exactly if the digits exceed it |
| IntegerParse.NothingToRead | src/stdlib/strtol.c:24-77 | a bad base is refused; a string that spells no number gives 0, no error and its own start |
| IntegerParse.StrToL | src/stdlib/strtol.c:24-121 | the exact value clamped to long with a range error exactly when clamped, the end pointer, and the errors for bad bases and no digits |
| IntegerParse.StrToUL | src/stdlib/strtoul.c:24-112 | the exact value or ULONG_MAX with a range error, negation modulo 2^64, the end pointer |
| IntegerPrint.FillsField | src/stdio/format.c:648-727 | the text is as wide as the field, or as its body when that is wider |
| IntegerPrint.Justified | src/stdio/format.c:648-727 | the text with no width, padded to the width: by spaces behind with the minus flag, else by zeros between prefix and digits with the zero flag and no precision, else by spaces in front |
| IntegerPrint.SignMeans | src/stdio/format.c:648-680 | a minus exactly before negative values; else, of signed conversions, a plus or a space as asked |
| IntegerPrint.PrecisionMeans | src/stdio/format.c:648-705 | how many digits there are: at least the precision, none for 0 with precision 0, a leading zero in the alternate octal form, and no zero more |
| IntegerPrint.CaseMeans | src/stdio/format.c:632-705 | no letter of the text, prefix included, is of the other case |
| IntegerPrint.PrintsDigitsWhen | src/stdio/format.c:648-727 | a digit is printed unless precision is 0 and the value 0, the alternate octal form apart |
| IntegerPrint.SubjectOfText | src/stdio/format.c:648-727 | what strtol takes the printed text to be: sign, base, digits and exact value, under any flags, width and precision |
| IntegerPrint.LongReadsBack | src/stdio/format.c:648-727 | for every value a long can hold, strtol of the printed text gives the value and stops right after its last digit if and only if a digit is printed or nothing stands before where it would be; otherwise it gives 0 and the start |
| IntegerPrint.UnsignedReadsBack | src/stdio/format.c:648-727 | the same for strtoul and every unsigned value in base 8, 10 and 16 |
| IntegerPrint.AlternateReadsBack | src/stdio/format.c:648-727 | the alternate octal and hexadecimal forms carry their base: strtoul in base 0 reads them back |
| IntegerPrint.ReadsBackWhen | src/stdio/format.c:648-727 | that condition in terms of value, flags, width and precision |
| IntegerPrint.PlusAloneReadsNothing | src/stdio/format.c:664-678 | precision 0, value 0 and the plus flag print "+", of which strtol reads nothing |
| IntegerPrint.Sink.Write | src/stdio/format.c:193-217 | all bytes are counted and those that fit are stored, with room kept for the terminator |
| IntegerPrint.Sink.EmitBytes | src/stdio/format.c:183-226 | refused exactly when the count would pass INT_MAX |
| IntegerPrint.Sink.EmitRepeat | src/stdio/format.c:228-255 | the chunks together are the repeated character; refused as a whole when the count would pass INT_MAX |
| IntegerPrint.MakeDigits | src/stdio/format.c:632-646 | the digits made, last first, are the numeral, and 64 places are enough for every value and base |
| IntegerPrint.MakePlan | src/stdio/format.c:648-705 | sign, prefix, zeros and spaces of the plan are those of the text |
| IntegerPrint.EmitPlan | src/stdio/format.c:707-727 | the pieces go out in order, or stop at the count's limit |
| IntegerPrint.EmitNumber | src/stdio/format.c:648-727 | exactly the text, or a failure exactly when the count has no room for all of it, with a prefix of it emitted |
| FloatGrammar.DecimalLongest | src/internal/float_parse.c:410-466 | the greedy decimal scan ends where the longest decimal constant of the grammar ends, a bare exponent backed out of |
| FloatGrammar.HexLongest | src/internal/float_parse.c:496-550 | the hexadecimal scan ends where the longest hexadecimal constant ends |
| FloatGrammar.InfinityLongest | src/internal/float_parse.c:600-650 | "inf" or "infinity", the longer if it is there |
| FloatGrammar.NanLongest | src/internal/float_parse.c:652-708 | "nan", with a payload only if it is closed |
| FloatGrammar.UnsignedLongest | src/internal/float_parse.c:710-779 | the kind chosen by the first characters gives the longest of all kinds |
| FloatGrammar.SubjectLongest | src/internal/float_parse.c:710-779 | the end of the longest prefix that is a subject sequence of section 7.22.1.3 of C11; none exactly when no prefix is one |
| FloatParse.Source.Unget | src/stdlib/strtod.c:24-35 | steps back exactly over the character before the cursor |
| FloatParse.Reader.ParseExponent | src/internal/float_parse.c:342-408 | the exponent is taken, or everything from its letter on is given back |
| FloatParse.Reader.ScanMantissa | src/internal/float_parse.c:410-466 | the mantissa loop stops at the end of the mantissa and knows whether it had a digit |
| FloatParse.Reader.ParseFloating | src/internal/float_parse.c:410-550 | the cursor ends where FloatingEnd says, or the status is a failure when there is no constant |
| FloatParse.Reader.MatchRequired | src/internal/float_parse.c:581-598 | succeeds exactly when the word is there, case apart, and then stands after it |
| FloatParse.Reader.ParseInfinity | src/internal/float_parse.c:600-650 | a partial "infinity" is given back to "inf" |
| FloatParse.Reader.ParseNan | src/internal/float_parse.c:652-708 | an unclosed payload is given back to "nan" |
| FloatParse.Reader.ParseHex | src/internal/float_parse.c:496-550 | the hexadecimal digits after "0x", or a failure when there are none |
| FloatParse.ParseUnsigned | src/internal/float_parse.c:710-779 | after the sign: the longest constant of any kind; from a bare "0x" back to the zero |
| FloatParse.Parse | src/internal/float_parse.c:710-779 | white space, sign and constant: the cursor ends at the end of the subject sequence |
| FloatParse.ParseString | src/stdlib/strtod.c:54-83 | strtod's end pointer is the longest prefix matching the grammar, and the start of the string exactly when nothing matches |

## Left out

- Lifecycle.EveryRun: thread ids are unique names or arbitrary answers of the search, so id reuse by the kernel is over-approximated and lookup by id is not proved to find the caller's thread.
- Lifecycle.AtMostOnce: says at most once, not that every detached thread is reaped in the end; when the reaper sleeps on one is `LifecycleCalls.ReaperMisses`, and no claim is made that the next event comes.
- Lifecycle.LivingThreads: the process exit when the last user thread leaves, thread-specific destructors and the reaper's own fixed control are not modelled.
- Condition.EveryRun: assumes fewer than 2^32 wake calls inside one wait window; `Condition.WrapIsMissed` shows what happens outside.
- Condition.SignalFreesExactly: a thread that has the mutex and is past its load must have loaded fewer than 2^32 wake calls ago, as in Condition.EveryRun.
- Condition.StepsOfTheLock: the mutex is the counted lock here and its own steps are in Mutex; no system with both at once is built.
- Mutex.EveryRun: initialisation, destruction and the checks of type and time point are not modelled.
- AllocatorRuns.RunProgram: a critical section is one step, and the copy of a move is one step of its thread; the lock that makes them so is FutexLock, and the two models are not composed.
- Allocator.Heap.SysBrk: only the allocator moves the break, and the kernel grants exactly what was asked or nothing.
- Allocator.Heap.Malloc: `calloc` and `memcpy` are left out; the copy of a move is one step on the bytes.
- StreamLaws.EveryRunView: position and image are for files that do not append; conservation holds for those that do as well.
- Stream.File.constructor: the kernel's counters of calls and failures are ghosts that begin at 0 with the stream; what failed before is not part of its history, here and in `Stream.File.Reopen`.
- LifecycleCalls.CreateReturns: begins with the block allocated; a null answer of malloc, which `thrd_create` turns into no-memory at once, is not a step.
- Condition.WakeReturns: FUTEX_WAKE on the object's own word does not fail, here and in `Mutex.UnlockReturns` and `FutexLock.EveryRun`.
- Stream.File.Reopen: the answer of `open` is a parameter, and bytes pending when the rebinding fails are lost, so conservation is claimed for one binding; a stream that the library allocated is also unregistered and freed when it fails, which is not modelled.
- Stream.File.Abandon: a stream that the library allocated is also unregistered and freed there; the model says what one can do with it, which is nothing.
- Stream.File.SetBuffer: who owns a heap buffer and when it is freed is not modelled; the old buffers are no longer part of the stream.
- Stream.File.Read: the caller's memory must not be one of the stream's buffers; the per-stream lock and the registry of all streams are left out, with `fclose` and flushing at exit.
- WideChars.MbRToWcIn: the state is always given; the static ones used for a null pointer are not modelled, here and in `WideChars.WcRToMbIn`.
- WideChars.MbSrToWcs: the UTF-8 mode; in the C locale it is the same loop with windows of one byte, as are `WideChars.SizeOfMbs`, `WideChars.WcSrToMbs` and `WideChars.SizeOfWcs`.
- Rounding.RoundMode: `rint`, `nearbyint` and `lrint` around it (environment, errno, the range check) are left out.
- Remainder.FMod: bits are read with division and remainder by powers of two instead of masks; saving and restoring errno and the floating-point environment is left out, and so are the float versions, which convert to double and back.
- Scaling.Scale: no claim is made against IEEE 754 for overflow, where the code returns infinity in every mode; the remainder functions never reach it.
- Calendar.CalendarFromEpoch: `localtime`, `asctime`, `strftime` and the static result buffer are left out.
- IntegerPrint.Sink.Write: the memory sink only; the branch that writes to a stream is left out.
- IntegerPrint.EmitNumber: the memory sink; the FILE sink, the parsing of format strings and the other conversions are left out.
- IntegerParse.StrToL: `strtoll` is the same loop on the same width and is not repeated.
- FloatParse.ParseString: the end pointer and status; the value that strtod computes is rounded repeatedly and not modelled.
- FloatParse.Parse: the policy of strtod, with mark and restore; the one-pass policy of the scanf family and its field width are left out.
- FloatParse.ParseUnsigned: the same two limits, no converted value and the policy of strtod.
- FloatParse.Reader.ParseFloating: the same two limits.
- FloatParse.Reader.ParseHex: the same two limits.
- FloatParse.Reader.ParseExponent: the same two limits; the exponent's value is not kept.
- FloatParse.Reader.ParseInfinity: the policy of strtod.
- FloatParse.Reader.ParseNan: the policy of strtod; the payload's value is not kept.
- errno values are modelled where the result depends on them (ENOMEM, EINVAL, ERANGE, EDOM) and dropped elsewhere.
- Weak memory: the locks are sequentially consistent, so steps interleave.
- System call wrappers, process start, variadic plumbing, the series of the elementary functions, Unicode tables, ctype, locale names, string and sorting routines, once, thread-specific storage and atexit are not part of this model.
