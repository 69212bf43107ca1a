/** The first-fit `brk` allocator: `malloc`, `free` and `realloc` over in-band headers.
    `View` is the ideal heap, a map from pointer to contents; each public method is specified
    by what it does to that map. */
module Allocator {
  import opened ByteMemory
  import opened BlockList
  import opened HeapImage

  const SIZE_MAX := WORD_LIMIT - 1
  const ENOMEM := 12

  type Word = x: nat | x < WORD_LIMIT

  function AlignUp(n: nat): (r: nat)
    ensures Aligned(r) && n <= r < n + ALIGNMENT
  {
    n + (ALIGNMENT - 1) - (n + (ALIGNMENT - 1)) % ALIGNMENT
  }

  function Min(a: nat, b: nat): nat { if a < b then a else b }

  lemma AlignUpLeast(n: nat, b: nat)
    requires n <= b && Aligned(b)
    ensures AlignUp(n) <= b
  {
  }

  // ----- When a call may fail

  ghost predicate HasFit(bs: seq<Block>, size: nat) {
    exists j :: 0 <= j < |bs| && bs[j].free && size <= bs[j].size
  }

  /** The payload of the first free block in address order that is large enough. */
  ghost predicate FirstFit(bs: seq<Block>, size: nat, ptr: nat) {
    exists i :: 0 <= i < |bs| && bs[i].free && size <= bs[i].size && bs[i].Payload() == ptr
      && forall j :: 0 <= j < i ==> !(bs[j].free && size <= bs[j].size)
  }

  /** The break is no address to begin at, or there are no addresses for so much more. */
  predicate NoAddresses(initialized: bool, brk: nat, growth: nat) {
    (!initialized && (brk == 0 || WORD_LIMIT / 2 <= brk)) || SIZE_MAX < (if initialized then brk else AlignUp(brk)) + growth
  }

  /** Growing by `growth` failed: the kernel refused something on the way, or there are no addresses. */
  predicate Denied(was: nat, now: nat, initialized: bool, brk: nat, growth: nat) {
    was < now || NoAddresses(initialized, brk, growth)
  }

  /** Why there is no block of `size`: none is free, and the heap could not grow. */
  ghost predicate Shortage(bs: seq<Block>, was: nat, now: nat, initialized: bool, brk: nat, size: nat) {
    !HasFit(bs, size) && Denied(was, now, initialized, brk, HEADER + size)
  }

  /** Block i has the room already, or with a free right neighbour. */
  predicate FitsInPlace(bs: seq<Block>, i: nat, size: nat)
    requires i < |bs|
  {
    size <= bs[i].size || (i + 1 < |bs| && bs[i + 1].free && size <= bs[i].size + HEADER + bs[i + 1].size)
  }

  /** Block i ends the heap, or does with a free right neighbour: the room of the two. */
  function RoomAtEnd(bs: seq<Block>, i: nat): (r: int)
    requires i < |bs|
  {
    if i + 1 == |bs| then bs[i].size
    else if i + 2 == |bs| && bs[i + 1].free then bs[i].size + HEADER + bs[i + 1].size
    else -1
  }

  /** Why block i could not be resized where it is: it does not fit, and at the end of the heap the
      heap could not grow by what is missing. */
  predicate Stuck(bs: seq<Block>, i: nat, was: nat, now: nat, brk: nat, size: nat)
    requires i < |bs|
  {
    !FitsInPlace(bs, i, size) && (0 <= RoomAtEnd(bs, i) < size ==> Denied(was, now, true, brk, size - RoomAtEnd(bs, i)))
  }

  /** The same for the allocation at ptr. */
  ghost predicate StuckAt(bs: seq<Block>, ptr: nat, was: nat, now: nat, brk: nat, size: nat) {
    forall i: nat :: i < |bs| && bs[i].Payload() == ptr ==> Stuck(bs, i, was, now, brk, size)
  }

  lemma DeniedLater(bs: seq<Block>, ptr: nat, was: nat, from: nat, now: nat, initialized: bool, brk: nat, size: nat)
    requires was <= from <= now
    ensures StuckAt(bs, ptr, was, from, brk, size) ==> StuckAt(bs, ptr, was, now, brk, size)
    ensures Shortage(bs, from, now, initialized, brk, size) ==> Shortage(bs, was, now, initialized, brk, size)
  {
    hide HasFit, FitsInPlace, RoomAtEnd, NoAddresses;
    if StuckAt(bs, ptr, was, from, brk, size) {
      forall i: nat | i < |bs| && bs[i].Payload() == ptr ensures Stuck(bs, i, was, now, brk, size) {
        assert Stuck(bs, i, was, from, brk, size);
      }
    }
  }

  /** Allocation seen on contents: either nothing changed and the result is null, or one new,
      aligned pointer with `size` bytes was added to what was there. */
  ghost predicate Fresh(before: map<nat, seq<byte>>, after: map<nat, seq<byte>>, ptr: nat, size: nat) {
    if ptr == 0 then after == before
    else ptr !in before && ptr in after && |after[ptr]| == size && Aligned(ptr) && after - {ptr} == before
  }

  /** The block at index i was resized in place to a request of `size`: its first bytes, up to
      `kept`, are the same, and nothing else live was touched. */
  ghost predicate Resizes(m: Memory, bs: seq<Block>, n: Memory, cs: seq<Block>, i: nat, size: nat, kept: nat) {
    && i < |bs| && i < |cs| && cs[i].addr == bs[i].addr && !cs[i].free && cs[i].requested == size
    && Changed(m, bs, n, cs, bs[i].Payload()) && FitsBut(cs, 0)
    && SamePrefix(m, n, bs[i].Payload(), kept)
  }

  lemma ResizesAfter(m: Memory, bs: seq<Block>, n: Memory, cs: seq<Block>, o: Memory, ds: seq<Block>,
                     i: nat, size: nat, kept: nat, kept': nat)
    requires i < |bs| && i < |cs| && bs[i].addr == cs[i].addr && Changed(m, bs, n, cs, bs[i].Payload())
    requires SamePrefix(m, n, bs[i].Payload(), kept') && Resizes(n, cs, o, ds, i, size, kept) && kept' <= kept
    ensures Resizes(m, bs, o, ds, i, size, kept')
  {
    ChangedAgain(m, bs, n, cs, o, ds, bs[i].Payload());
    ShorterPrefix(n, o, bs[i].Payload(), kept, kept');
  }

  /** Reallocation seen on contents: on failure nothing changed; otherwise the result holds `size`
      bytes, begins with the old bytes that still fit, and stands in place of `ptr`. */
  ghost predicate Resized(before: map<nat, seq<byte>>, after: map<nat, seq<byte>>, ptr: nat, result: nat, size: nat)
    requires ptr in before
  {
    if result == 0 then after == before
    else
      var kept := Min(|before[ptr]|, size);
      && result in after && |after[result]| == size && Aligned(result)
      && (result == ptr || result !in before)
      && after - {result} == before - {ptr}
      && after[result][..kept] == before[ptr][..kept]
  }

  lemma NotResized(v: map<nat, seq<byte>>, ptr: nat, size: nat)
    requires ptr in v
    ensures Resized(v, v, ptr, 0, size)
  {
  }

  lemma ResizedFrom(v: map<nat, seq<byte>>, w: map<nat, seq<byte>>, p: nat, size: nat)
    requires 0 < p && p in v && p in w && |w[p]| == size && Aligned(p) && v - {p} == w - {p}
    requires w[p][..Min(|v[p]|, size)] == v[p][..Min(|v[p]|, size)]
    ensures Resized(v, w, p, p, size)
  {
  }

  lemma ResizedViews(m: Memory, bs: seq<Block>, start: nat, end: nat, n: Memory, cs: seq<Block>, end': nat,
                     i: nat, size: nat, kept: nat)
    requires Tiles(bs, start, end) && FitsBut(bs, 0) && end <= |m| && i < |bs| && !bs[i].free
    requires Tiles(cs, start, end') && FitsBut(cs, 0) && end' <= |n|
    requires Resizes(m, bs, n, cs, i, size, kept) && Min(bs[i].requested, size) <= kept
    ensures bs[i].Payload() in View(m, bs, start, end)
    ensures Resized(View(m, bs, start, end), View(n, cs, start, end'), bs[i].Payload(), bs[i].Payload(), size)
  {
    hide Tiles, FitsBut, View, Changed, Aligned, Resized, SamePrefix;
    BlockInView(m, bs, start, end, i);
    BlockInView(n, cs, start, end', i);
    ChangedApart(m, bs, start, end, n, cs, start, end', bs[i].Payload());
    SamePieces(m, n, bs[i].Payload(), bs[i].requested, size, kept);
    ResizedFrom(View(m, bs, start, end), View(n, cs, start, end'), bs[i].Payload(), size);
  }

  lemma FreshKeeps(v: map<nat, seq<byte>>, w: map<nat, seq<byte>>, fresh': nat, size: nat, ptr: nat)
    requires ptr in v && Fresh(v, w, fresh', size)
    ensures ptr in w && w[ptr] == v[ptr]
    ensures fresh' == 0 ==> w == v
    ensures fresh' != 0 ==> fresh' in w && |w[fresh']| == size && fresh' != ptr
  {
    if fresh' != 0 {
      assert (w - {fresh'})[ptr] == v[ptr];
    }
  }

  lemma MovedView(v: map<nat, seq<byte>>, w: map<nat, seq<byte>>, x: map<nat, seq<byte>>, y: map<nat, seq<byte>>,
                  ptr: nat, result: nat, size: nat, bytes: seq<byte>)
    requires ptr in v && result != 0 && Fresh(v, w, result, size) && result in w
    requires bytes == v[ptr][..Min(|v[ptr]|, size)]
    requires |bytes| <= |w[result]| && x == w[result := w[result][..0] + bytes + w[result][0 + |bytes|..]] && y == x - {ptr}
    ensures Resized(v, y, ptr, result, size)
  {
    hide Aligned;
    assert y - {result} == v - {ptr} by {
      assert x - {result} == w - {result};
    }
    assert y[result] == bytes + w[result][|bytes|..];
  }

  lemma NoneFresh(v: map<nat, seq<byte>>, size: nat)
    ensures Fresh(v, v, 0, size)
  {
  }

  class Heap {
    var mem: Memory
    var blockHead: nat
    var blockTail: nat
    var heapEnd: nat
    var heapInitialized: bool
    var errno: nat
    var brk: nat                 // the kernel's program break
    ghost var refusals: nat      // how often the kernel refused to move it
    ghost var blocks: seq<Block>
    ghost var heapStart: nat
    ghost var tiled: nat         // where the last block ends

    /** The pointers and headers describe `blocks`. */
    ghost predicate Consistent()
      reads this
    {
      && brk <= |mem| <= WORD_LIMIT
      && if heapInitialized then Rep(mem, blockHead, blockTail, blocks, heapStart, tiled)
         else blocks == [] && blockHead == blockTail == 0
    }

    ghost predicate Valid()
      reads this
    {
      && Consistent()
      && FitsBut(blocks, 0) && Coalesced(blocks)
      && (heapInitialized ==> tiled == heapEnd == brk)
    }

    /** The live allocations and their contents. */
    ghost function Contents(): map<nat, seq<byte>>
      requires Valid()
      reads this
    {
      if heapInitialized then View(mem, blocks, heapStart, tiled) else map[]
    }

    constructor (memory: Memory, initialBreak: nat)
      requires initialBreak <= |memory| <= WORD_LIMIT
      ensures Valid() && Contents() == map[] && mem == memory
    {
      mem, brk, errno := memory, initialBreak, 0;
      blockHead, blockTail, heapEnd, heapInitialized := 0, 0, 0, false;
      blocks, heapStart, tiled, refusals := [], 0, 0, 0;
    }

    // ----- The kernel

    /** The raw system call returns the resulting break, and may refuse at any time. */
    method SysBrk(target: nat) returns (result: nat)
      requires brk <= |mem|
      modifies this`brk, this`refusals
      ensures result == brk <= |mem|
      ensures brk == old(brk) || (brk == target && target != 0)
      ensures refusals == old(refusals) + if target != 0 && result != target then 1 else 0
    {
      if * {
        if target != 0 && target <= |mem| {
          brk := target;
        }
      }
      result := brk;
      if target != 0 && result != target {
        refusals := refusals + 1;
      }
    }

    /** Ask for `growth` more bytes behind the heap end. */
    method ExtendBreak(growth: nat) returns (granted: bool)
      requires brk <= |mem| && 0 < growth
      modifies this`brk, this`heapEnd, this`refusals
      ensures granted ==> heapEnd == brk == old(heapEnd) + growth <= |mem| && refusals == old(refusals)
      ensures !granted ==> heapEnd == old(heapEnd) && brk == old(brk) && old(refusals) <= refusals
      ensures !granted ==> old(refusals) < refusals || SIZE_MAX < heapEnd + growth
    {
      if growth > SIZE_MAX || heapEnd > SIZE_MAX - growth {
        return false;
      }
      var target := heapEnd + growth;
      var result := SysBrk(target);
      granted := result == target;
      if granted {
        heapEnd := target;
      }
    }

    method InitializeHeap() returns (ok: bool)
      requires Valid()
      modifies this`brk, this`heapEnd, this`heapInitialized, this`heapStart, this`tiled, this`refusals
      ensures Valid() && ok == heapInitialized && old(refusals) <= refusals
      ensures if ok then refusals == old(refusals) && brk == (if old(heapInitialized) then old(brk) else AlignUp(old(brk)))
              else Denied(old(refusals), refusals, false, old(brk), 0)
      ensures old(heapInitialized) ==> heapInitialized && tiled == old(tiled) && heapStart == old(heapStart)
    {
      if heapInitialized {
        return true;
      }
      var current := SysBrk(0);
      if current == 0 || current >= WORD_LIMIT / 2 {
        return false;
      }
      if current > SIZE_MAX - (ALIGNMENT - 1) {
        return false;
      }
      var aligned := AlignUp(current);
      if aligned != current {
        var result := SysBrk(aligned);
        if result != aligned {
          return false;
        }
      }
      heapEnd := aligned;
      heapInitialized := true;
      heapStart, tiled := aligned, aligned;
      return true;
    }

    // ----- Header fields

    /** `block->requested_size = size`. */
    method SetRequested(block: nat, size: Word, ghost i: nat)
      requires Consistent() && heapInitialized && i < |blocks| && blocks[i].addr == block
      requires FitsBut(blocks, block + HEADER)
      modifies this`mem, this`blocks
      ensures Consistent() && blocks == old(blocks)[i := old(blocks)[i].(requested := size)]
      ensures SameOutside(old(mem), mem, block, block + HEADER)
      ensures Changed(old(mem), old(blocks), mem, blocks, block + HEADER)
      ensures Fits(blocks[i]) ==> FitsBut(blocks, 0)
    {
      assert HeaderAt(mem, blocks, i);
      ghost var b := blocks[i].(requested := size);
      RequestedStore(mem, blocks[i], NextAddr(blocks, i, 0), size);
      HeaderLinked(mem, Store(mem, block + REQUESTED, size), blocks, heapStart, tiled, i, b);
      FieldChanged(mem, Store(mem, block + REQUESTED, size), blocks, heapStart, tiled, i, b);
      hide Linked, FitsBut, Changed, SameOutside, Store;
      mem := Store(mem, block + REQUESTED, size);
      blocks := blocks[i := b];
    }

    /** `block->is_free = free`. */
    method SetFree(block: nat, free: bool, ghost i: nat)
      requires Consistent() && heapInitialized && i < |blocks| && blocks[i].addr == block
      requires FitsBut(blocks, block + HEADER)
      modifies this`mem, this`blocks
      ensures Consistent() && blocks == old(blocks)[i := old(blocks)[i].(free := free)]
      ensures SameOutside(old(mem), mem, block, block + HEADER)
      ensures Changed(old(mem), old(blocks), mem, blocks, block + HEADER)
      ensures Fits(blocks[i]) ==> FitsBut(blocks, 0)
    {
      assert HeaderAt(mem, blocks, i);
      ghost var b := blocks[i].(free := free);
      FreeStore(mem, blocks[i], NextAddr(blocks, i, 0), free);
      HeaderLinked(mem, Store(mem, block + FREE, FreeWord(free)), blocks, heapStart, tiled, i, b);
      FieldChanged(mem, Store(mem, block + FREE, FreeWord(free)), blocks, heapStart, tiled, i, b);
      hide Linked, FitsBut, Changed, SameOutside, Store;
      mem := Store(mem, block + FREE, FreeWord(free));
      blocks := blocks[i := b];
    }

    // ----- Block list operations

    /** Cut `block` to `size` when a header and one unit of payload are left over. */
    method SplitBlock(block: nat, size: nat, ghost i: nat, ghost p: nat) returns (split: nat)
      requires Consistent() && heapInitialized && i < |blocks| && blocks[i].addr == block
      requires 0 < size <= blocks[i].size && Aligned(size)
      requires FitsBut(blocks, p) && (blocks[i].free || blocks[i].Payload() == p)
      modifies this`mem, this`blocks, this`blockTail
      ensures Consistent() && Changed(old(mem), old(blocks), mem, blocks, p)
      ensures SamePrefix(old(mem), mem, block + HEADER, size)
      ensures split != 0 <==> size + HEADER + ALIGNMENT <= old(blocks)[i].size
      ensures split == 0 ==> blocks == old(blocks)
      ensures split != 0 ==> split == block + HEADER + size && blocks == SplitBlocks(old(blocks), i, size)
    {
      ReadHeader(mem, blocks, heapStart, tiled, i);
      var remaining, next := Load(mem, block) - size, Load(mem, block + NEXT);
      assert remaining == blocks[i].size - size && next == NextAddr(blocks, i, 0);
      hide Linked, FitsBut, Changed, Aligned, Load, HeaderHolds, Store, SplitBlocks;
      if remaining < HEADER + ALIGNMENT {
        ChangedSame(mem, blocks, heapStart, tiled, p);
        return 0;
      }
      split := Cut(block, size, remaining, next, i, p);
    }

    /** The cut itself. */
    method Cut(block: nat, size: nat, remaining: nat, next: nat, ghost i: nat, ghost p: nat) returns (split: nat)
      requires Consistent() && heapInitialized && i < |blocks| && blocks[i].addr == block && 0 < size && Aligned(size)
      requires FitsBut(blocks, p) && (blocks[i].free || blocks[i].Payload() == p)
      requires remaining == blocks[i].size - size && next == NextAddr(blocks, i, 0) && HEADER + ALIGNMENT <= remaining
      modifies this`mem, this`blocks, this`blockTail
      ensures Consistent() && Changed(old(mem), old(blocks), mem, blocks, p)
      ensures SamePrefix(old(mem), mem, block + HEADER, size)
      ensures split == block + HEADER + size && blocks == SplitBlocks(old(blocks), i, size)
    {
      hide Linked, FitsBut, Changed, Aligned, Store, SplitBlocks;
      SplitStep(mem, blockHead, blockTail, blocks, heapStart, tiled, i, size, p);
      hide Rep, SplitMemory, SamePrefix, NextAddr;
      split := block + HEADER + size;
      WriteSplit(block, size, split, remaining, next, blocks[i]);
      if blockTail == block {
        blockTail := split;
      }
      blocks := SplitBlocks(blocks, i, size);
    }

    /** The six stores of a split. */
    method WriteSplit(block: nat, size: nat, split: nat, remaining: nat, next: nat, ghost b: Block)
      requires b.addr == block && b.End() <= |mem| && b.size == size + remaining && HEADER <= remaining
      requires split == block + HEADER + size
      modifies this`mem
      ensures mem == SplitMemory(old(mem), b, next, size)
    {
      hide Store;
      mem := Store(mem, split, remaining - HEADER);
      mem := Store(mem, split + NEXT, next);
      mem := Store(mem, split + FREE, 1);
      mem := Store(mem, split + REQUESTED, 0);
      mem := Store(mem, block, size);
      mem := Store(mem, block + NEXT, split);
    }

    /** Take over the right neighbour when it is free. */
    method MergeWithNext(block: nat, ghost i: nat, ghost p: nat)
      requires Consistent() && heapInitialized && i < |blocks| && blocks[i].addr == block
      requires FitsBut(blocks, p) && (blocks[i].free || blocks[i].Payload() == p)
      modifies this`mem, this`blocks, this`blockTail
      ensures Consistent() && Changed(old(mem), old(blocks), mem, blocks, p)
      ensures SameOutside(old(mem), mem, block, block + HEADER)
      ensures blocks == if i + 1 < |old(blocks)| && old(blocks)[i + 1].free then MergeBlocks(old(blocks), i) else old(blocks)
    {
      hide Linked, FitsBut, Changed, Aligned, MergeBlocks, SameOutside, NextAddr;
      MergeGuard(mem, blocks, heapStart, tiled, i);
      var next := Load(mem, block + NEXT);
      if next == 0 || Load(mem, next + FREE) == 0 || block + HEADER + Load(mem, block) != next {
        ChangedSame(mem, blocks, heapStart, tiled, p);
        return;
      }
      MergeStep(mem, blockHead, blockTail, blocks, heapStart, tiled, i, p);
      hide Load, HeaderHolds, Rep, PutSizeNext;
      WriteMerge(block, next, blocks[i], blocks[i + 1], NextAddr(blocks, i + 1, 0));
      if blockTail == next {
        blockTail := block;
      }
      blocks := MergeBlocks(blocks, i);
    }

    /** The two stores of a merge. */
    method WriteMerge(block: nat, next: nat, ghost b: Block, ghost c: Block, ghost link: nat)
      requires b.addr == block && c.addr == next && block + HEADER <= next
      requires b.addr + HEADER <= |mem| && Load(mem, block) == b.size && HeaderHolds(mem, c, link)
      modifies this`mem
      ensures mem == PutSizeNext(old(mem), block, b.size + HEADER + c.size, link)
    {
      hide Store, Load, HeaderHolds;
      HeaderWords(mem, c, link);
      NextSizeKept(mem, block, b.size + HEADER + c.size, next);
      mem := Store(mem, block, Load(mem, block) + HEADER + Load(mem, next));
      mem := Store(mem, block + NEXT, Load(mem, next + NEXT));
    }

    /** First fit, walking the links. */
    method FindFreeBlock(size: nat) returns (block: nat, ghost i: nat)
      requires Consistent()
      ensures i <= |blocks| && forall j :: 0 <= j < i ==> !(blocks[j].free && blocks[j].size >= size)
      ensures block == if i < |blocks| then blocks[i].addr else 0
      ensures i < |blocks| ==> block != 0 && blocks[i].free && blocks[i].size >= size
      ensures block == 0 <==> forall j :: 0 <= j < |blocks| ==> !(blocks[j].free && blocks[j].size >= size)
    {
      block, i := blockHead, 0;
      if block != 0 {
        assert blocks != [];
      }
      while block != 0
        invariant i <= |blocks| && block == if i < |blocks| then blocks[i].addr else 0
        invariant forall j :: 0 <= j < i ==> !(blocks[j].free && blocks[j].size >= size)
        decreases |blocks| - i
      {
        assert HeaderAt(mem, blocks, i);
        if Load(mem, block + FREE) != 0 && Load(mem, block) >= size {
          return;
        }
        block, i := Load(mem, block + NEXT), i + 1;
      }
      if i < |blocks| {
        TailIndex(blocks, heapStart, tiled, i);
      }
    }

    /** A new block in use at the end of the heap, if the kernel grants the room. */
    method GrowHeap(size: nat) returns (block: nat)
      requires Valid() && 0 < size && Aligned(size)
      modifies this`mem, this`blocks, this`blockHead, this`blockTail
      modifies this`brk, this`heapEnd, this`heapInitialized, this`heapStart, this`tiled, this`refusals
      ensures block == 0 ==> Valid() && mem == old(mem) && blocks == old(blocks)
      ensures block == 0 ==> Denied(old(refusals), refusals, old(heapInitialized), old(brk), HEADER + size)
      ensures old(refusals) <= refusals
      ensures block != 0 ==> Consistent() && heapInitialized && tiled == heapEnd == brk
      ensures block != 0 ==> blocks == old(blocks) + [Block(block, size, false, 0)]
      ensures block != 0 ==> Changed(old(mem), old(blocks), mem, blocks, block + HEADER)
      ensures old(heapInitialized) ==> heapInitialized && heapStart == old(heapStart)
      ensures old(heapInitialized) ==> if block == 0 then tiled == old(tiled) else block == old(tiled)
    {
      hide Linked, Coalesced, Aligned, FitsBut, Changed;
      var ok := InitializeHeap();
      if !ok {
        return 0;
      }
      if size > SIZE_MAX - HEADER {
        return 0;
      }
      block := heapEnd;
      var granted := ExtendBreak(HEADER + size);
      if !granted {
        return 0;
      }
      AppendBlock(block, size);
    }

    /** The granted room becomes the last block. */
    method AppendBlock(block: nat, size: nat)
      requires Consistent() && heapInitialized && FitsBut(blocks, 0) && 0 < size && Aligned(size)
      requires block == tiled && heapEnd == brk == block + HEADER + size
      modifies this`mem, this`blocks, this`blockHead, this`blockTail, this`tiled
      ensures Consistent() && tiled == heapEnd && block != 0
      ensures blocks == old(blocks) + [Block(block, size, false, 0)]
      ensures Changed(old(mem), old(blocks), mem, blocks, block + HEADER)
    {
      ghost var added := Block(block, size, false, 0);
      hide Linked, Tiles, Stored, Live, Aligned, FitsBut, Changed, Rep, AppendMemory, HeadAddr;
      AppendStep(mem, blockHead, blockTail, blocks, heapStart, tiled, added);
      WriteBlock(block, size, blocks);
      TakeLast(block, added);
    }

    /** The pointers move on to the new block. */
    method TakeLast(block: nat, ghost added: Block)
      requires heapInitialized && heapEnd == brk <= |mem| <= WORD_LIMIT
      requires Rep(mem, if blockTail == 0 then block else blockHead, block, blocks + [added], heapStart, heapEnd)
      modifies this`blocks, this`blockHead, this`blockTail, this`tiled
      ensures Consistent() && tiled == heapEnd && blocks == old(blocks) + [added]
    {
      hide Rep;
      if blockTail == 0 {
        blockHead := block;
      }
      blockTail := block;
      blocks, tiled := blocks + [added], heapEnd;
    }

    /** The stores that write the new block and link it behind the last one. */
    method WriteBlock(block: nat, size: nat, ghost bs: seq<Block>)
      requires block + HEADER + size <= |mem| && blockTail == TailAddr(bs) && (bs != [] <==> blockTail != 0)
      requires bs != [] ==> blockTail + HEADER <= |mem|
      modifies this`mem
      ensures mem == AppendMemory(old(mem), bs, Block(block, size, false, 0))
    {
      hide Store;
      mem := Store(mem, block, size);
      mem := Store(mem, block + NEXT, 0);
      mem := Store(mem, block + FREE, 0);
      mem := Store(mem, block + REQUESTED, 0);
      if blockTail != 0 {
        mem := Store(mem, blockTail + NEXT, block);
      }
    }

    // ----- malloc

    /** What is left of block i when it is cut, or not worth cutting, to `aligned`. */
    lemma Snugly(i: nat, size: nat, aligned: nat)
      requires Consistent() && heapInitialized && i < |blocks| && Aligned(aligned)
      requires aligned < size + ALIGNMENT && blocks[i].size < aligned + HEADER + ALIGNMENT
      ensures blocks[i].size < size + HEADER + ALIGNMENT
    {
      assert Placed(blocks, i, tiled);
      Snug(blocks[i].size, size, aligned);
    }

    /** Take a free block: cut it, mark it used. */
    method Reuse(block: nat, aligned: nat, size: Word, ghost i: nat)
      requires Valid() && heapInitialized && i < |blocks| && blocks[i].addr == block && blocks[i].free
      requires 0 < size <= aligned < size + ALIGNMENT && aligned <= blocks[i].size && Aligned(aligned)
      modifies this`mem, this`blocks, this`blockTail
      ensures Valid() && Changed(old(mem), old(blocks), mem, blocks, block + HEADER)
      ensures i < |blocks| && blocks[i].addr == block && !blocks[i].free && blocks[i].requested == size
    {
      ghost var ptr, m0, b0 := block + HEADER, mem, blocks;
      hide Rep, FitsBut, Changed, Aligned, Coalesced, SamePrefix, SameOutside;
      var _ := SplitBlock(block, aligned, i, 0);
      ghost var m1, b1 := mem, blocks;
      assert aligned <= b1[i].size < aligned + HEADER + ALIGNMENT && b1[i].addr == block;
      Snugly(i, size, aligned);
      ChangedWider(m0, b0, m1, b1, ptr);
      FitsFrom(m0, b0, m1, b1, ptr);
      SetFree(block, false, i);
      ghost var m2, b2 := mem, blocks;
      ChangedAgain(m0, b0, m1, b1, m2, b2, ptr);
      FitsFrom(m0, b0, m2, b2, ptr);
      SetRequested(block, size, i);
      ChangedAgain(m0, b0, m2, b2, mem, blocks, ptr);
      ReuseCoalesced(b0, b1, i, blocks[i]);
      assert blocks == b1[i := blocks[i]];
    }

    /** A new block at the end, marked used. */
    method Grow(aligned: nat, size: Word) returns (block: nat, ghost i: nat)
      requires Valid() && 0 < size <= aligned < size + ALIGNMENT && Aligned(aligned)
      modifies this
      ensures Valid() && errno == old(errno) && old(refusals) <= refusals
      ensures block == 0 ==> mem == old(mem) && blocks == old(blocks)
      ensures block == 0 ==> Denied(old(refusals), refusals, old(heapInitialized), old(brk), HEADER + aligned)
      ensures block != 0 ==> heapInitialized && Changed(old(mem), old(blocks), mem, blocks, block + HEADER)
      ensures block != 0 ==> i < |blocks| && blocks[i].addr == block && !blocks[i].free && blocks[i].requested == size
      ensures old(heapInitialized) ==> heapInitialized && heapStart == old(heapStart)
      ensures old(heapInitialized) ==> if block == 0 then tiled == old(tiled) else block == old(tiled)
    {
      ghost var m0, b0 := mem, blocks;
      hide Rep, FitsBut, Changed, Aligned, Coalesced, SameOutside;
      block := GrowHeap(aligned);
      i := |b0|;
      if block != 0 {
        ghost var m1, b1 := mem, blocks;
        FitsFrom(m0, b0, m1, b1, block + HEADER);
        SetRequested(block, size, i);
        ChangedAgain(m0, b0, m1, b1, mem, blocks, block + HEADER);
        AppendCoalesced(b0, blocks[i]);
        assert blocks == b0 + [blocks[i]];
      }
    }

    /** A free block if one fits, else a new one. */
    method Obtain(aligned: nat, size: Word) returns (block: nat, ghost i: nat)
      requires Valid() && 0 < size <= aligned < size + ALIGNMENT && Aligned(aligned)
      modifies this
      ensures Valid() && errno == old(errno) && old(refusals) <= refusals
      ensures block == 0 ==> mem == old(mem) && blocks == old(blocks)
      ensures block == 0 ==> Shortage(old(blocks), old(refusals), refusals, old(heapInitialized), old(brk), aligned)
      ensures block == 0 && old(heapInitialized) ==> heapInitialized && heapStart == old(heapStart) && tiled == old(tiled)
      ensures block != 0 ==> heapInitialized && Changed(old(mem), old(blocks), mem, blocks, block + HEADER)
      ensures block != 0 ==> i < |blocks| && blocks[i].addr == block && !blocks[i].free && blocks[i].requested == size
      ensures block != 0 ==> block + HEADER !in old(Contents())
      ensures HasFit(old(blocks), aligned) ==> brk == old(brk) && FirstFit(old(blocks), aligned, block + HEADER)
      ensures block != 0 && !HasFit(old(blocks), aligned) && old(heapInitialized) ==> block == old(tiled)
    {
      hide View, Live, Coalesced, FitsBut, Changed, Aligned, Tiles, Stored;
      block, i := FindFreeBlock(aligned);
      if block != 0 {
        FreeNotInView(mem, blocks, heapStart, tiled, i);
        Reuse(block, aligned, size, i);
      } else {
        if heapInitialized {
          EndNotInView(mem, blocks, heapStart, tiled);
        }
        block, i := Grow(aligned, size);
      }
    }

    /** The allocation proper, lifted to the view. */
    method Allocate(size: Word) returns (ptr: nat)
      requires Valid() && 0 < size && size + ALIGNMENT - 1 <= SIZE_MAX
      modifies this
      ensures Valid() && errno == old(errno) && old(refusals) <= refusals
      ensures Fresh(old(Contents()), Contents(), ptr, size)
      ensures ptr == 0 ==> Shortage(old(blocks), old(refusals), refusals, old(heapInitialized), old(brk), AlignUp(size))
      ensures HasFit(old(blocks), AlignUp(size)) ==> brk == old(brk) && FirstFit(old(blocks), AlignUp(size), ptr)
    {
      hide HasFit, FirstFit, Live, Changed, KeepsLive, FitsBut, Coalesced, View, Tiles, Stored, Aligned;
      ghost var was, m0, b0, s0, e0 := heapInitialized, mem, blocks, heapStart, tiled;
      var block, i := Obtain(AlignUp(size), size);
      ptr := if block == 0 then 0 else block + HEADER;
      if block != 0 {
        BlockInView(mem, blocks, heapStart, tiled, i);
        ApartFromChange(was, m0, b0, s0, e0, ptr);
      } else if !was && heapInitialized {
        EmptyView(mem, heapStart, tiled);
      }
    }

    method Malloc(size: Word) returns (ptr: nat)
      requires Valid()
      modifies this
      ensures Valid()
      ensures size == 0 ==> ptr == 0
      ensures Fresh(old(Contents()), Contents(), ptr, size)
      ensures errno == if ptr == 0 && size != 0 then ENOMEM else old(errno)
      ensures ptr == 0 && 0 < size <= SIZE_MAX - (ALIGNMENT - 1) ==>
        Shortage(old(blocks), old(refusals), refusals, old(heapInitialized), old(brk), AlignUp(size))
      ensures 0 < size <= SIZE_MAX - (ALIGNMENT - 1) && HasFit(old(blocks), AlignUp(size)) ==>
        brk == old(brk) && FirstFit(old(blocks), AlignUp(size), ptr)
      ensures old(refusals) <= refusals
    {
      hide Fresh, Contents, FitsBut, Coalesced, Shortage, HasFit, FirstFit;
      NoneFresh(Contents(), size);
      if size == 0 {
        return 0;
      }
      if size > SIZE_MAX - (ALIGNMENT - 1) {
        ptr := 0;
      } else {
        ptr := Allocate(size);
      }
      if ptr == 0 {
        SetErrno(ENOMEM);
      }
    }

    method SetErrno(error: nat)
      requires Valid()
      modifies this`errno
      ensures Valid() && errno == error && Contents() == old(Contents())
    {
      errno := error;
    }

    /** `Changed` at `ptr` read off as a statement about the two views. */
    lemma ApartFromChange(was: bool, m: Memory, bs: seq<Block>, start: nat, end: nat, ptr: nat)
      requires Valid() && heapInitialized && Changed(m, bs, mem, blocks, ptr)
      requires if was then Tiles(bs, start, end) && FitsBut(bs, 0) && end <= |m| else bs == []
      ensures Contents() - {ptr} == (if was then View(m, bs, start, end) else map[]) - {ptr}
    {
      if was {
        ViewApart(m, bs, start, end, mem, blocks, heapStart, tiled, ptr);
      } else {
        FirstView(m, mem, blocks, heapStart, tiled, ptr);
      }
    }

    // ----- free

    /** Walk the links to the block before `block`; 0 if it is the first. */
    method FindPrevious(block: nat, ghost i: nat) returns (previous: nat)
      requires Consistent() && heapInitialized && i < |blocks| && blocks[i].addr == block
      ensures previous == if i == 0 then 0 else blocks[i - 1].addr
      ensures previous != 0 <==> 0 < i
    {
      previous := 0;
      var cursor := blockHead;
      ghost var j := 0;
      while cursor != 0 && cursor != block
        invariant j <= i && cursor == blocks[j].addr
        invariant previous == (if j == 0 then 0 else blocks[j - 1].addr) && (previous != 0 <==> 0 < j)
        decreases |blocks| - j
      {
        ReadHeader(mem, blocks, heapStart, tiled, j);
        previous := cursor;
        cursor, j := Load(mem, cursor + NEXT), j + 1;
      }
      if j < i {
        ReadHeader(mem, blocks, heapStart, tiled, j);
        BlocksApart(blocks, heapStart, tiled, i, j);
      }
    }

    /** Mark block i free, then coalesce to the right and to the left. */
    method Release(block: nat, ghost i: nat)
      requires Valid() && heapInitialized && i < |blocks| && blocks[i].addr == block && !blocks[i].free
      modifies this`mem, this`blocks, this`blockTail
      ensures Valid() && Changed(old(mem), old(blocks), mem, blocks, block + HEADER)
      ensures forall x :: x in Live(blocks) ==> x.0 != block + HEADER
    {
      ghost var ptr, m0, b0 := block + HEADER, mem, blocks;
      hide Tiles, Stored, Changed, Aligned, Coalesced, SameOutside, CoalescedBut, Live;
      FitsBut0(b0, ptr);
      hide FitsBut;
      FreedCoalesced(b0, i);
      SetFree(block, true, i);
      ghost var m1, b1 := mem, blocks;
      NotLiveAfter(b1, heapStart, tiled, i);
      MergeWithNext(block, i, 0);
      ghost var m2, b2 := mem, blocks;
      ChangedWider(m1, b1, m2, b2, ptr);
      ChangedAgain(m0, b0, m1, b1, m2, b2, ptr);
      StaysDead(m1, b1, m2, b2, ptr);
      MergePrevious(block, i);
      ChangedWider(m2, b2, mem, blocks, ptr);
      ChangedAgain(m0, b0, m2, b2, mem, blocks, ptr);
      StaysDead(m2, b2, mem, blocks, ptr);
    }

    /** The left half of coalescing: the previous block takes over `block` when it is free. */
    method MergePrevious(block: nat, ghost i: nat)
      requires Consistent() && heapInitialized && i < |blocks| && blocks[i].addr == block && blocks[i].free
      requires FitsBut(blocks, 0) && CoalescedBut(blocks, i - 1) && tiled == heapEnd == brk
      modifies this`mem, this`blocks, this`blockTail
      ensures Valid() && Changed(old(mem), old(blocks), mem, blocks, 0)
    {
      hide Linked, FitsBut, Changed, Aligned, Coalesced, SameOutside, CoalescedBut, MergeBlocks, HeaderHolds;
      LeftCoalesced(blocks, i);
      var previous := FindPrevious(block, i);
      if previous != 0 {
        MergeGuard(mem, blocks, heapStart, tiled, i - 1);
        ReadFree(mem, blocks, heapStart, tiled, i - 1);
        if Load(mem, previous + FREE) != 0 && previous + HEADER + Load(mem, previous) == block {
          MergeWithNext(previous, i - 1, 0);
          FitsFrom(old(mem), old(blocks), mem, blocks, 0);
          return;
        }
      }
      ChangedSame(mem, blocks, heapStart, tiled, 0);
    }

    method Free(ptr: nat)
      requires Valid() && (ptr == 0 || ptr in Contents())
      modifies this`mem, this`blocks, this`blockTail
      ensures Valid() && Contents() == old(Contents()) - {ptr}
    {
      hide Live, Changed, FitsBut, Coalesced, View, Tiles, Stored;
      if ptr == 0 {
        if heapInitialized {
          NullNotInView(mem, blocks, heapStart, tiled);
        }
        return;
      }
      ghost var i := ViewIndex(mem, blocks, heapStart, tiled, ptr);
      ghost var m0, b0 := mem, blocks;
      Release(ptr - HEADER, i);
      FreedView(m0, b0, heapStart, tiled, mem, blocks, heapStart, tiled, ptr);
    }

    // ----- realloc

    /** Cut the block in use at i to `aligned`, merge what was cut off, record the request. */
    method Trim(block: nat, aligned: nat, size: Word, ghost i: nat)
      requires Consistent() && heapInitialized && Coalesced(blocks) && FitsBut(blocks, block + HEADER)
      requires i < |blocks| && blocks[i].addr == block && !blocks[i].free
      requires 0 < size <= aligned < size + ALIGNMENT && aligned <= blocks[i].size && Aligned(aligned)
      modifies this`mem, this`blocks, this`blockTail
      ensures Consistent() && Coalesced(blocks) && FitsBut(blocks, 0)
      ensures Resizes(old(mem), old(blocks), mem, blocks, i, size, aligned)
    {
      ghost var ptr, m0, b0 := block + HEADER, mem, blocks;
      hide Linked, FitsBut, Changed, Aligned, Coalesced, SameOutside, SamePrefix;
      if b0[i].size >= aligned + HEADER {
        TrimCoalesced(b0, i, aligned);
      }
      var split := SplitBlock(block, aligned, i, ptr);
      ghost var m1, b1 := mem, blocks;
      assert aligned <= b1[i].size < aligned + HEADER + ALIGNMENT && b1[i].addr == block && !b1[i].free;
      Snugly(i, size, aligned);
      FitsFrom(m0, b0, m1, b1, ptr);
      ghost var m2, b2 := m1, b1;
      if split != 0 {
        MergeWithNext(split, i + 1, ptr);
        m2, b2 := mem, blocks;
        ChangedAgain(m0, b0, m1, b1, m2, b2, ptr);
        PrefixKept(m0, m1, m2, ptr, aligned, split);
        FitsFrom(m0, b0, m2, b2, ptr);
        assert b2[i] == b1[i];
      }
      assert Coalesced(b2);
      SetRequested(block, size, i);
      FlagCoalesced(b2, i, blocks[i]);
      ChangedAgain(m0, b0, m2, b2, mem, blocks, ptr);
      PrefixKept(m0, m2, mem, ptr, aligned, block);
    }

    /** The next block is free and large enough together with this one. */
    method GrowIntoNext(block: nat, aligned: nat, size: Word, ghost i: nat)
      requires Valid() && heapInitialized && i + 1 < |blocks| && blocks[i].addr == block
      requires !blocks[i].free && blocks[i + 1].free && Aligned(aligned)
      requires 0 < size <= aligned < size + ALIGNMENT && blocks[i].size < aligned <= blocks[i].size + HEADER + blocks[i + 1].size
      modifies this`mem, this`blocks, this`blockTail
      ensures Valid() && Resizes(old(mem), old(blocks), mem, blocks, i, size, old(blocks)[i].size)
    {
      ghost var ptr, m0, b0 := block + HEADER, mem, blocks;
      Roomy(i);
      hide Linked, Changed, Aligned, Coalesced, SameOutside, SamePrefix;
      FitsBut0(b0, ptr);
      hide FitsBut;
      GrownCoalesced(b0, i);
      MergeWithNext(block, i, ptr);
      ghost var m1, b1 := mem, blocks;
      FitsFrom(m0, b0, m1, b1, ptr);
      PrefixSame(m0, ptr, b0[i].size);
      PrefixKept(m0, m0, m1, ptr, b0[i].size, block);
      Trim(block, aligned, size, i);
      ResizesAfter(m0, b0, m1, b1, mem, blocks, i, size, aligned, b0[i].size);
    }

    /** `block` is the last one and the heap end has already moved: only its size word changes. */
    method ExtendLast(block: nat, aligned: nat, size: Word, ghost i: nat)
      requires Consistent() && heapInitialized && Coalesced(blocks) && FitsBut(blocks, block + HEADER)
      requires i + 1 == |blocks| && blocks[i].addr == block && !blocks[i].free
      requires 0 < size <= aligned < size + ALIGNMENT && blocks[i].size <= aligned && Aligned(aligned)
      requires heapEnd == brk == block + HEADER + aligned
      modifies this`mem, this`blocks, this`tiled
      ensures Valid() && Resizes(old(mem), old(blocks), mem, blocks, i, size, old(blocks)[i].size)
    {
      hide Linked, FitsBut, Changed, Aligned, Coalesced, SameOutside, SamePrefix, Store;
      ghost var ptr, m0, b0 := block + HEADER, mem, blocks;
      Roomy(i);
      ExtendStep(mem, blockHead, blockTail, blocks, heapStart, tiled, aligned);
      ghost var last := blocks[i].(size := aligned);
      FlagCoalesced(b0, i, last);
      mem := Store(mem, block, aligned);
      blocks, tiled := blocks[i := last], heapEnd;
      ghost var m1, b1 := mem, blocks;
      FitsFrom(m0, b0, m1, b1, ptr);
      PrefixSame(m0, ptr, b0[i].size);
      PrefixKept(m0, m0, m1, ptr, b0[i].size, block);
      SetRequested(block, size, i);
      FlagCoalesced(b1, i, blocks[i]);
      ChangedAgain(m0, b0, m1, b1, mem, blocks, ptr);
      PrefixKept(m0, m1, mem, ptr, b0[i].size, block);
    }

    /** The last block is free and too small: grow the heap by the difference, then take it over. */
    method GrowThroughLast(block: nat, aligned: nat, size: Word, ghost i: nat) returns (ok: bool)
      requires Valid() && heapInitialized && i + 2 == |blocks| && blocks[i].addr == block
      requires !blocks[i].free && blocks[i + 1].free && Aligned(aligned)
      requires 0 < size <= aligned < size + ALIGNMENT && blocks[i].size + HEADER + blocks[i + 1].size < aligned
      modifies this`mem, this`blocks, this`blockTail, this`brk, this`heapEnd, this`tiled, this`refusals
      ensures Valid() && old(refusals) <= refusals
      ensures if ok then Resizes(old(mem), old(blocks), mem, blocks, i, size, old(blocks)[i].size)
              else mem == old(mem) && blocks == old(blocks) && tiled == old(tiled)
      ensures !ok ==> Stuck(old(blocks), i, old(refusals), refusals, old(brk), aligned)
    {
      ghost var ptr, m0, b0 := block + HEADER, mem, blocks;
      Roomy(i);
      LastRoom(i + 1);
      hide Linked, Changed, Aligned, Coalesced, SameOutside, SamePrefix;
      MergeGuard(mem, blocks, heapStart, tiled, i);
      var next := Load(mem, block + NEXT);
      var combined := Load(mem, block) + HEADER + Load(mem, next);
      ok := ExtendBreak(aligned - combined);
      if ok {
        FitsBut0(b0, ptr);
        hide FitsBut;
        GrownCoalesced(b0, i);
        MergeWithNext(block, i, ptr);
        ghost var m1, b1 := mem, blocks;
        FitsFrom(m0, b0, m1, b1, ptr);
        PrefixSame(m0, ptr, b0[i].size);
        PrefixKept(m0, m0, m1, ptr, b0[i].size, block);
        ExtendLast(block, aligned, size, i);
        ResizesAfter(m0, b0, m1, b1, mem, blocks, i, size, b1[i].size, b0[i].size);
      }
    }

    lemma Roomy(i: nat)
      requires Consistent() && heapInitialized && i < |blocks|
      ensures blocks[i].End() <= |mem|
    {
      Within(blocks, heapStart, tiled, i);
    }

    lemma LastRoom(i: nat)
      requires Consistent() && heapInitialized && 0 < i && i + 1 == |blocks|
      ensures blocks[i].End() == tiled && blocks[i - 1].End() == blocks[i].addr
    {
      assert Placed(blocks, i, tiled) && Placed(blocks, i - 1, tiled);
    }

    /** The four ways to resize without moving. */
    method ResizeInPlace(block: nat, aligned: nat, size: Word, ghost i: nat) returns (ok: bool)
      requires Valid() && heapInitialized && i < |blocks| && blocks[i].addr == block && !blocks[i].free
      requires 0 < size <= aligned < size + ALIGNMENT && Aligned(aligned)
      modifies this`mem, this`blocks, this`blockTail, this`brk, this`heapEnd, this`tiled, this`refusals
      ensures Valid() && old(refusals) <= refusals
      ensures if ok then Resizes(old(mem), old(blocks), mem, blocks, i, size, Min(old(blocks)[i].size, aligned))
              else mem == old(mem) && blocks == old(blocks) && tiled == old(tiled)
      ensures !ok ==> Stuck(old(blocks), i, old(refusals), refusals, old(brk), aligned)
    {
      hide Tiles, Stored, Coalesced, Changed, Aligned, SamePrefix, Stuck, HeaderHolds;
      MergeGuard(mem, blocks, heapStart, tiled, i);
      NeighbourGuard(i);
      if aligned <= Load(mem, block) {
        FitsBut0(blocks, block + HEADER);
        hide FitsBut;
        Trim(block, aligned, size, i);
        return true;
      }
      var next := Load(mem, block + NEXT);
      if next != 0 && Load(mem, next + FREE) != 0 && block + HEADER + Load(mem, block) == next
         && Load(mem, next) <= SIZE_MAX - HEADER && Load(mem, block) <= SIZE_MAX - HEADER - Load(mem, next)
      {
        if Load(mem, block) + HEADER + Load(mem, next) >= aligned {
          GrowIntoNext(block, aligned, size, i);
          return true;
        }
        if next == blockTail {
          ok := GrowThroughLast(block, aligned, size, i);
          return;
        }
      }
      ok := GrowTail(block, aligned, size, i);
    }

    /** What the header of the right neighbour says, and that the guards against overflow never stop a merge. */
    lemma NeighbourGuard(i: nat)
      requires Valid() && heapInitialized && i + 1 < |blocks| + 1
      ensures i + 1 < |blocks| ==>
        && blocks[i + 1].addr + HEADER <= |mem| && Load(mem, blocks[i + 1].addr) == blocks[i + 1].size
        && (Load(mem, blocks[i + 1].addr + FREE) != 0 <==> blocks[i + 1].free)
        && blocks[i].size + HEADER + blocks[i + 1].size <= SIZE_MAX && (blockTail == blocks[i + 1].addr <==> i + 2 == |blocks|)
    {
      if i + 1 < |blocks| {
        ReadHeader(mem, blocks, heapStart, tiled, i + 1);
        TailIndex(blocks, heapStart, tiled, i + 1);
        hide Stored, FitsBut, Coalesced, Aligned;
        Within(blocks, heapStart, tiled, i);
        Within(blocks, heapStart, tiled, i + 1);
        Neighbours(i);
      }
    }

    lemma Neighbours(i: nat)
      requires Consistent() && heapInitialized && i + 1 < |blocks|
      ensures blocks[i].End() == blocks[i + 1].addr
    {
      assert Placed(blocks, i, tiled);
    }

    /** `block` is the last one: grow the heap and give it the room. */
    method GrowTail(block: nat, aligned: nat, size: Word, ghost i: nat) returns (ok: bool)
      requires Valid() && heapInitialized && i < |blocks| && blocks[i].addr == block && !blocks[i].free
      requires 0 < size <= aligned < size + ALIGNMENT && blocks[i].size < aligned && Aligned(aligned) && !FitsInPlace(blocks, i, aligned)
      requires i + 2 == |blocks| ==> !blocks[i + 1].free
      modifies this`mem, this`blocks, this`brk, this`heapEnd, this`tiled, this`refusals
      ensures Valid() && old(refusals) <= refusals
      ensures if ok then Resizes(old(mem), old(blocks), mem, blocks, i, size, old(blocks)[i].size)
              else mem == old(mem) && blocks == old(blocks) && tiled == old(tiled)
      ensures !ok ==> Stuck(old(blocks), i, old(refusals), refusals, old(brk), aligned)
    {
      hide Tiles, Stored, Coalesced, Changed, Aligned, SamePrefix;
      if block != blockTail {
        return false;
      }
      TailIndex(blocks, heapStart, tiled, i);
      MergeGuard(mem, blocks, heapStart, tiled, i);
      EndOfLast(i);
      FitsBut0(blocks, block + HEADER);
      hide FitsBut;
      ok := ExtendBreak(aligned - Load(mem, block));
      if ok {
        ExtendLast(block, aligned, size, i);
      }
    }

    lemma EndOfLast(i: nat)
      requires Consistent() && heapInitialized && i + 1 == |blocks|
      ensures blocks[i].End() == tiled
    {
      assert Placed(blocks, i, tiled);
    }

    /** A write by the program into one of its live allocations, or by `memcpy` on its behalf. */
    method WriteBytes(ptr: nat, offset: nat, bytes: seq<byte>)
      requires Valid() && ptr in Contents() && offset + |bytes| <= |Contents()[ptr]|
      modifies this`mem
      ensures Valid()
      ensures var v := old(Contents());
        Contents() == v[ptr := v[ptr][..offset] + bytes + v[ptr][offset + |bytes|..]]
    {
      hide Tiles, Stored, Coalesced, FitsBut, View;
      ghost var i := ViewIndex(mem, blocks, heapStart, tiled, ptr);
      ghost var n := mem[..ptr + offset] + bytes + mem[ptr + offset + |bytes|..];
      WrittenView(mem, n, blocks, heapStart, tiled, i, offset, bytes);
      mem := mem[..ptr + offset] + bytes + mem[ptr + offset + |bytes|..];
    }

    /** The move path: allocate, copy, free. */
    method Move(ptr: nat, copySize: nat, size: Word) returns (replacement: nat)
      requires Valid() && ptr in Contents() && 0 < size
      requires copySize == Min(|Contents()[ptr]|, size)
      modifies this
      ensures Valid() && Resized(old(Contents()), Contents(), ptr, replacement, size)
      ensures errno == if replacement == 0 then ENOMEM else old(errno)
      ensures replacement != ptr && old(refusals) <= refusals
      ensures replacement == 0 && size <= SIZE_MAX - (ALIGNMENT - 1) ==>
        Shortage(old(blocks), old(refusals), refusals, old(heapInitialized), old(brk), AlignUp(size))
    {
      hide Valid, Contents, Fresh, Aligned, Shortage;
      NotNull(ptr);
      ghost var v := Contents();
      replacement := Malloc(size);
      ghost var v1 := Contents();
      FreshKeeps(v, v1, replacement, size, ptr);
      if replacement != 0 {
        var bytes := ReadBytes(ptr, copySize);
        WriteBytes(replacement, 0, bytes);
        ghost var v2 := Contents();
        Free(ptr);
        MovedView(v, v1, v2, Contents(), ptr, replacement, size, bytes);
      }
    }

    lemma NotNull(ptr: nat)
      requires Valid() && ptr in Contents()
      ensures 0 < ptr && heapInitialized
    {
      NullNotInView(mem, blocks, heapStart, tiled);
    }

    method ReadBytes(ptr: nat, count: nat) returns (bytes: seq<byte>)
      requires Valid() && ptr in Contents() && count <= |Contents()[ptr]|
      ensures bytes == Contents()[ptr][..count]
    {
      hide Tiles, Stored, Coalesced, FitsBut, View;
      ghost var i := ViewIndex(mem, blocks, heapStart, tiled, ptr);
      bytes := mem[ptr..ptr + count];
      SubSlice(mem, ptr, ptr + blocks[i].requested, 0, count);
    }

    method Realloc(ptr: nat, size: Word) returns (result: nat)
      requires Valid() && (ptr == 0 || ptr in Contents())
      modifies this
      ensures Valid()
      ensures ptr == 0 ==> Fresh(old(Contents()), Contents(), result, size)
      ensures ptr != 0 && size == 0 ==> result == 0 && Contents() == old(Contents()) - {ptr}
      ensures ptr != 0 && size != 0 ==> Resized(old(Contents()), Contents(), ptr, result, size)
      ensures errno == if result == 0 && size != 0 then ENOMEM else old(errno)
      ensures ptr != 0 && 0 < size <= |old(Contents())[ptr]| ==> result == ptr
      ensures ptr != 0 && 0 < size <= SIZE_MAX - (ALIGNMENT - 1) && result != ptr ==>
        StuckAt(old(blocks), ptr, old(refusals), refusals, old(brk), AlignUp(size))
      ensures 0 < size <= SIZE_MAX - (ALIGNMENT - 1) && result == 0 ==>
        Shortage(old(blocks), old(refusals), refusals, old(heapInitialized), old(brk), AlignUp(size))
    {
      InRange(ptr, size);
      hide Contents, Valid, Fresh, Resized, StuckAt, Shortage;
      if ptr == 0 {
        result := Malloc(size);
      } else if size == 0 {
        Free(ptr);
        result := 0;
      } else if size > SIZE_MAX - (ALIGNMENT - 1) {
        SetErrno(ENOMEM);
        result := 0;
        NotResized(Contents(), ptr, size);
      } else {
        result := Resize(ptr, size);
      }
    }

    /** The first critical section of realloc: in place if possible, or nothing but how much a move would copy. */
    method TryResize(ptr: nat, size: Word) returns (ok: bool, copySize: nat)
      requires Valid() && ptr in Contents() && 0 < size && size + ALIGNMENT - 1 <= SIZE_MAX
      modifies this`mem, this`blocks, this`blockTail, this`brk, this`heapEnd, this`tiled, this`refusals
      ensures Valid() && if ok then Resized(old(Contents()), Contents(), ptr, ptr, size)
                         else Contents() == old(Contents()) && copySize == Min(|Contents()[ptr]|, size)
      ensures 0 < ptr && old(refusals) <= refusals
      ensures !ok ==> blocks == old(blocks) && brk == old(brk) && StuckAt(blocks, ptr, old(refusals), refusals, brk, AlignUp(size))
      ensures size <= |old(Contents()[ptr])| ==> ok
    {
      hide Tiles, Stored, Coalesced, FitsBut, View, Changed, SamePrefix, Live, Aligned, Resized, Stuck, StuckAt;
      ghost var i := ViewIndex(mem, blocks, heapStart, tiled, ptr);
      ghost var m0, b0, e0 := mem, blocks, tiled;
      var aligned := AlignUp(size);
      ShrinkFits(i, size);
      ok := ResizeInPlace(ptr - HEADER, aligned, size, i);
      copySize := 0;
      if ok {
        ResizedViews(m0, b0, heapStart, e0, mem, blocks, tiled, i, size, Min(b0[i].size, aligned));
      } else {
        MergeGuard(mem, blocks, heapStart, tiled, i);
        HeaderRequested(mem, blocks, heapStart, tiled, i);
        copySize := Min(Load(mem, ptr - HEADER + REQUESTED), size);
        StuckHere(i, old(refusals), aligned);
      }
    }

    /** A request no larger than the last one fits the block. */
    lemma ShrinkFits(i: nat, size: nat)
      requires Consistent() && heapInitialized && i < |blocks| && !blocks[i].free && Fits(blocks[i])
      ensures size <= blocks[i].requested ==> forall was, now :: !Stuck(blocks, i, was, now, brk, AlignUp(size))
    {
      assert Placed(blocks, i, tiled);
      if size <= blocks[i].requested { AlignUpLeast(size, blocks[i].size); }
    }

    /** No other block has the same payload. */
    lemma StuckHere(i: nat, was: nat, size: nat)
      requires Consistent() && heapInitialized && i < |blocks| && Stuck(blocks, i, was, refusals, brk, size)
      ensures StuckAt(blocks, blocks[i].Payload(), was, refusals, brk, size)
    {
      hide Stuck, Aligned, Stored;
      forall j: nat | j < |blocks| && blocks[j].Payload() == blocks[i].Payload() ensures j == i {
        if j < i { Ordered(blocks, heapStart, tiled, j, i); }
        if i < j { Ordered(blocks, heapStart, tiled, i, j); }
      }
    }

    /** A size that an allocation has is one that a request may have. */
    lemma InRange(ptr: nat, size: nat)
      requires Valid()
      ensures ptr in Contents() && size <= |Contents()[ptr]| ==> size <= SIZE_MAX - (ALIGNMENT - 1)
    {
      if ptr in Contents() {
        var i := ViewIndex(mem, blocks, heapStart, tiled, ptr);
      }
    }

    /** In place if possible, else by moving. */
    method Resize(ptr: nat, size: Word) returns (result: nat)
      requires Valid() && ptr in Contents() && 0 < size && size + ALIGNMENT - 1 <= SIZE_MAX
      modifies this
      ensures Valid() && Resized(old(Contents()), Contents(), ptr, result, size)
      ensures errno == if result == 0 then ENOMEM else old(errno)
      ensures size <= |old(Contents()[ptr])| ==> result == ptr
      ensures result != ptr ==> StuckAt(old(blocks), ptr, old(refusals), refusals, old(brk), AlignUp(size))
      ensures result == 0 ==> Shortage(old(blocks), old(refusals), refusals, old(heapInitialized), old(brk), AlignUp(size))
    {
      hide Valid, Contents, Resized, StuckAt, Shortage;
      ghost var was := refusals;
      var ok, copySize := TryResize(ptr, size);
      if ok {
        result := ptr;
      } else {
        ghost var from, bs, at := refusals, blocks, brk;
        result := Move(ptr, copySize, size);
        DeniedLater(bs, ptr, was, from, refusals, old(heapInitialized), at, AlignUp(size));
      }
    }
  }
}
