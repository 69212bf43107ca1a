/** What the allocator's pointer stores do to the heap: each rewriting of header words takes a
    memory that represents one block list to a memory that represents the changed list, and
    leaves the bytes of other live allocations alone. */
module HeapImage {
  import opened ByteMemory
  import opened BlockList

  ghost predicate Linked(m: Memory, bs: seq<Block>, start: nat, end: nat) {
    |m| <= WORD_LIMIT && Tiles(bs, start, end) && end <= |m| && Stored(m, bs)
  }

  ghost predicate SameOutside(m: Memory, n: Memory, lo: nat, hi: nat) {
    lo <= hi <= |m| == |n| && m[..lo] == n[..lo] && m[hi..] == n[hi..]
  }

  /** Every live allocation except the one at `ptr` keeps its bytes. */
  ghost predicate KeepsLive(m: Memory, n: Memory, bs: seq<Block>, ptr: nat) {
    forall x :: x in Live(bs) && x.0 != ptr ==>
      x.0 + x.1 <= |m| && x.0 + x.1 <= |n| && m[x.0..x.0 + x.1] == n[x.0..x.0 + x.1]
  }

  lemma SliceOutside(m: Memory, n: Memory, lo: nat, hi: nat, from: nat, to: nat)
    requires SameOutside(m, n, lo, hi) && from <= to <= |m| && (to <= lo || hi <= from)
    ensures m[from..to] == n[from..to]
  {
    if to <= lo {
      SubSlice(m, 0, lo, from, to);
      SubSlice(n, 0, lo, from, to);
    } else {
      SubSlice(m, hi, |m|, from - hi, to - hi);
      SubSlice(n, hi, |n|, from - hi, to - hi);
    }
  }

  lemma StoreOutside(m: Memory, a: nat, v: nat, lo: nat, hi: nat)
    requires lo <= a && a + WORD_BYTES <= hi <= |m|
    ensures SameOutside(m, Store(m, a, v), lo, hi)
  {
    SliceAfterStore(m, a, v, 0, lo);
    SliceAfterStore(m, a, v, hi, |m|);
  }

  lemma WiderOutside(m: Memory, n: Memory, lo: nat, hi: nat, lo': nat, hi': nat)
    requires SameOutside(m, n, lo, hi) && lo' <= lo && hi <= hi' <= |m|
    ensures SameOutside(m, n, lo', hi')
  {
    SliceOutside(m, n, lo, hi, 0, lo');
    SliceOutside(m, n, lo, hi, hi', |m|);
  }

  // ----- One header

  lemma HeaderElsewhere(m: Memory, n: Memory, lo: nat, hi: nat, b: Block, next: nat)
    requires SameOutside(m, n, lo, hi) && HeaderHolds(m, b, next)
    requires b.addr + HEADER <= lo || hi <= b.addr
    ensures HeaderHolds(n, b, next)
  {
    SliceOutside(m, n, lo, hi, b.addr, b.addr + HEADER);
    HeaderFromSlice(m, n, b, next);
  }

  lemma OtherWord(m: Memory, a: nat, v: nat, c: nat)
    requires a + WORD_BYTES <= |m| && c + WORD_BYTES <= |m|
    requires c + WORD_BYTES <= a || a + WORD_BYTES <= c
    ensures Load(Store(m, a, v), c) == Load(m, c)
  {
    SliceAfterStore(m, a, v, c, c + WORD_BYTES);
  }

  /** Storing one header word changes that field and no other. */
  lemma FieldStore(m: Memory, a: nat, k: nat, v: nat)
    requires a + HEADER <= |m| && v < WORD_LIMIT && (k == 0 || k == NEXT || k == FREE || k == REQUESTED)
    ensures SameOutside(m, Store(m, a + k, v), a, a + HEADER)
    ensures Load(Store(m, a + k, v), a) == if k == 0 then v else Load(m, a)
    ensures Load(Store(m, a + k, v), a + NEXT) == if k == NEXT then v else Load(m, a + NEXT)
    ensures Load(Store(m, a + k, v), a + FREE) == if k == FREE then v else Load(m, a + FREE)
    ensures Load(Store(m, a + k, v), a + REQUESTED) == if k == REQUESTED then v else Load(m, a + REQUESTED)
  {
    hide Load, Store;
    StoreOutside(m, a + k, v, a, a + HEADER);
    LoadAfterStore(m, a + k, v);
    if k != 0 { OtherWord(m, a + k, v, a); }
    if k != NEXT { OtherWord(m, a + k, v, a + NEXT); }
    if k != FREE { OtherWord(m, a + k, v, a + FREE); }
    if k != REQUESTED { OtherWord(m, a + k, v, a + REQUESTED); }
  }

  /** The four stores that write a fresh header. */
  function PutHeader(m: Memory, b: Block, next: nat): (n: Memory)
    requires b.addr + HEADER <= |m|
    ensures |n| == |m|
  {
    Store(Store(Store(Store(m, b.addr, b.size), b.addr + NEXT, next), b.addr + FREE, FreeWord(b.free)), b.addr + REQUESTED, b.requested)
  }

  lemma PutHeaderHolds(m: Memory, b: Block, next: nat)
    requires b.addr + HEADER <= |m| && b.size < WORD_LIMIT && next < WORD_LIMIT && b.requested < WORD_LIMIT
    ensures HeaderHolds(PutHeader(m, b, next), b, next)
    ensures SameOutside(m, PutHeader(m, b, next), b.addr, b.addr + HEADER)
  {
    hide Load, Store;
    var m1 := Store(m, b.addr + 0, b.size);
    var m2 := Store(m1, b.addr + NEXT, next);
    var m3 := Store(m2, b.addr + FREE, FreeWord(b.free));
    FieldStore(m, b.addr, 0, b.size);
    FieldStore(m1, b.addr, NEXT, next);
    FieldStore(m2, b.addr, FREE, FreeWord(b.free));
    FieldStore(m3, b.addr, REQUESTED, b.requested);
  }

  /** The stores `block->size = size; block->next = next`. */
  function PutSizeNext(m: Memory, a: nat, size: nat, next: nat): (n: Memory)
    requires a + HEADER <= |m|
    ensures |n| == |m|
  {
    Store(Store(m, a, size), a + NEXT, next)
  }

  lemma PutSizeNextHolds(m: Memory, b: Block, oldNext: nat, size: nat, next: nat)
    requires HeaderHolds(m, b, oldNext) && size < WORD_LIMIT && next < WORD_LIMIT
    ensures HeaderHolds(PutSizeNext(m, b.addr, size, next), b.(size := size), next)
    ensures SameOutside(m, PutSizeNext(m, b.addr, size, next), b.addr, b.addr + HEADER)
  {
    hide Load, Store;
    FieldStore(m, b.addr, 0, size);
    assert b.addr + 0 == b.addr;
    FieldStore(Store(m, b.addr, size), b.addr, NEXT, next);
  }

  lemma FreeStore(m: Memory, b: Block, next: nat, free: bool)
    requires HeaderHolds(m, b, next)
    ensures HeaderHolds(Store(m, b.addr + FREE, FreeWord(free)), b.(free := free), next)
    ensures SameOutside(m, Store(m, b.addr + FREE, FreeWord(free)), b.addr, b.addr + HEADER)
  {
    hide Load, Store;
    FieldStore(m, b.addr, FREE, FreeWord(free));
  }

  lemma RequestedStore(m: Memory, b: Block, next: nat, requested: nat)
    requires HeaderHolds(m, b, next) && requested < WORD_LIMIT
    ensures HeaderHolds(Store(m, b.addr + REQUESTED, requested), b.(requested := requested), next)
    ensures SameOutside(m, Store(m, b.addr + REQUESTED, requested), b.addr, b.addr + HEADER)
  {
    hide Load, Store;
    FieldStore(m, b.addr, REQUESTED, requested);
  }

  // ----- Whole heap

  /** A change confined to block i's own bytes keeps every other header and live payload. */
  lemma RewriteKeepsOthers(m: Memory, n: Memory, bs: seq<Block>, start: nat, end: nat, i: nat, p: nat)
    requires Linked(m, bs, start, end) && i < |bs| && FitsBut(bs, p)
    requires bs[i].free || bs[i].Payload() == p
    requires SameOutside(m, n, bs[i].addr, bs[i].End())
    ensures forall j :: 0 <= j < |bs| && j != i ==> HeaderAt(n, bs, j)
    ensures KeepsLive(m, n, bs, p)
  {
    RewriteKeepsHeaders(m, n, bs, start, end, i);
    hide Aligned, SameOutside, HeaderHolds, FitsBut, Linked, HeaderAt;
    forall x | x in Live(bs) && x.0 != p
      ensures x.0 + x.1 <= |m| && x.0 + x.1 <= |n| && m[x.0..x.0 + x.1] == n[x.0..x.0 + x.1]
    {
      PayloadApart(m, n, bs, start, end, i, p, x);
    }
  }

  lemma RewriteKeepsHeaders(m: Memory, n: Memory, bs: seq<Block>, start: nat, end: nat, i: nat)
    requires Linked(m, bs, start, end) && i < |bs|
    requires SameOutside(m, n, bs[i].addr, bs[i].End())
    ensures forall j :: 0 <= j < |bs| && j != i ==> HeaderAt(n, bs, j)
  {
    hide Aligned, SameOutside, HeaderHolds;
    forall j | 0 <= j < |bs| && j != i ensures HeaderAt(n, bs, j) {
      assert HeaderAt(m, bs, j);
      BlocksApart(bs, start, end, i, j);
      HeaderElsewhere(m, n, bs[i].addr, bs[i].End(), bs[j], NextAddr(bs, j, 0));
    }
  }

  /** A change confined to one header keeps every live payload that fits its block. */
  lemma HeaderKeepsLive(m: Memory, n: Memory, bs: seq<Block>, start: nat, end: nat, i: nat, p: nat)
    requires Linked(m, bs, start, end) && i < |bs| && FitsBut(bs, p)
    requires SameOutside(m, n, bs[i].addr, bs[i].addr + HEADER)
    ensures KeepsLive(m, n, bs, p)
  {
    forall x | x in Live(bs) && x.0 != p
      ensures x.0 + x.1 <= |m| && x.0 + x.1 <= |n| && m[x.0..x.0 + x.1] == n[x.0..x.0 + x.1]
    {
      var j := LiveIndex(bs, x);
      assert Fits(bs[j]);
      hide Aligned, HeaderHolds, FitsBut, Stored;
      if j != i {
        BlocksApart(bs, start, end, i, j);
      }
      Within(bs, start, end, j);
      SliceOutside(m, n, bs[i].addr, bs[i].addr + HEADER, x.0, x.0 + x.1);
    }
  }

  lemma BlocksApart(bs: seq<Block>, start: nat, end: nat, i: nat, j: nat)
    requires Tiles(bs, start, end) && i < |bs| && j < |bs| && i != j
    ensures bs[j].End() <= bs[i].addr || bs[i].End() <= bs[j].addr
    ensures bs[j].addr != bs[i].addr
  {
    hide Aligned;
    if i < j { Ordered(bs, start, end, i, j); } else { Ordered(bs, start, end, j, i); }
  }

  lemma PayloadApart(m: Memory, n: Memory, bs: seq<Block>, start: nat, end: nat, i: nat, p: nat, x: (nat, nat))
    requires Linked(m, bs, start, end) && i < |bs| && FitsBut(bs, p) && (bs[i].free || bs[i].Payload() == p)
    requires SameOutside(m, n, bs[i].addr, bs[i].End())
    requires x in Live(bs) && x.0 != p
    ensures x.0 + x.1 <= |m| == |n| && m[x.0..x.0 + x.1] == n[x.0..x.0 + x.1]
  {
    var j := LiveIndex(bs, x);
    assert Fits(bs[j]);
    hide Aligned, HeaderHolds, FitsBut, Stored;
    BlocksApart(bs, start, end, i, j);
    Within(bs, start, end, j);
    SliceOutside(m, n, bs[i].addr, bs[i].End(), x.0, x.0 + x.1);
  }

  /** Rewriting block i's header in place, geometry unchanged. */
  lemma HeaderLinked(m: Memory, n: Memory, bs: seq<Block>, start: nat, end: nat, i: nat, b: Block)
    requires Linked(m, bs, start, end) && i < |bs|
    requires b.addr == bs[i].addr && b.size == bs[i].size
    requires SameOutside(m, n, b.addr, b.addr + HEADER) && HeaderHolds(n, b, NextAddr(bs, i, 0))
    ensures Linked(n, bs[i := b], start, end)
  {
    hide Aligned, HeaderHolds, Tiles, Stored;
    Within(bs, start, end, i);
    WiderOutside(m, n, b.addr, b.addr + HEADER, b.addr, bs[i].End());
    RewriteKeepsHeaders(m, n, bs, start, end, i);
    SameGeometry(bs, start, end, i, b);
    ReplaceStored(n, bs, i, b);
  }

  lemma SameGeometry(bs: seq<Block>, start: nat, end: nat, i: nat, b: Block)
    requires Tiles(bs, start, end) && i < |bs| && b.addr == bs[i].addr && b.size == bs[i].size
    ensures Tiles(bs[i := b], start, end)
  {
    hide Aligned;
    var cs := bs[i := b];
    forall k | 0 <= k < |cs| ensures Placed(cs, k, end) {
      assert Placed(bs, k, end);
    }
  }

  lemma ReplaceStored(n: Memory, bs: seq<Block>, i: nat, b: Block)
    requires i < |bs| && b.addr == bs[i].addr && HeaderHolds(n, b, NextAddr(bs, i, 0))
    requires forall j :: 0 <= j < |bs| && j != i ==> HeaderAt(n, bs, j)
    ensures Stored(n, bs[i := b])
  {
    hide HeaderHolds;
    var cs := bs[i := b];
    forall k | 0 <= k < |cs| ensures HeaderAt(n, cs, k) {
      assert NextAddr(cs, k, 0) == NextAddr(bs, k, 0);
      assert k != i ==> HeaderAt(n, bs, k);
    }
  }

  /** `split_block`: the two headers the split writes. */
  function SplitMemory(m: Memory, b: Block, next: nat, size: nat): (n: Memory)
    requires b.End() <= |m| && size + HEADER <= b.size
    ensures |n| == |m|
  {
    var split := Block(b.Payload() + size, b.size - size - HEADER, true, 0);
    PutSizeNext(PutHeader(m, split, next), b.addr, size, split.addr)
  }

  lemma SplitIs(m: Memory, b: Block, next: nat, size: nat)
    requires b.End() <= |m| && size + HEADER <= b.size
    ensures var split := Block(b.Payload() + size, b.size - size - HEADER, true, 0);
      SplitMemory(m, b, next, size) == PutSizeNext(PutHeader(m, split, next), b.addr, size, split.addr)
  {
    hide PutSizeNext, PutHeader;
  }

  lemma SplitHeaders(m: Memory, b: Block, next: nat, size: nat)
    requires HeaderHolds(m, b, next) && b.End() <= |m| <= WORD_LIMIT && next < WORD_LIMIT
    requires size + HEADER < b.size
    ensures var n := SplitMemory(m, b, next, size);
      var split := Block(b.Payload() + size, b.size - size - HEADER, true, 0);
      && HeaderHolds(n, b.(size := size), split.addr) && HeaderHolds(n, split, next)
      && SameOutside(m, n, b.addr, b.End())
      && m[b.Payload()..b.Payload() + size] == n[b.Payload()..b.Payload() + size]
  {
    hide HeaderHolds, PutHeader, PutSizeNext, SplitMemory, SameOutside;
    var split := Block(b.Payload() + size, b.size - size - HEADER, true, 0);
    var p := PutHeader(m, split, next);
    var n := SplitMemory(m, b, next, size);
    SplitIs(m, b, next, size);
    PutHeaderHolds(m, split, next);
    HeaderElsewhere(m, p, split.addr, split.addr + HEADER, b, next);
    PutSizeNextHolds(p, b, next, size, split.addr);
    HeaderElsewhere(p, n, b.addr, b.addr + HEADER, split, next);
    SliceOutside(m, p, split.addr, split.addr + HEADER, b.Payload(), b.Payload() + size);
    SliceOutside(p, n, b.addr, b.addr + HEADER, b.Payload(), b.Payload() + size);
    WiderOutside(m, p, split.addr, split.addr + HEADER, b.addr, b.End());
    WiderOutside(p, n, b.addr, b.addr + HEADER, b.addr, b.End());
    OutsideTwice(m, p, n, b.addr, b.End());
  }

  lemma OutsideTwice(m: Memory, n: Memory, o: Memory, lo: nat, hi: nat)
    requires SameOutside(m, n, lo, hi) && SameOutside(n, o, lo, hi)
    ensures SameOutside(m, o, lo, hi)
  {
  }

  /** The room a block has, and what its header says. */
  lemma SplitRoom(m: Memory, bs: seq<Block>, start: nat, end: nat, i: nat)
    requires Linked(m, bs, start, end) && i < |bs|
    ensures bs[i].End() <= |m| <= WORD_LIMIT && NextAddr(bs, i, 0) < WORD_LIMIT && HeaderHolds(m, bs[i], NextAddr(bs, i, 0))
    ensures Tiles(bs, start, end)
  {
    assert HeaderAt(m, bs, i);
    hide Aligned, Tiles, Stored, HeaderHolds;
    Within(bs, start, end, i);
    NextInside(bs, start, end, i);
  }

  lemma SplitLinked(m: Memory, bs: seq<Block>, start: nat, end: nat, i: nat, size: nat)
    requires Linked(m, bs, start, end) && i < |bs|
    requires 0 < size && Aligned(size) && size + HEADER + ALIGNMENT <= bs[i].size
    ensures bs[i].End() <= |m|
    ensures var n := SplitMemory(m, bs[i], NextAddr(bs, i, 0), size);
      && Linked(n, SplitBlocks(bs, i, size), start, end)
      && SameOutside(m, n, bs[i].addr, bs[i].End())
      && m[bs[i].Payload()..bs[i].Payload() + size] == n[bs[i].Payload()..bs[i].Payload() + size]
  {
    hide Aligned, Tiles, Stored, SplitMemory, SplitBlocks, SameOutside, HeaderHolds, HeaderAt, NextAddr;
    SplitRoom(m, bs, start, end, i);
    SplitTiles(bs, start, end, i, size);
    SplitHeaders(m, bs[i], NextAddr(bs, i, 0), size);
    var n := SplitMemory(m, bs[i], NextAddr(bs, i, 0), size);
    RewriteKeepsHeaders(m, n, bs, start, end, i);
    SplitStored(n, bs, i, size);
  }

  lemma NextInside(bs: seq<Block>, start: nat, end: nat, i: nat)
    requires Tiles(bs, start, end) && i < |bs|
    ensures NextAddr(bs, i, 0) < end
  {
    hide Aligned;
    Within(bs, start, end, i);
    if i + 1 < |bs| { Within(bs, start, end, i + 1); }
  }

  lemma SplitStored(n: Memory, bs: seq<Block>, i: nat, size: nat)
    requires i < |bs| && size + HEADER <= bs[i].size
    requires forall j :: 0 <= j < |bs| && j != i ==> HeaderAt(n, bs, j)
    requires HeaderHolds(n, bs[i].(size := size), bs[i].Payload() + size)
    requires HeaderHolds(n, Block(bs[i].Payload() + size, bs[i].size - size - HEADER, true, 0), NextAddr(bs, i, 0))
    ensures Stored(n, SplitBlocks(bs, i, size))
  {
    hide HeaderHolds;
    var cs := SplitBlocks(bs, i, size);
    forall k | 0 <= k < |cs| ensures HeaderAt(n, cs, k) {
      if k > i + 1 {
        assert HeaderAt(n, bs, k - 1);
        assert cs[k] == bs[k - 1] && NextAddr(cs, k, 0) == NextAddr(bs, k - 1, 0);
      } else if k < i {
        assert HeaderAt(n, bs, k);
        assert cs[k] == bs[k] && NextAddr(cs, k, 0) == NextAddr(bs, k, 0);
      }
    }
  }

  /** `merge_with_next`: one header changes, and the neighbour's becomes payload. */
  lemma MergeLinked(m: Memory, bs: seq<Block>, start: nat, end: nat, i: nat)
    requires Linked(m, bs, start, end) && i + 1 < |bs|
    ensures bs[i].End() <= |m|
    ensures var n := PutSizeNext(m, bs[i].addr, bs[i].size + HEADER + bs[i + 1].size, NextAddr(bs, i + 1, 0));
      && Linked(n, MergeBlocks(bs, i), start, end)
      && SameOutside(m, n, bs[i].addr, bs[i].addr + HEADER)
  {
    assert HeaderAt(m, bs, i);
    hide Aligned, HeaderHolds, FitsBut, Tiles, Stored, PutSizeNext, MergeBlocks, KeepsLive, SameOutside;
    MergeRoom(bs, start, end, i);
    NextInside(bs, start, end, i + 1);
    var grown := bs[i].(size := bs[i].size + HEADER + bs[i + 1].size);
    MergeTiles(bs, start, end, i);
    GrowHeader(m, bs[i], NextAddr(bs, i, 0), grown.size, NextAddr(bs, i + 1, 0));
    RewriteKeepsHeaders(m, PutSizeNext(m, grown.addr, grown.size, NextAddr(bs, i + 1, 0)), bs, start, end, i);
    MergeStored(PutSizeNext(m, grown.addr, grown.size, NextAddr(bs, i + 1, 0)), bs, i);
  }

  lemma GrowHeader(m: Memory, b: Block, oldNext: nat, size: nat, next: nat)
    requires HeaderHolds(m, b, oldNext) && b.End() <= |m| && size < WORD_LIMIT && next < WORD_LIMIT
    ensures var n := PutSizeNext(m, b.addr, size, next);
      && HeaderHolds(n, b.(size := size), next)
      && SameOutside(m, n, b.addr, b.addr + HEADER) && SameOutside(m, n, b.addr, b.End())
  {
    hide PutSizeNext, HeaderHolds;
    PutSizeNextHolds(m, b, oldNext, size, next);
    WiderOutside(m, PutSizeNext(m, b.addr, size, next), b.addr, b.addr + HEADER, b.addr, b.End());
  }

  lemma MergeRoom(bs: seq<Block>, start: nat, end: nat, i: nat)
    requires Tiles(bs, start, end) && i + 1 < |bs|
    ensures bs[i].End() == bs[i + 1].addr && bs[i + 1].End() <= end
  {
    hide Aligned;
    assert Placed(bs, i, end);
    Within(bs, start, end, i + 1);
  }

  lemma MergeStored(n: Memory, bs: seq<Block>, i: nat)
    requires i + 1 < |bs|
    requires forall j :: 0 <= j < |bs| && j != i ==> HeaderAt(n, bs, j)
    requires HeaderHolds(n, bs[i].(size := bs[i].size + HEADER + bs[i + 1].size), NextAddr(bs, i + 1, 0))
    ensures Stored(n, MergeBlocks(bs, i))
  {
    hide HeaderHolds;
    var cs := MergeBlocks(bs, i);
    forall k | 0 <= k < |cs| ensures HeaderAt(n, cs, k) {
      if k > i {
        assert HeaderAt(n, bs, k + 1);
        assert cs[k] == bs[k + 1] && NextAddr(cs, k, 0) == NextAddr(bs, k + 1, 0);
      } else if k < i {
        assert HeaderAt(n, bs, k);
        assert cs[k] == bs[k] && NextAddr(cs, k, 0) == NextAddr(bs, k, 0);
      }
    }
  }

  /** `grow_heap`: a fresh block at the old end, linked from the old last block. */
  function AppendMemory(m: Memory, bs: seq<Block>, b: Block): (n: Memory)
    requires b.addr + HEADER <= |m| && (bs != [] ==> bs[|bs| - 1].addr + HEADER <= |m|)
    ensures |n| == |m|
  {
    var n := PutHeader(m, b, 0);
    if bs == [] then n else Store(n, bs[|bs| - 1].addr + NEXT, b.addr)
  }

  lemma AppendLinked(m: Memory, bs: seq<Block>, start: nat, end: nat, b: Block)
    requires Linked(m, bs, start, end) && GoodBlock(b) && b.addr == end && b.End() <= |m|
    requires b.requested < WORD_LIMIT
    ensures bs != [] ==> bs[|bs| - 1].addr + HEADER <= |m|
    ensures Linked(AppendMemory(m, bs, b), bs + [b], start, b.End())
  {
    var p := PutHeader(m, b, 0);
    AppendTiles(bs, start, end, b);
    hide Aligned, PutHeader, Tiles, HeaderHolds;
    PutHeaderHolds(m, b, 0);
    if bs != [] {
      AppendKeeps(m, bs, start, end, b);
      var last := |bs| - 1;
      Within(bs, start, end, last);
      AppendStored(p, bs, start, end, b);
    } else {
      assert HeaderAt(p, bs + [b], 0);
    }
  }

  lemma AppendKeeps(m: Memory, bs: seq<Block>, start: nat, end: nat, b: Block)
    requires Linked(m, bs, start, end) && b.addr == end && b.End() <= |m|
    requires SameOutside(m, PutHeader(m, b, 0), b.addr, b.addr + HEADER)
    ensures forall k :: 0 <= k < |bs| ==> HeaderAt(PutHeader(m, b, 0), bs, k)
  {
    hide Aligned, HeaderHolds, PutHeader;
    forall k | 0 <= k < |bs| ensures HeaderAt(PutHeader(m, b, 0), bs, k) {
      assert HeaderAt(m, bs, k);
      Within(bs, start, end, k);
      HeaderElsewhere(m, PutHeader(m, b, 0), b.addr, b.addr + HEADER, bs[k], NextAddr(bs, k, 0));
    }
  }

  /** The link that is stored into the last block leaves the header before it alone. */
  lemma AppendHeader(p: Memory, n: Memory, bs: seq<Block>, start: nat, end: nat, b: Block, k: nat)
    requires Tiles(bs, start, end) && k + 1 < |bs| && end <= |p| && HeaderAt(p, bs, k)
    requires SameOutside(p, n, bs[|bs| - 1].addr, bs[|bs| - 1].addr + HEADER)
    ensures HeaderAt(n, bs + [b], k)
  {
    hide Aligned, HeaderHolds, SameOutside, Tiles;
    var last := |bs| - 1;
    BlocksApart(bs, start, end, last, k);
    HeaderElsewhere(p, n, bs[last].addr, bs[last].addr + HEADER, bs[k], NextAddr(bs, k, 0));
    assert NextAddr(bs + [b], k, 0) == NextAddr(bs, k, 0);
  }

  lemma AppendStored(p: Memory, bs: seq<Block>, start: nat, end: nat, b: Block)
    requires Tiles(bs, start, end) && bs != [] && b.addr == end && b.End() <= |p| <= WORD_LIMIT
    requires HeaderHolds(p, b, 0) && forall k :: 0 <= k < |bs| ==> HeaderAt(p, bs, k)
    ensures bs[|bs| - 1].addr + HEADER <= |p|
    ensures Stored(Store(p, bs[|bs| - 1].addr + NEXT, b.addr), bs + [b])
  {
    hide Aligned, HeaderHolds, SameOutside, Store, Tiles;
    var last, cs := |bs| - 1, bs + [b];
    Within(bs, start, end, last);
    assert HeaderAt(p, bs, last);
    var n := Store(p, bs[last].addr + NEXT, b.addr);
    LinkLast(p, bs[last], b);
    HeaderElsewhere(p, n, bs[last].addr, bs[last].addr + HEADER, b, 0);
    forall k | 0 <= k < |cs| ensures HeaderAt(n, cs, k) {
      if k < last { AppendHeader(p, n, bs, start, end, b, k); }
    }
  }

  lemma AppendTiles(bs: seq<Block>, start: nat, end: nat, b: Block)
    requires Tiles(bs, start, end) && GoodBlock(b) && b.addr == end
    ensures Tiles(bs + [b], start, b.End())
  {
    hide Aligned;
    var cs := bs + [b];
    forall k | 0 <= k < |cs| ensures Placed(cs, k, b.End()) {
      if k < |bs| {
        assert Placed(bs, k, end);
      }
    }
  }

  lemma LinkLast(m: Memory, last: Block, b: Block)
    requires HeaderHolds(m, last, 0) && b.addr < WORD_LIMIT
    ensures HeaderHolds(Store(m, last.addr + NEXT, b.addr), last, b.addr)
    ensures SameOutside(m, Store(m, last.addr + NEXT, b.addr), last.addr, last.addr + HEADER)
  {
    hide Load, Store;
    FieldStore(m, last.addr, NEXT, b.addr);
  }

  /** The last block takes the grown heap: one size word changes. */
  lemma ExtendLinked(m: Memory, bs: seq<Block>, start: nat, end: nat, size: nat)
    requires Linked(m, bs, start, end) && bs != [] && Aligned(size) && bs[|bs| - 1].size <= size
    requires bs[|bs| - 1].Payload() + size <= |m|
    ensures var last := bs[|bs| - 1]; var n := Store(m, last.addr, size);
      && Linked(n, bs[|bs| - 1 := last.(size := size)], start, last.Payload() + size)
      && SameOutside(m, n, last.addr, last.addr + HEADER)
  {
    var i := |bs| - 1;
    var last := bs[i];
    var n := Store(m, last.addr, size);
    assert HeaderAt(m, bs, i);
    ExtendTiles(bs, start, end, size);
    hide Aligned, Tiles;
    Within(bs, start, end, i);
    ExtendHeader(m, last, size);
    hide HeaderHolds;
    WiderOutside(m, n, last.addr, last.addr + HEADER, last.addr, last.End());
    RewriteKeepsHeaders(m, n, bs, start, end, i);
    ReplaceStored(n, bs, i, last.(size := size));
  }

  lemma ExtendHeader(m: Memory, b: Block, size: nat)
    requires HeaderHolds(m, b, 0) && size < WORD_LIMIT
    ensures HeaderHolds(Store(m, b.addr, size), b.(size := size), 0)
    ensures SameOutside(m, Store(m, b.addr, size), b.addr, b.addr + HEADER)
  {
    hide Load, Store;
    FieldStore(m, b.addr, 0, size);
    assert b.addr + 0 == b.addr;
  }

  lemma ExtendTiles(bs: seq<Block>, start: nat, end: nat, size: nat)
    requires Tiles(bs, start, end) && bs != [] && Aligned(size) && bs[|bs| - 1].size <= size
    ensures Tiles(bs[|bs| - 1 := bs[|bs| - 1].(size := size)], start, bs[|bs| - 1].Payload() + size)
  {
    hide Aligned;
    var i := |bs| - 1;
    var cs := bs[i := bs[i].(size := size)];
    var newEnd := bs[i].Payload() + size;
    assert Placed(bs, i, end);
    forall k | 0 <= k < |cs| ensures Placed(cs, k, newEnd) {
      assert Placed(bs, k, end);
    }
  }

  // ----- Effect on the live allocations

  /** From one heap to the next, every allocation but the one at `p` stays, with its bytes. */
  ghost predicate Untouched(m: Memory, bs: seq<Block>, n: Memory, cs: seq<Block>, p: nat) {
    && |m| == |n|
    && (forall x :: x in Live(bs) && x.0 != p ==> x in Live(cs))
    && (forall x :: x in Live(cs) && x.0 != p ==> x in Live(bs))
    && KeepsLive(m, n, bs, p)
  }

  /** A header write keeps all live payloads; with the live set unchanged, nothing is touched. */
  lemma HeaderUntouched(m: Memory, n: Memory, bs: seq<Block>, cs: seq<Block>, start: nat, end: nat, i: nat, p: nat)
    requires Linked(m, bs, start, end) && i < |bs| && FitsBut(bs, p)
    requires SameOutside(m, n, bs[i].addr, bs[i].addr + HEADER)
    requires forall x: (nat, nat) :: x.0 != p ==> (x in Live(bs) <==> x in Live(cs))
    ensures Untouched(m, bs, n, cs, p)
  {
    HeaderKeepsLive(m, n, bs, start, end, i, p);
  }

  lemma UntouchedSame(m: Memory, bs: seq<Block>, start: nat, end: nat, p: nat)
    requires Linked(m, bs, start, end) && FitsBut(bs, p)
    ensures Untouched(m, bs, m, bs, p)
  {
    forall x | x in Live(bs) && x.0 != p ensures x.0 + x.1 <= |m| {
      var i := LiveIndex(bs, x);
      assert Fits(bs[i]);
      Within(bs, start, end, i);
    }
  }

  lemma UntouchedTwice(m: Memory, bs: seq<Block>, n: Memory, cs: seq<Block>, o: Memory, ds: seq<Block>, p: nat)
    requires Untouched(m, bs, n, cs, p) && Untouched(n, cs, o, ds, p)
    ensures Untouched(m, bs, o, ds, p)
  {
    forall x | x in Live(bs) && x.0 != p
      ensures x in Live(ds) && x.0 + x.1 <= |m| && m[x.0..x.0 + x.1] == o[x.0..x.0 + x.1]
    {
      assert x in Live(cs);
    }
  }

  lemma ViewKey(m: Memory, bs: seq<Block>, start: nat, end: nat, p: nat) returns (x: (nat, nat))
    requires Tiles(bs, start, end) && FitsBut(bs, 0) && end <= |m| && p in View(m, bs, start, end)
    ensures x in Live(bs) && x.0 == p && x.0 + x.1 <= |m| && View(m, bs, start, end)[p] == m[x.0..x.0 + x.1]
  {
    hide Tiles, FitsBut, Live;
    LiveInjective(bs, start, end);
    x :| x in Live(bs) && x.0 == p;
  }

  lemma ViewAt(m: Memory, bs: seq<Block>, start: nat, end: nat, x: (nat, nat))
    requires Tiles(bs, start, end) && FitsBut(bs, 0) && end <= |m| && x in Live(bs)
    ensures x.0 in View(m, bs, start, end) && x.0 + x.1 <= |m|
    ensures View(m, bs, start, end)[x.0] == m[x.0..x.0 + x.1]
  {
    hide Tiles, FitsBut, Live;
    LiveInjective(bs, start, end);
    assert x.0 in Pointers(bs);
  }

  /** Then the two views agree away from `p`. */
  lemma ViewApart(m: Memory, bs: seq<Block>, start: nat, end: nat,
                  n: Memory, cs: seq<Block>, start': nat, end': nat, p: nat)
    requires Tiles(bs, start, end) && FitsBut(bs, 0) && end <= |m|
    requires Tiles(cs, start', end') && FitsBut(cs, 0) && end' <= |n|
    requires Untouched(m, bs, n, cs, p)
    ensures View(m, bs, start, end) - {p} == View(n, cs, start', end') - {p}
  {
    hide Tiles, FitsBut, Live;
    var v, w := View(m, bs, start, end), View(n, cs, start', end');
    LiveInjective(bs, start, end);
    LiveInjective(cs, start', end');
    forall q | q in v.Keys && q != p ensures q in w && v[q] == w[q] {
      var x := ViewKey(m, bs, start, end, q);
      assert x in Live(cs);
      ViewAt(n, cs, start', end', x);
    }
    forall q | q in w.Keys && q != p ensures q in v {
      var x := ViewKey(n, cs, start', end', q);
      assert x in Live(bs);
      ViewAt(m, bs, start, end, x);
    }
  }

  /** The neighbour's words are still there after `block->size` is written. */
  lemma NextSizeKept(m: Memory, block: nat, size: nat, next: nat)
    requires block + HEADER <= next && next + HEADER <= |m|
    ensures Load(Store(m, block, size), next + NEXT) == Load(m, next + NEXT)
  {
    hide Load, Store;
    OtherWord(m, block, size, next + NEXT);
  }

  /** Only the last header and the bytes from `end` on change. */
  ghost predicate SameOutsideTail(m: Memory, n: Memory, bs: seq<Block>, end: nat) {
    && |m| == |n|
    && (bs == [] ==> SameOutside(m, n, end, |m|))
    && (bs != [] ==> exists mid :: SameOutside(m, mid, end, |m|)
                                && SameOutside(mid, n, bs[|bs| - 1].addr, bs[|bs| - 1].addr + HEADER))
  }

  lemma AppendFrame(m: Memory, bs: seq<Block>, start: nat, end: nat, b: Block)
    requires Linked(m, bs, start, end) && b.addr == end && b.End() <= |m| && b.requested < WORD_LIMIT
    ensures bs != [] ==> bs[|bs| - 1].addr + HEADER <= |m|
    ensures SameOutsideTail(m, AppendMemory(m, bs, b), bs, end)
  {
    var p := PutHeader(m, b, 0);
    hide Aligned, PutHeader, HeaderHolds;
    PutHeaderHolds(m, b, 0);
    WiderOutside(m, p, b.addr, b.addr + HEADER, b.addr, |m|);
    if bs != [] {
      var last := bs[|bs| - 1];
      Within(bs, start, end, |bs| - 1);
      StoreOutside(p, last.addr + NEXT, b.addr, last.addr, last.addr + HEADER);
    }
  }

  /** Appending touches no live payload. */
  lemma AppendKeepsPayload(m: Memory, n: Memory, bs: seq<Block>, start: nat, end: nat, x: (nat, nat))
    requires Linked(m, bs, start, end) && FitsBut(bs, 0) && SameOutsideTail(m, n, bs, end) && x in Live(bs)
    ensures x.0 + x.1 <= |m| && m[x.0..x.0 + x.1] == n[x.0..x.0 + x.1]
  {
    hide Aligned, HeaderHolds, Stored, Tiles, Live, SameOutside;
    var i := LiveIndex(bs, x);
    assert Fits(bs[i]) by { assert bs[i].Payload() != 0; }
    hide FitsBut;
    Within(bs, start, end, i);
    var last := |bs| - 1;
    var mid :| SameOutside(m, mid, end, |m|) && SameOutside(mid, n, bs[last].addr, bs[last].addr + HEADER);
    assert |mid| == |m| by { OutsideLength(m, mid, end, |m|); }
    SliceOutside(m, mid, end, |m|, x.0, x.0 + x.1);
    if i < last { BlocksApart(bs, start, end, i, last); Ordered(bs, start, end, i, last); }
    SliceOutside(mid, n, bs[last].addr, bs[last].addr + HEADER, x.0, x.0 + x.1);
  }

  lemma OutsideLength(m: Memory, n: Memory, lo: nat, hi: nat)
    requires SameOutside(m, n, lo, hi)
    ensures |m| == |n|
  {
  }

  lemma AppendUntouched(m: Memory, n: Memory, bs: seq<Block>, start: nat, end: nat, b: Block)
    requires Linked(m, bs, start, end) && FitsBut(bs, 0) && SameOutsideTail(m, n, bs, end)
    ensures Untouched(m, bs, n, bs + [b], b.Payload())
  {
    hide Linked, FitsBut, Live;
    LiveConcat(bs, [b]);
    SingleLive(b);
    forall x | x in Live(bs) ensures x.0 + x.1 <= |m| && m[x.0..x.0 + x.1] == n[x.0..x.0 + x.1] {
      AppendKeepsPayload(m, n, bs, start, end, x);
    }
    hide SameOutsideTail;
  }

  // ----- The list operations, all effects together

  function HeadAddr(bs: seq<Block>): nat { if bs == [] then 0 else bs[0].addr }

  function TailAddr(bs: seq<Block>): nat { if bs == [] then 0 else bs[|bs| - 1].addr }

  /** The memory and the two list pointers represent `bs`. */
  ghost predicate Rep(m: Memory, head: nat, tail: nat, bs: seq<Block>, start: nat, end: nat) {
    Linked(m, bs, start, end) && head == HeadAddr(bs) && tail == TailAddr(bs)
  }

  /** What every internal step promises: blocks other than the one at `p` fit, and nothing else
      that is live was touched. */
  ghost predicate Changed(m: Memory, bs: seq<Block>, n: Memory, cs: seq<Block>, p: nat) {
    Untouched(m, bs, n, cs, p) && FitsBut(cs, p)
  }

  ghost predicate SamePrefix(m: Memory, n: Memory, p: nat, size: nat) {
    p + size <= |m| == |n| && n[p..p + size] == m[p..p + size]
  }

  lemma SplitStep(m: Memory, head: nat, tail: nat, bs: seq<Block>, start: nat, end: nat, i: nat, size: nat, p: nat)
    requires Rep(m, head, tail, bs, start, end) && i < |bs|
    requires 0 < size && Aligned(size) && size + HEADER + ALIGNMENT <= bs[i].size
    requires FitsBut(bs, p) && (bs[i].free || bs[i].Payload() == p)
    ensures bs[i].End() <= |m|
    ensures var n := SplitMemory(m, bs[i], NextAddr(bs, i, 0), size); var cs := SplitBlocks(bs, i, size);
      && Rep(n, head, if tail == bs[i].addr then bs[i].Payload() + size else tail, cs, start, end)
      && Changed(m, bs, n, cs, p) && SamePrefix(m, n, bs[i].Payload(), size)
  {
    Within(bs, start, end, i);
    TailIndex(bs, start, end, i);
    var n, cs := SplitMemory(m, bs[i], NextAddr(bs, i, 0), size), SplitBlocks(bs, i, size);
    assert HeadAddr(cs) == HeadAddr(bs);
    assert TailAddr(cs) == if i == |bs| - 1 then bs[i].Payload() + size else TailAddr(bs);
    hide SplitBlocks, SplitMemory, Aligned, Linked, Live, FitsBut, KeepsLive, SameOutside, HeadAddr, TailAddr;
    SplitLinked(m, bs, start, end, i, size);
    RewriteKeepsOthers(m, n, bs, start, end, i, p);
    SplitLive(bs, i, size);
    SplitFits(bs, i, size, p);
  }

  lemma MergeStep(m: Memory, head: nat, tail: nat, bs: seq<Block>, start: nat, end: nat, i: nat, p: nat)
    requires Rep(m, head, tail, bs, start, end) && i + 1 < |bs| && bs[i + 1].free
    requires FitsBut(bs, p) && (bs[i].free || bs[i].Payload() == p)
    ensures bs[i].End() <= |m|
    ensures var n := PutSizeNext(m, bs[i].addr, bs[i].size + HEADER + bs[i + 1].size, NextAddr(bs, i + 1, 0));
      var cs := MergeBlocks(bs, i);
      && Rep(n, head, if tail == bs[i + 1].addr then bs[i].addr else tail, cs, start, end)
      && Changed(m, bs, n, cs, p) && SameOutside(m, n, bs[i].addr, bs[i].addr + HEADER)
  {
    TailIndex(bs, start, end, i + 1);
    var cs := MergeBlocks(bs, i);
    assert HeadAddr(cs) == HeadAddr(bs);
    assert TailAddr(cs) == if i + 1 == |bs| - 1 then bs[i].addr else TailAddr(bs);
    hide MergeBlocks, Aligned, Linked, Live, FitsBut, SameOutside, Untouched, PutSizeNext, HeadAddr, TailAddr;
    MergeLinked(m, bs, start, end, i);
    MergeLive(bs, i);
    MergeFits(bs, i, p);
    var n := PutSizeNext(m, bs[i].addr, bs[i].size + HEADER + bs[i + 1].size, NextAddr(bs, i + 1, 0));
    HeaderUntouched(m, n, bs, cs, start, end, i, p);
  }

  /** What a reader of the header at block i sees. */
  lemma ReadHeader(m: Memory, bs: seq<Block>, start: nat, end: nat, i: nat)
    requires Linked(m, bs, start, end) && i < |bs|
    ensures 0 < bs[i].addr && bs[i].End() <= end <= |m|
    ensures HeaderHolds(m, bs[i], NextAddr(bs, i, 0))
    ensures i + 1 < |bs| ==> bs[i].End() == bs[i + 1].addr
    ensures bs[|bs| - 1].addr == bs[i].addr <==> i == |bs| - 1
  {
    assert HeaderAt(m, bs, i);
    assert Placed(bs, i, end);
    hide Aligned;
    Within(bs, start, end, i);
    TailIndex(bs, start, end, i);
  }

  /** What `merge_with_next` reads before it decides. */
  lemma HeaderWords(m: Memory, b: Block, next: nat)
    requires HeaderHolds(m, b, next)
    ensures b.addr + HEADER <= |m| && Load(m, b.addr) == b.size && Load(m, b.addr + NEXT) == next
  {
  }

  lemma MergeGuard(m: Memory, bs: seq<Block>, start: nat, end: nat, i: nat)
    requires Linked(m, bs, start, end) && i < |bs|
    ensures bs[i].addr + HEADER <= |m| && Load(m, bs[i].addr) == bs[i].size
    ensures var next := Load(m, bs[i].addr + NEXT);
      && (next != 0 <==> i + 1 < |bs|)
      && (next != 0 ==> next == bs[i + 1].addr == bs[i].End() && HeaderHolds(m, bs[i + 1], NextAddr(bs, i + 1, 0)))
  {
    ReadHeader(m, bs, start, end, i);
    if i + 1 < |bs| {
      ReadHeader(m, bs, start, end, i + 1);
    }
  }

  lemma AppendStep(m: Memory, head: nat, tail: nat, bs: seq<Block>, start: nat, end: nat, b: Block)
    requires Rep(m, head, tail, bs, start, end) && FitsBut(bs, 0) && b.addr == end && b.End() <= |m|
    requires 0 < b.size && Aligned(b.size) && b.requested < WORD_LIMIT
    ensures 0 < end && (bs != [] <==> tail != 0)
    ensures bs != [] ==> tail == bs[|bs| - 1].addr && tail + HEADER <= |m|
    ensures Rep(AppendMemory(m, bs, b), if tail == 0 then end else head, end, bs + [b], start, b.End())
    ensures Changed(m, bs, AppendMemory(m, bs, b), bs + [b], b.Payload())
  {
    EndAligned(bs, start, end);
    if bs != [] { TailIndex(bs, start, end, |bs| - 1); }
    AppendFits(bs, b);
    hide Aligned, Linked, FitsBut, SameOutsideTail, Untouched, AppendMemory;
    AppendLinked(m, bs, start, end, b);
    AppendFrame(m, bs, start, end, b);
    AppendUntouched(m, AppendMemory(m, bs, b), bs, start, end, b);
  }

  lemma AppendFits(bs: seq<Block>, b: Block)
    requires FitsBut(bs, 0)
    ensures FitsBut(bs + [b], b.Payload())
  {
    forall c | c in bs + [b] && c.Payload() != b.Payload() ensures Fits(c) {
      assert c in bs && c.Payload() != 0;
    }
  }

  lemma ChangedSame(m: Memory, bs: seq<Block>, start: nat, end: nat, p: nat)
    requires Linked(m, bs, start, end) && FitsBut(bs, p)
    ensures Changed(m, bs, m, bs, p)
    ensures forall lo: nat, hi: nat :: lo <= hi <= |m| ==> SameOutside(m, m, lo, hi)
  {
    UntouchedSame(m, bs, start, end, p);
  }

  /** Rewriting the header of the block at `p`, geometry kept, changes nothing else. */
  lemma FieldChanged(m: Memory, n: Memory, bs: seq<Block>, start: nat, end: nat, i: nat, b: Block)
    requires Linked(m, bs, start, end) && i < |bs| && b.addr == bs[i].addr && FitsBut(bs, b.Payload())
    requires SameOutside(m, n, b.addr, b.addr + HEADER)
    ensures Changed(m, bs, n, bs[i := b], b.Payload())
    ensures Fits(b) ==> FitsBut(bs[i := b], 0)
  {
    ReplaceLive(bs, i, b);
    HeaderUntouched(m, n, bs, bs[i := b], start, end, i, b.Payload());
    forall c | c in bs[i := b] ensures (c.Payload() != b.Payload() ==> Fits(c)) && (Fits(b) ==> Fits(c)) {
      if c != b {
        var k :| 0 <= k < |bs| && k != i && c == bs[k];
        hide Aligned;
        BlocksApart(bs, start, end, i, k);
      }
    }
  }

  lemma FitsFrom(m: Memory, bs: seq<Block>, n: Memory, cs: seq<Block>, p: nat)
    requires Changed(m, bs, n, cs, p)
    ensures FitsBut(cs, p)
  {
  }

  lemma ChangedAgain(m: Memory, bs: seq<Block>, n: Memory, cs: seq<Block>, o: Memory, ds: seq<Block>, p: nat)
    requires Changed(m, bs, n, cs, p) && Changed(n, cs, o, ds, p)
    ensures Changed(m, bs, o, ds, p)
  {
    UntouchedTwice(m, bs, n, cs, o, ds, p);
  }

  /** What is untouched but at 0 is untouched but at `p`. */
  lemma ChangedWider(m: Memory, bs: seq<Block>, n: Memory, cs: seq<Block>, p: nat)
    requires Changed(m, bs, n, cs, 0)
    ensures Changed(m, bs, n, cs, p)
  {
    forall x | x in Live(bs) && x.0 != p ensures x in Live(cs) {
      LivePayload(bs, x);
    }
    forall x | x in Live(cs) && x.0 != p ensures x in Live(bs) {
      LivePayload(cs, x);
    }
    forall x | x in Live(bs) && x.0 != p
      ensures x.0 + x.1 <= |m| && x.0 + x.1 <= |n| && m[x.0..x.0 + x.1] == n[x.0..x.0 + x.1]
    {
      LivePayload(bs, x);
    }
    forall b | b in cs && b.Payload() != p ensures Fits(b) {
      assert b.Payload() != 0;
    }
  }

  lemma LivePayload(bs: seq<Block>, x: (nat, nat))
    requires x in Live(bs)
    ensures x.0 != 0
  {
    var i := LiveIndex(bs, x);
  }

  /** The first allocation of all: nothing is in the view but it. */
  lemma FirstView(m: Memory, n: Memory, cs: seq<Block>, start: nat, end: nat, p: nat)
    requires Tiles(cs, start, end) && FitsBut(cs, 0) && end <= |n| && Changed(m, [], n, cs, p)
    ensures View(n, cs, start, end) - {p} == map[]
  {
    forall q | q in View(n, cs, start, end) ensures q == p {
      var x := ViewKey(n, cs, start, end, q);
      assert x.0 != p ==> x in Live([]);
    }
  }

  /** A live pointer's block. */
  lemma ViewIndex(m: Memory, bs: seq<Block>, start: nat, end: nat, p: nat) returns (i: nat)
    requires Tiles(bs, start, end) && FitsBut(bs, 0) && end <= |m| && p in View(m, bs, start, end)
    ensures i < |bs| && !bs[i].free && bs[i].Payload() == p && p + bs[i].requested <= |m|
    ensures View(m, bs, start, end)[p] == m[p..p + bs[i].requested]
    ensures Fits(bs[i]) && bs[i].End() <= end && HEADER < p
  {
    var x := ViewKey(m, bs, start, end, p);
    i := LiveIndex(bs, x);
    Within(bs, start, end, i);
    assert bs[i].Payload() != 0;
  }

  /** Block i in use shows up in the view. */
  lemma BlockInView(m: Memory, bs: seq<Block>, start: nat, end: nat, i: nat)
    requires Tiles(bs, start, end) && FitsBut(bs, 0) && end <= |m| && i < |bs| && !bs[i].free
    ensures var p := bs[i].Payload();
      && p in View(m, bs, start, end) && p + bs[i].requested <= |m|
      && View(m, bs, start, end)[p] == m[p..p + bs[i].requested]
      && Aligned(p)
  {
    var x := (bs[i].Payload(), bs[i].requested);
    assert bs[i] in bs;
    ViewAt(m, bs, start, end, x);
    InUse(bs, start, end, i);
  }

  /** A free block's payload is not in the view. */
  lemma FreeNotInView(m: Memory, bs: seq<Block>, start: nat, end: nat, i: nat)
    requires Tiles(bs, start, end) && FitsBut(bs, 0) && end <= |m| && i < |bs| && bs[i].free
    ensures bs[i].Payload() !in View(m, bs, start, end)
  {
    if bs[i].Payload() in View(m, bs, start, end) {
      var x := ViewKey(m, bs, start, end, bs[i].Payload());
      FreeNotLive(bs, start, end, i, x);
    }
  }

  /** Nothing live lies beyond the last block. */
  lemma EndNotInView(m: Memory, bs: seq<Block>, start: nat, end: nat)
    requires Tiles(bs, start, end) && FitsBut(bs, 0) && end <= |m|
    ensures end + HEADER !in View(m, bs, start, end)
  {
    if end + HEADER in View(m, bs, start, end) {
      var i := ViewIndex(m, bs, start, end, end + HEADER);
      Within(bs, start, end, i);
    }
  }

  lemma EmptyView(m: Memory, start: nat, end: nat)
    requires Tiles([], start, end) && FitsBut([], 0) && end <= |m|
    ensures View(m, [], start, end) == map[]
  {
    assert Pointers([]) == {};
  }

  /** Once block i is free and the rest is unchanged, its pointer has left the view. */
  lemma FreedView(m: Memory, bs: seq<Block>, start: nat, end: nat, n: Memory, cs: seq<Block>, start': nat, end': nat, p: nat)
    requires Tiles(bs, start, end) && FitsBut(bs, 0) && end <= |m|
    requires Tiles(cs, start', end') && FitsBut(cs, 0) && end' <= |n|
    requires Changed(m, bs, n, cs, p) && (forall x :: x in Live(cs) ==> x.0 != p)
    ensures View(n, cs, start', end') == View(m, bs, start, end) - {p}
  {
    ViewApart(m, bs, start, end, n, cs, start', end', p);
    if p in View(n, cs, start', end') {
      var x := ViewKey(n, cs, start', end', p);
    }
  }

  /** Clearing block i removes its pointer from the live set. */
  lemma NotLiveAfter(bs: seq<Block>, start: nat, end: nat, i: nat)
    requires Tiles(bs, start, end) && i < |bs| && bs[i].free
    ensures forall x :: x in Live(bs) ==> x.0 != bs[i].Payload()
  {
    forall x | x in Live(bs) && x.0 == bs[i].Payload() ensures false {
      FreeNotLive(bs, start, end, i, x);
    }
  }

  /** Changes away from a pointer that is not live anywhere do not make it live. */
  lemma StaysDead(m: Memory, bs: seq<Block>, n: Memory, cs: seq<Block>, p: nat)
    requires Changed(m, bs, n, cs, 0) && p != 0 && (forall x :: x in Live(bs) ==> x.0 != p)
    ensures forall x :: x in Live(cs) ==> x.0 != p
  {
    forall x | x in Live(cs) ensures x.0 != p {
      LivePayload(cs, x);
      assert x in Live(bs);
    }
  }

  lemma FitsBut0(bs: seq<Block>, p: nat)
    requires FitsBut(bs, 0)
    ensures FitsBut(bs, p)
  {
    forall b | b in bs && b.Payload() != p ensures Fits(b) {
      assert b.Payload() != 0;
    }
  }

  lemma ReadFree(m: Memory, bs: seq<Block>, start: nat, end: nat, i: nat)
    requires Linked(m, bs, start, end) && i < |bs|
    ensures bs[i].addr + HEADER <= |m| && (Load(m, bs[i].addr + FREE) != 0 <==> bs[i].free)
  {
    ReadHeader(m, bs, start, end, i);
  }

  lemma NullNotInView(m: Memory, bs: seq<Block>, start: nat, end: nat)
    requires Tiles(bs, start, end) && FitsBut(bs, 0) && end <= |m|
    ensures 0 !in View(m, bs, start, end)
  {
    if 0 in View(m, bs, start, end) {
      var i := ViewIndex(m, bs, start, end, 0);
    }
  }

  /** A header write elsewhere keeps a payload prefix. */
  lemma PrefixKept(m: Memory, n: Memory, o: Memory, p: nat, size: nat, lo: nat)
    requires SamePrefix(m, n, p, size) && SameOutside(n, o, lo, lo + HEADER)
    requires lo + HEADER <= p || p + size <= lo
    ensures SamePrefix(m, o, p, size)
  {
    SliceOutside(n, o, lo, lo + HEADER, p, p + size);
  }

  lemma PrefixSame(m: Memory, p: nat, size: nat)
    requires p + size <= |m|
    ensures SamePrefix(m, m, p, size)
  {
  }

  lemma ShorterPrefix(m: Memory, n: Memory, p: nat, size: nat, k: nat)
    requires SamePrefix(m, n, p, size) && k <= size
    ensures SamePrefix(m, n, p, k)
  {
    SubSlice(m, p, p + size, 0, k);
    SubSlice(n, p, p + size, 0, k);
  }

  lemma ExtendStep(m: Memory, head: nat, tail: nat, bs: seq<Block>, start: nat, end: nat, size: nat)
    requires Rep(m, head, tail, bs, start, end) && bs != [] && Aligned(size) && bs[|bs| - 1].size <= size
    requires bs[|bs| - 1].Payload() + size <= |m| && FitsBut(bs, tail + HEADER)
    ensures tail + HEADER <= |m|
    ensures var last := bs[|bs| - 1].(size := size); var cs := bs[|bs| - 1 := last]; var n := Store(m, tail, size);
      && Rep(n, head, tail, cs, start, last.End()) && SameOutside(m, n, tail, tail + HEADER)
      && Changed(m, bs, n, cs, tail + HEADER)
  {
    hide Aligned, Tiles, Stored, FitsBut, Changed, SameOutside, Store;
    ExtendLinked(m, bs, start, end, size);
    var last := bs[|bs| - 1].(size := size);
    FieldChanged(m, Store(m, tail, size), bs, start, end, |bs| - 1, last);
  }

  /** Writing inside the requested bytes of block i keeps the list and every other payload. */
  lemma PayloadStep(m: Memory, n: Memory, bs: seq<Block>, start: nat, end: nat, i: nat)
    requires Linked(m, bs, start, end) && FitsBut(bs, 0) && i < |bs|
    requires SameOutside(m, n, bs[i].Payload(), bs[i].End())
    ensures Linked(n, bs, start, end) && Changed(m, bs, n, bs, bs[i].Payload())
  {
    assert HeaderAt(m, bs, i);
    FitsBut0(bs, bs[i].Payload());
    hide Aligned, Tiles, HeaderHolds, FitsBut, Live;
    HeaderElsewhere(m, n, bs[i].Payload(), bs[i].End(), bs[i], NextAddr(bs, i, 0));
    WiderOutside(m, n, bs[i].Payload(), bs[i].End(), bs[i].addr, bs[i].End());
    RewriteKeepsOthers(m, n, bs, start, end, i, bs[i].Payload());
    ReplaceStored(n, bs, i, bs[i]);
    assert bs[i := bs[i]] == bs;
  }

  /** A write inside a live allocation, seen on the view. */
  lemma WrittenView(m: Memory, n: Memory, bs: seq<Block>, start: nat, end: nat, i: nat, offset: nat, bytes: seq<byte>)
    requires Linked(m, bs, start, end) && FitsBut(bs, 0) && i < |bs| && !bs[i].free
    requires offset + |bytes| <= bs[i].requested && bs[i].Payload() + bs[i].requested <= |m|
    requires var at := bs[i].Payload() + offset; n == m[..at] + bytes + m[at + |bytes|..]
    ensures Linked(n, bs, start, end)
    ensures var p := bs[i].Payload(); var v := View(m, bs, start, end);
      && p in v && offset + |bytes| <= |v[p]|
      && View(n, bs, start, end) == v[p := v[p][..offset] + bytes + v[p][offset + |bytes|..]]
  {
    hide Aligned, Tiles, Stored, FitsBut, View, Changed;
    var p := bs[i].Payload();
    WriteStep(m, n, bs, start, end, i, offset, bytes);
    BlockInView(m, bs, start, end, i);
    BlockInView(n, bs, start, end, i);
    ChangedView(m, n, bs, start, end, p);
    WrittenSlice(m, n, p, bs[i].requested, offset, bytes);
    var v, w := View(m, bs, start, end), View(n, bs, start, end);
    assert v - {p} == w - {p};
    assert w == (w - {p})[p := w[p]];
  }

  lemma WriteStep(m: Memory, n: Memory, bs: seq<Block>, start: nat, end: nat, i: nat, offset: nat, bytes: seq<byte>)
    requires Linked(m, bs, start, end) && FitsBut(bs, 0) && i < |bs| && !bs[i].free
    requires offset + |bytes| <= bs[i].requested && bs[i].Payload() + bs[i].requested <= |m|
    requires var at := bs[i].Payload() + offset; n == m[..at] + bytes + m[at + |bytes|..]
    ensures Linked(n, bs, start, end) && Changed(m, bs, n, bs, bs[i].Payload())
  {
    var p, at := bs[i].Payload(), bs[i].Payload() + offset;
    hide Aligned, Tiles, Stored, FitsBut, Changed;
    InUse(bs, start, end, i);
    WriteOutside(m, n, at, bytes);
    hide SameOutside;
    WiderOutside(m, n, at, at + |bytes|, p, bs[i].End());
    PayloadStep(m, n, bs, start, end, i);
  }

  lemma ChangedApart(m: Memory, bs: seq<Block>, start: nat, end: nat,
                     n: Memory, cs: seq<Block>, start': nat, end': nat, p: nat)
    requires Tiles(bs, start, end) && FitsBut(bs, 0) && end <= |m|
    requires Tiles(cs, start', end') && FitsBut(cs, 0) && end' <= |n| && Changed(m, bs, n, cs, p)
    ensures View(m, bs, start, end) - {p} == View(n, cs, start', end') - {p}
  {
    ViewApart(m, bs, start, end, n, cs, start', end', p);
  }

  /** The common beginning of two payload slices. */
  lemma SamePieces(m: Memory, n: Memory, p: nat, a: nat, b: nat, kept: nat)
    requires p + a <= |m| && p + b <= |n| && SamePrefix(m, n, p, kept) && (a <= kept || b <= kept)
    ensures var k := if a < b then a else b; m[p..p + a][..k] == n[p..p + b][..k]
  {
    var k := if a < b then a else b;
    ShorterPrefix(m, n, p, kept, k);
    SubSlice(m, p, p + a, 0, k);
    SubSlice(n, p, p + b, 0, k);
  }

  lemma ChangedView(m: Memory, n: Memory, bs: seq<Block>, start: nat, end: nat, p: nat)
    requires Tiles(bs, start, end) && FitsBut(bs, 0) && end <= |m| && end <= |n| && Changed(m, bs, n, bs, p)
    ensures View(m, bs, start, end) - {p} == View(n, bs, start, end) - {p}
  {
    ViewApart(m, bs, start, end, n, bs, start, end, p);
  }

  lemma WriteOutside(m: Memory, n: Memory, at: nat, bytes: seq<byte>)
    requires at + |bytes| <= |m| && n == m[..at] + bytes + m[at + |bytes|..]
    ensures SameOutside(m, n, at, at + |bytes|)
  {
  }

  lemma WrittenSlice(m: Memory, n: Memory, p: nat, size: nat, offset: nat, bytes: seq<byte>)
    requires offset + |bytes| <= size && p + size <= |m| && |n| == |m|
    requires var at := p + offset; n == m[..at] + bytes + m[at + |bytes|..]
    ensures n[p..p + size] == m[p..p + size][..offset] + bytes + m[p..p + size][offset + |bytes|..]
  {
    var was, now, at := m[p..p + size], n[p..p + size], p + offset;
    assert n[..at] == m[..at] && n[at..at + |bytes|] == bytes && n[at + |bytes|..] == m[at + |bytes|..];
    forall k | 0 <= k < size ensures now[k] == (was[..offset] + bytes + was[offset + |bytes|..])[k] {
      assert now[k] == n[p + k];
      if k < offset {
        assert n[p + k] == n[..at][p + k] == m[..at][p + k] == was[k];
      } else if k < offset + |bytes| {
        assert n[p + k] == n[at..at + |bytes|][k - offset];
      } else {
        assert n[p + k] == n[at + |bytes|..][k - offset - |bytes|] == m[at + |bytes|..][k - offset - |bytes|] == was[k];
      }
    }
  }

  lemma HeaderRequested(m: Memory, bs: seq<Block>, start: nat, end: nat, i: nat)
    requires Linked(m, bs, start, end) && i < |bs|
    ensures bs[i].addr + HEADER <= |m| && Load(m, bs[i].addr + REQUESTED) == bs[i].requested
  {
    ReadHeader(m, bs, start, end, i);
  }
}
