/** The allocator's block list as a value: what it means for a sequence of blocks to tile the
    heap, how splitting and merging change it, and how it is stored in-band in memory. */
module BlockList {
  import opened ByteMemory

  const HEADER := 32
  const ALIGNMENT := 16

  // Byte offsets of the header fields; the size comes first.
  const NEXT := 8
  const FREE := 16
  const REQUESTED := 24

  datatype Block = Block(addr: nat, size: nat, free: bool, requested: nat) {
    function Payload(): nat { addr + HEADER }
    function End(): nat { addr + HEADER + size }
  }

  // ----- Tiling

  predicate Aligned(n: nat) {
    n % ALIGNMENT == 0
  }

  lemma Multiple(k: nat)
    ensures Aligned(ALIGNMENT * k)
  {
  }

  lemma AlignedSum(a: nat, b: nat)
    ensures Aligned(a) && Aligned(b) ==> Aligned(a + b) && (b <= a ==> Aligned(a - b))
    ensures Aligned(HEADER)
  {
    if Aligned(a) && Aligned(b) {
      var p, q := a / ALIGNMENT, b / ALIGNMENT;
      assert a == ALIGNMENT * p && b == ALIGNMENT * q;
      hide Aligned;
      Multiple(p + q);
      if b <= a {
        Multiple(p - q);
      }
    }
    Multiple(2);
  }

  predicate GoodBlock(b: Block) {
    Aligned(b.addr) && Aligned(b.size) && 0 < b.size
  }

  /** A block in use is large enough for what was asked of it, and no header and unit of payload are left over. */
  predicate Fits(b: Block) {
    b.free || 0 < b.requested <= b.size < b.requested + HEADER + ALIGNMENT
  }

  /** A size that is not worth cutting down to the least multiple of 16 fits the request. */
  lemma Snug(size: nat, requested: nat, aligned: nat)
    requires Aligned(size) && Aligned(aligned) && aligned < requested + ALIGNMENT && size < aligned + HEADER + ALIGNMENT
    ensures size < requested + HEADER + ALIGNMENT
  {
  }

  /** Every block except the one at `ptr` fits its request. */
  ghost predicate FitsBut(bs: seq<Block>, ptr: nat) {
    forall b :: b in bs && b.Payload() != ptr ==> Fits(b)
  }

  function NextAddr(bs: seq<Block>, i: nat, end: nat): nat {
    if i + 1 < |bs| then bs[i + 1].addr else end
  }

  /** Block i is well formed and ends where the next one starts. */
  predicate Placed(bs: seq<Block>, i: nat, end: nat)
    requires i < |bs|
  {
    GoodBlock(bs[i]) && bs[i].End() == NextAddr(bs, i, end)
  }

  /** The blocks are well formed and cover [start, end) in address order without gap or overlap. */
  ghost predicate Tiles(bs: seq<Block>, start: nat, end: nat) {
    && 0 < start && Aligned(start)
    && start == (if bs == [] then end else bs[0].addr)
    && forall i :: 0 <= i < |bs| ==> Placed(bs, i, end)
  }

  /** No two neighbouring blocks are both free. */
  ghost predicate Coalesced(bs: seq<Block>) {
    forall i :: 0 <= i < |bs| - 1 ==> !(bs[i].free && bs[i + 1].free)
  }

  lemma {:induction false} Ordered(bs: seq<Block>, start: nat, end: nat, i: nat, j: nat)
    requires Tiles(bs, start, end) && i < j < |bs|
    ensures bs[i].End() <= bs[j].addr
    decreases j - i
  {
    assert Placed(bs, i, end);
    if i + 1 < j {
      Ordered(bs, start, end, i + 1, j);
    }
  }

  lemma {:induction false} Within(bs: seq<Block>, start: nat, end: nat, i: nat)
    requires Tiles(bs, start, end) && i < |bs|
    ensures start <= bs[i].addr && bs[i].End() <= end
  {
    if 0 < i {
      Ordered(bs, start, end, 0, i);
    }
    if i < |bs| - 1 {
      Ordered(bs, start, end, i, |bs| - 1);
      assert Placed(bs, |bs| - 1, end);
    } else {
      assert Placed(bs, i, end);
    }
  }

  lemma EndAligned(bs: seq<Block>, start: nat, end: nat)
    requires Tiles(bs, start, end)
    ensures start <= end && Aligned(end)
  {
    if bs != [] {
      var last := |bs| - 1;
      assert Placed(bs, last, end);
      Within(bs, start, end, last);
      AlignedSum(bs[last].addr, bs[last].size);
      AlignedSum(bs[last].addr + bs[last].size, HEADER);
    }
  }

  // ----- List operations

  /** Block i is cut to `size` bytes; the rest becomes a free block behind it. */
  function SplitBlocks(bs: seq<Block>, i: nat, size: nat): seq<Block>
    requires i < |bs| && size + HEADER <= bs[i].size
  {
    bs[..i] + [bs[i].(size := size), Block(bs[i].Payload() + size, bs[i].size - size - HEADER, true, 0)]
            + bs[i + 1..]
  }

  /** Block i takes over its right neighbour. */
  function MergeBlocks(bs: seq<Block>, i: nat): seq<Block>
    requires i + 1 < |bs|
  {
    bs[..i] + [bs[i].(size := bs[i].size + HEADER + bs[i + 1].size)] + bs[i + 2..]
  }

  lemma SplitTiles(bs: seq<Block>, start: nat, end: nat, i: nat, size: nat)
    requires Tiles(bs, start, end) && i < |bs|
    requires 0 < size && Aligned(size) && size + HEADER + ALIGNMENT <= bs[i].size
    ensures Tiles(SplitBlocks(bs, i, size), start, end)
  {
    hide Aligned;
    var cs := SplitBlocks(bs, i, size);
    AlignedSum(bs[i].addr, HEADER);
    AlignedSum(bs[i].Payload(), size);
    AlignedSum(bs[i].size, size);
    AlignedSum(bs[i].size - size, HEADER);
    forall k | 0 <= k < |cs| ensures Placed(cs, k, end) {
      assert Placed(bs, i, end);
      if k < i {
        assert Placed(bs, k, end);
      } else if k > i + 1 {
        assert Placed(bs, k - 1, end);
      }
    }
  }

  lemma MergeTiles(bs: seq<Block>, start: nat, end: nat, i: nat)
    requires Tiles(bs, start, end) && i + 1 < |bs|
    ensures Tiles(MergeBlocks(bs, i), start, end)
  {
    hide Aligned;
    var cs := MergeBlocks(bs, i);
    AlignedSum(bs[i].size, HEADER);
    AlignedSum(bs[i].size + HEADER, bs[i + 1].size);
    forall k | 0 <= k < |cs| ensures Placed(cs, k, end) {
      assert Placed(bs, i, end);
      assert Placed(bs, i + 1, end);
      if k < i {
        assert Placed(bs, k, end);
      } else if k > i {
        assert Placed(bs, k + 1, end);
      }
    }
  }

  // ----- Live allocations

  /** The live allocations: payload address and requested size of every block in use. */
  ghost function Live(bs: seq<Block>): set<(nat, nat)> {
    set b | b in bs && !b.free :: (b.Payload(), b.requested)
  }

  lemma LiveConcat(a: seq<Block>, b: seq<Block>)
    ensures Live(a + b) == Live(a) + Live(b)
  {
    forall x | x in Live(a) + Live(b) ensures x in Live(a + b) {
      if x in Live(a) {
        var c :| c in a && !c.free && x == (c.Payload(), c.requested);
        assert c in a + b;
      } else {
        var c :| c in b && !c.free && x == (c.Payload(), c.requested);
        assert c in a + b;
      }
    }
  }

  /** Replacing the blocks in the middle replaces exactly their live allocations. */
  lemma LiveSplice(left: seq<Block>, mid: seq<Block>, right: seq<Block>)
    ensures Live(left + mid + right) == Live(left) + Live(mid) + Live(right)
  {
    LiveConcat(left + mid, right);
    LiveConcat(left, mid);
  }

  /** Cutting a free tail off a block leaves the live set alone. */
  lemma SplitLive(bs: seq<Block>, i: nat, size: nat)
    requires i < |bs| && size + HEADER <= bs[i].size
    ensures Live(SplitBlocks(bs, i, size)) == Live(bs)
  {
    hide Live;
    var head, tail := bs[i].(size := size), Block(bs[i].Payload() + size, bs[i].size - size - HEADER, true, 0);
    assert bs == bs[..i] + [bs[i]] + bs[i + 1..];
    LiveSplice(bs[..i], [bs[i]], bs[i + 1..]);
    LiveSplice(bs[..i], [head] + [tail], bs[i + 1..]);
    assert [head] + [tail] == [head, tail];
    LiveConcat([head], [tail]);
    SingleLive(head);
    SingleLive(tail);
    SingleLive(bs[i]);
  }

  /** Taking over a free neighbour leaves the live set alone. */
  lemma MergeLive(bs: seq<Block>, i: nat)
    requires i + 1 < |bs| && bs[i + 1].free
    ensures Live(MergeBlocks(bs, i)) == Live(bs)
  {
    hide Live;
    var grown := bs[i].(size := bs[i].size + HEADER + bs[i + 1].size);
    assert bs == bs[..i] + ([bs[i]] + [bs[i + 1]]) + bs[i + 2..];
    LiveSplice(bs[..i], [bs[i]] + [bs[i + 1]], bs[i + 2..]);
    LiveSplice(bs[..i], [grown], bs[i + 2..]);
    LiveConcat([bs[i]], [bs[i + 1]]);
    SingleLive(grown);
    SingleLive(bs[i]);
    SingleLive(bs[i + 1]);
  }

  /** Changing block i in place changes the live set at its payload only. */
  lemma ReplaceLive(bs: seq<Block>, i: nat, b: Block)
    requires i < |bs| && b.addr == bs[i].addr
    ensures forall x: (nat, nat) :: x.0 != b.Payload() ==> (x in Live(bs) <==> x in Live(bs[i := b]))
    ensures !b.free ==> (b.Payload(), b.requested) in Live(bs[i := b])
  {
    assert bs == bs[..i] + [bs[i]] + bs[i + 1..];
    assert bs[i := b] == bs[..i] + [b] + bs[i + 1..];
    LiveSplice(bs[..i], [bs[i]], bs[i + 1..]);
    LiveSplice(bs[..i], [b], bs[i + 1..]);
    SingleLive(b);
    SingleLive(bs[i]);
  }

  /** A payload address belongs to one block, so a free block's is not live. */
  lemma FreeNotLive(bs: seq<Block>, start: nat, end: nat, i: nat, x: (nat, nat))
    requires Tiles(bs, start, end) && i < |bs| && x in Live(bs) && x.0 == bs[i].Payload()
    ensures !bs[i].free && x.1 == bs[i].requested
  {
    hide Aligned;
    var j := LiveIndex(bs, x);
    if j < i {
      Ordered(bs, start, end, j, i);
    } else if i < j {
      Ordered(bs, start, end, i, j);
    }
  }

  lemma SingleLive(b: Block)
    ensures Live([b]) == if b.free then {} else {(b.Payload(), b.requested)}
  {
    assert b in [b];
  }

  /** Live payloads are aligned, non-empty, inside the heap and pairwise disjoint. */
  lemma LiveDisjoint(bs: seq<Block>, start: nat, end: nat, x: (nat, nat), y: (nat, nat))
    requires Tiles(bs, start, end) && FitsBut(bs, 0) && x in Live(bs) && y in Live(bs)
    ensures Aligned(x.0) && 0 < x.1 && start + HEADER <= x.0 && x.0 + x.1 <= end
    ensures x == y || x.0 + x.1 <= y.0 || y.0 + y.1 <= x.0
  {
    hide Aligned;
    var i := LiveIndex(bs, x);
    var j := LiveIndex(bs, y);
    InUse(bs, start, end, i);
    InUse(bs, start, end, j);
    if i < j {
      Ordered(bs, start, end, i, j);
    } else if j < i {
      Ordered(bs, start, end, j, i);
    }
  }

  lemma InUse(bs: seq<Block>, start: nat, end: nat, i: nat)
    requires Tiles(bs, start, end) && FitsBut(bs, 0) && i < |bs| && !bs[i].free
    ensures Aligned(bs[i].Payload()) && start <= bs[i].addr
    ensures 0 < bs[i].requested && bs[i].Payload() + bs[i].requested <= bs[i].End() <= end
  {
    assert Placed(bs, i, end) && bs[i].Payload() != 0;
    hide Aligned;
    Within(bs, start, end, i);
    AlignedSum(bs[i].addr, HEADER);
  }

  lemma LiveIndex(bs: seq<Block>, x: (nat, nat)) returns (i: nat)
    requires x in Live(bs)
    ensures i < |bs| && !bs[i].free && x == (bs[i].Payload(), bs[i].requested)
  {
    var b :| b in bs && !b.free && x == (b.Payload(), b.requested);
    i :| 0 <= i < |bs| && bs[i] == b;
  }

  // ----- Headers in memory

  function FreeWord(free: bool): nat { if free then 1 else 0 }

  /** The 32 header bytes at `b.addr` hold the block's fields and the link to `next`. */
  predicate HeaderHolds(m: Memory, b: Block, next: nat) {
    && b.addr + HEADER <= |m|
    && Load(m, b.addr) == b.size
    && Load(m, b.addr + NEXT) == next
    && Load(m, b.addr + FREE) == FreeWord(b.free)
    && Load(m, b.addr + REQUESTED) == b.requested
  }

  predicate HeaderAt(m: Memory, bs: seq<Block>, i: nat)
    requires i < |bs|
  {
    HeaderHolds(m, bs[i], NextAddr(bs, i, 0))
  }

  ghost predicate Stored(m: Memory, bs: seq<Block>) {
    forall i :: 0 <= i < |bs| ==> HeaderAt(m, bs, i)
  }

  lemma HeaderFromSlice(m: Memory, n: Memory, b: Block, next: nat)
    requires HeaderHolds(m, b, next) && b.addr + HEADER <= |n|
    requires m[b.addr..b.addr + HEADER] == n[b.addr..b.addr + HEADER]
    ensures HeaderHolds(n, b, next)
  {
    SameWord(m, n, b.addr, 0);
    SameWord(m, n, b.addr, 8);
    SameWord(m, n, b.addr, 16);
    SameWord(m, n, b.addr, 24);
  }

  lemma SameWord(m: Memory, n: Memory, a: nat, k: nat)
    requires a + HEADER <= |m| && a + HEADER <= |n| && k + WORD_BYTES <= HEADER
    requires m[a..a + HEADER] == n[a..a + HEADER]
    ensures Load(m, a + k) == Load(n, a + k)
  {
    SubSlice(m, a, a + HEADER, k, k + WORD_BYTES);
    SubSlice(n, a, a + HEADER, k, k + WORD_BYTES);
  }

  lemma SubSlice(m: Memory, a: nat, b: nat, i: nat, j: nat)
    requires a <= a + i <= a + j <= b <= |m|
    ensures m[a..b][i..j] == m[a + i..a + j]
  {
    assert forall k :: 0 <= k < j - i ==> m[a..b][i..j][k] == m[a + i..a + j][k];
  }

  ghost function Pointers(bs: seq<Block>): set<nat> {
    set x | x in Live(bs) :: x.0
  }

  ghost function RequestedAt(bs: seq<Block>, p: nat): nat
    requires p in Pointers(bs)
  {
    var x :| x in Live(bs) && x.0 == p;
    x.1
  }

  /** The contents of every live allocation, keyed by its address. */
  ghost function View(m: Memory, bs: seq<Block>, start: nat, end: nat): map<nat, seq<byte>>
    requires Tiles(bs, start, end) && FitsBut(bs, 0) && end <= |m|
  {
    LiveInjective(bs, start, end);
    map p | p in Pointers(bs) :: m[p..p + RequestedAt(bs, p)]
  }

  lemma LiveInjective(bs: seq<Block>, start: nat, end: nat)
    requires Tiles(bs, start, end) && FitsBut(bs, 0)
    ensures forall x, y :: x in Live(bs) && y in Live(bs) && x.0 == y.0 ==> x == y
    ensures forall x :: x in Live(bs) ==> x.0 + x.1 <= end
  {
    hide Aligned, Tiles, FitsBut;
    forall x, y | x in Live(bs) && y in Live(bs) ensures (x.0 == y.0 ==> x == y) && x.0 + x.1 <= end {
      LiveDisjoint(bs, start, end, x, y);
      LiveDisjoint(bs, start, end, y, x);
    }
  }

  // ----- Fit and coalescing under the list operations

  lemma SplitFits(bs: seq<Block>, i: nat, size: nat, p: nat)
    requires i < |bs| && size + HEADER <= bs[i].size && FitsBut(bs, p) && (bs[i].free || bs[i].Payload() == p)
    ensures FitsBut(SplitBlocks(bs, i, size), p)
  {
    forall b | b in SplitBlocks(bs, i, size) && b.Payload() != p ensures Fits(b) {
      if b !in bs {
        assert b == bs[i].(size := size) || b.free;
      }
    }
  }

  lemma MergeFits(bs: seq<Block>, i: nat, p: nat)
    requires i + 1 < |bs| && FitsBut(bs, p) && (bs[i].free || bs[i].Payload() == p)
    ensures FitsBut(MergeBlocks(bs, i), p)
  {
    assert bs[i] in bs;
  }

  /** No two free neighbours, except perhaps at positions `e`, `e + 1`. */
  ghost predicate CoalescedBut(bs: seq<Block>, e: int) {
    forall k :: 0 <= k < |bs| - 1 && k != e ==> !(bs[k].free && bs[k + 1].free)
  }

  /** Merging the only free pair leaves none, apart from a pair to its left. */
  lemma MergeCoalesced(bs: seq<Block>, i: nat)
    requires i + 1 < |bs| && bs[i + 1].free
    requires forall k :: 0 <= k < |bs| - 1 && k != i && k != i - 1 ==> !(bs[k].free && bs[k + 1].free)
    ensures CoalescedBut(MergeBlocks(bs, i), i - 1)
  {
    var cs := MergeBlocks(bs, i);
    forall k | 0 <= k < |cs| - 1 && k != i - 1 ensures !(cs[k].free && cs[k + 1].free) {
      if k == i {
        assert !(bs[i + 1].free && bs[i + 2].free);
      } else if k < i {
        assert cs[k] == bs[k] && cs[k + 1] == bs[k + 1];
      } else {
        assert cs[k] == bs[k + 1] && cs[k + 1] == bs[k + 2];
      }
    }
  }

  /** Which index has the last address. */
  lemma TailIndex(bs: seq<Block>, start: nat, end: nat, i: nat)
    requires Tiles(bs, start, end) && i < |bs|
    ensures bs[|bs| - 1].addr == bs[i].addr <==> i == |bs| - 1
    ensures 0 < bs[i].addr
  {
    hide Aligned;
    Within(bs, start, end, i);
    if i < |bs| - 1 {
      Ordered(bs, start, end, i, |bs| - 1);
    }
  }

  /** Reusing block i, cut or whole, leaves no free pair. */
  lemma ReuseCoalesced(bs: seq<Block>, cs: seq<Block>, i: nat, b: Block)
    requires Coalesced(bs) && i < |bs| && bs[i].free && !b.free && i < |cs|
    requires cs == bs || exists size: nat :: size + HEADER <= bs[i].size && cs == SplitBlocks(bs, i, size)
    ensures Coalesced(cs[i := b])
  {
    var ds := cs[i := b];
    forall k | 0 <= k < |ds| - 1 ensures !(ds[k].free && ds[k + 1].free) {
      if cs != bs {
        if k > i + 1 {
          assert ds[k] == bs[k - 1] && ds[k + 1] == bs[k];
        } else if k == i + 1 {
          assert ds[k + 1] == bs[i + 1] && !(bs[i].free && bs[i + 1].free);
        } else if k + 1 < i {
          assert ds[k] == bs[k] && ds[k + 1] == bs[k + 1];
        }
      }
    }
  }

  lemma AppendCoalesced(bs: seq<Block>, b: Block)
    requires Coalesced(bs) && !b.free
    ensures Coalesced(bs + [b])
  {
  }

  /** After block i is freed and merged with its right neighbour, only the pair to its left may be free. */
  lemma FreedCoalesced(bs: seq<Block>, i: nat)
    requires Coalesced(bs) && i < |bs| && !bs[i].free
    ensures var cs := bs[i := bs[i].(free := true)];
      CoalescedBut(if i + 1 < |bs| && bs[i + 1].free then MergeBlocks(cs, i) else cs, i - 1)
  {
    var cs := bs[i := bs[i].(free := true)];
    forall k | 0 <= k < |cs| - 1 && k != i && k != i - 1 ensures !(cs[k].free && cs[k + 1].free) {
      assert cs[k] == bs[k] && cs[k + 1] == bs[k + 1];
    }
    if i + 1 < |bs| && bs[i + 1].free {
      MergeCoalesced(cs, i);
    }
  }

  /** Then the merge to the left, when there is one, leaves none. */
  lemma LeftCoalesced(bs: seq<Block>, i: nat)
    requires CoalescedBut(bs, i - 1) && i < |bs| && bs[i].free
    ensures (i == 0 || !bs[i - 1].free) ==> Coalesced(bs)
    ensures 0 < i && bs[i - 1].free ==> Coalesced(MergeBlocks(bs, i - 1))
  {
    if 0 < i && bs[i - 1].free {
      MergeCoalesced(bs, i - 1);
      var cs := MergeBlocks(bs, i - 1);
      if 2 <= i {
        assert !bs[i - 2].free && cs[i - 2] == bs[i - 2];
      }
    }
  }

  lemma FlagCoalesced(bs: seq<Block>, i: nat, b: Block)
    requires Coalesced(bs) && i < |bs| && b.free == bs[i].free
    ensures Coalesced(bs[i := b])
  {
    var cs := bs[i := b];
    forall k | 0 <= k < |cs| - 1 ensures !(cs[k].free && cs[k + 1].free) {
      assert !(bs[k].free && bs[k + 1].free);
    }
  }

  /** Cutting a block in use and merging the cut-off part to its right leaves no free pair. */
  lemma TrimCoalesced(bs: seq<Block>, i: nat, size: nat)
    requires Coalesced(bs) && i < |bs| && !bs[i].free && size + HEADER <= bs[i].size
    ensures var cs := SplitBlocks(bs, i, size);
      Coalesced(if i + 2 < |cs| && cs[i + 2].free then MergeBlocks(cs, i + 1) else cs)
  {
    var cs := SplitBlocks(bs, i, size);
    forall k | 0 <= k < |cs| - 1 && k != i + 1 ensures !(cs[k].free && cs[k + 1].free) {
      if k > i + 1 {
        assert cs[k] == bs[k - 1] && cs[k + 1] == bs[k];
      } else if k + 1 < i {
        assert cs[k] == bs[k] && cs[k + 1] == bs[k + 1];
      }
    }
    if i + 2 < |cs| && cs[i + 2].free {
      MergeCoalesced(cs, i + 1);
    }
  }

  /** A block in use that takes over its free neighbour has no free pair beside it. */
  lemma GrownCoalesced(bs: seq<Block>, i: nat)
    requires Coalesced(bs) && i + 1 < |bs| && !bs[i].free && bs[i + 1].free
    ensures Coalesced(MergeBlocks(bs, i))
  {
    MergeCoalesced(bs, i);
  }
}
