/** Whole runs of a program against the allocator, and what holds in every heap it can reach. */
module AllocatorRuns {
  import opened ByteMemory
  import opened BlockList
  import opened HeapImage
  import opened Allocator

  type Contents = map<nat, seq<byte>>

  datatype Op =
    | Malloc(size: Word)
    | Free(ptr: nat)
    | Realloc(ptr: nat, newSize: Word)
    | Write(ptr: nat, offset: nat, bytes: seq<byte>)
    | TryResize(ptr: nat, newSize: Word)            // the pieces of a realloc that others may come between:
    | Copy(from: nat, ptr: nat, count: nat)         // its first critical section, and the copy to a new block

  /** The caller's duty: pointers are null or live, writes stay inside the request. */
  predicate Permitted(v: Contents, op: Op) {
    match op
    case Malloc(_) => true
    case Free(p) => p == 0 || p in v
    case Realloc(p, _) => p == 0 || p in v
    case Write(p, offset, bytes) => p in v && offset + |bytes| <= |v[p]|
    case TryResize(p, size) => p in v && 0 < size <= SIZE_MAX - (ALIGNMENT - 1)
    case Copy(from, p, count) => from in v && p in v && count <= |v[from]| && count <= |v[p]|
  }

  /** The ideal heap: what one call may do to the contents, whatever the kernel answers. */
  ghost predicate Step(v: Contents, op: Op, w: Contents) {
    if !Permitted(v, op) then w == v
    else match op
      case Malloc(size) => exists r :: Fresh(v, w, r, size)
      case Free(p) => w == v - {p}
      case Realloc(p, size) =>
        if p == 0 then exists r :: Fresh(v, w, r, size)
        else if size == 0 then w == v - {p}
        else exists r :: Resized(v, w, p, r, size)
      case Write(p, offset, bytes) => w == v[p := v[p][..offset] + bytes + v[p][offset + |bytes|..]]
      case TryResize(p, size) => w == v || Resized(v, w, p, p, size)
      case Copy(from, p, count) => w == v[p := v[from][..count] + v[p][count..]]
  }

  ghost predicate Run(trace: seq<Contents>, ops: seq<Op>) {
    |trace| == |ops| + 1 && forall k :: 0 <= k < |ops| ==> Step(trace[k], ops[k], trace[k + 1])
  }

  /** The program's own record of what it holds: each live pointer and its size. */
  ghost predicate Knows(live: map<nat, nat>, v: Contents) {
    live.Keys == v.Keys && forall p :: p in v ==> live[p] == |v[p]|
  }

  lemma KnowsFresh(live: map<nat, nat>, v: Contents, w: Contents, r: nat, size: nat)
    requires Knows(live, v) && Fresh(v, w, r, size)
    ensures Knows(if r == 0 then live else live[r := size], w)
  {
    if r != 0 {
      forall p | p in w && p != r ensures p in v && v[p] == w[p] {
        assert p in w - {r};
      }
      forall p | p in v ensures p in w {
        assert p in w - {r};
      }
    }
  }

  lemma KnowsResized(live: map<nat, nat>, v: Contents, w: Contents, ptr: nat, r: nat, size: nat)
    requires Knows(live, v) && ptr in v && Resized(v, w, ptr, r, size)
    ensures Knows(if r == 0 then live else (live - {ptr})[r := size], w)
  {
    if r != 0 {
      forall p | p in w && p != r ensures p in v && p != ptr && v[p] == w[p] {
        assert p in w - {r} && (w - {r})[p] == (v - {ptr})[p];
      }
      forall p | p in v && p != ptr ensures p in w {
        assert p in v - {ptr};
      }
    }
  }

  /** One call by a program that keeps to its own pointers. */
  method Apply(h: Heap, op: Op, live: map<nat, nat>) returns (live': map<nat, nat>)
    requires h.Valid() && Knows(live, h.Contents())
    modifies h
    ensures h.Valid() && Knows(live', h.Contents())
    ensures Step(old(h.Contents()), op, h.Contents())
  {
    hide h.Valid, h.Contents, Fresh, Resized;
    ghost var v := h.Contents();
    live' := live;
    match op
    case Malloc(size) =>
      var r := h.Malloc(size);
      KnowsFresh(live, v, h.Contents(), r, size);
      if r != 0 { live' := live[r := size]; }
    case Free(p) =>
      if p == 0 || p in live {
        h.Free(p);
        live' := live - {p};
      }
    case Realloc(p, size) =>
      if p == 0 || p in live {
        var r := h.Realloc(p, size);
        if p == 0 {
          KnowsFresh(live, v, h.Contents(), r, size);
          if r != 0 { live' := live[r := size]; }
        } else if size == 0 {
          live' := live - {p};
        } else {
          KnowsResized(live, v, h.Contents(), p, r, size);
          if r != 0 { live' := (live - {p})[r := size]; }
        }
      }
    case Write(p, offset, bytes) =>
      if p in live && offset + |bytes| <= live[p] {
        h.WriteBytes(p, offset, bytes);
      }
    case TryResize(p, size) =>
      if p in live && 0 < size <= SIZE_MAX - (ALIGNMENT - 1) {
        var ok, _ := h.TryResize(p, size);
        if ok {
          KnowsResized(live, v, h.Contents(), p, p, size);
          live' := (live - {p})[p := size];
        }
      }
    case Copy(from, p, count) =>
      if from in live && p in live && count <= live[from] && count <= live[p] {
        var bytes := h.ReadBytes(from, count);
        h.WriteBytes(p, 0, bytes);
        assert v[p][..0] + bytes + v[p][0 + |bytes|..] == v[from][..count] + v[p][count..];
      }
  }

  /** Any sequence of calls, with the kernel refusing whenever it likes, is a run of the ideal heap. */
  method RunProgram(h: Heap, ops: seq<Op>) returns (ghost trace: seq<Contents>)
    requires h.Valid() && h.Contents() == map[]
    modifies h
    ensures h.Valid() && Run(trace, ops)
    ensures trace[0] == map[] && trace[|ops|] == h.Contents()
  {
    hide h.Valid, h.Contents, Step;
    trace := [h.Contents()];
    var live: map<nat, nat> := map[];
    for i := 0 to |ops|
      invariant h.Valid() && Knows(live, h.Contents())
      invariant Run(trace, ops[..i]) && trace[0] == map[] && trace[i] == h.Contents()
    {
      live := Apply(h, ops[i], live);
      trace := trace + [h.Contents()];
    }
    assert ops[..|ops|] == ops;
  }

  predicate Names(op: Op, p: nat) {
    match op
    case Malloc(_) => false
    case Free(q) => q == p
    case Realloc(q, _) => q == p
    case Write(q, _, _) => q == p
    case TryResize(q, _) => q == p
    case Copy(_, q, _) => q == p
  }

  /** A call that does not name a live pointer leaves it live, with its bytes. */
  lemma StepKeeps(v: Contents, op: Op, w: Contents, p: nat)
    requires Step(v, op, w) && p in v && !Names(op, p)
    ensures p in w && w[p] == v[p]
  {
    if Permitted(v, op) {
      match op
      case Malloc(size) =>
        var r: nat :| Fresh(v, w, r, size);
        FreshKeeps(v, w, r, size, p);
      case Realloc(q, size) =>
        if q == 0 {
          var r: nat :| Fresh(v, w, r, size);
          FreshKeeps(v, w, r, size, p);
        } else if size != 0 {
          var r: nat :| Resized(v, w, q, r, size);
          if r != 0 {
            assert p in v - {q} && (w - {r})[p] == (v - {q})[p];
          }
        }
      case TryResize(q, size) =>
        if w != v {
          assert p in v - {q} && (w - {q})[p] == (v - {q})[p];
        }
      case _ =>
    }
  }

  /** No run ever disturbs live bytes: between two points with no call naming `p`, `p` stays live
      and keeps its contents. */
  lemma {:induction false} Undisturbed(trace: seq<Contents>, ops: seq<Op>, p: nat, a: nat, b: nat)
    requires Run(trace, ops) && a <= b <= |ops| && p in trace[a]
    requires forall k :: a <= k < b ==> !Names(ops[k], p)
    ensures p in trace[b] && trace[b][p] == trace[a][p]
    decreases b - a
  {
    if a < b {
      Undisturbed(trace, ops, p, a, b - 1);
      StepKeeps(trace[b - 1], ops[b - 1], trace[b], p);
    }
  }

  /** A realloc that moves, in its pieces at t, a, b and c, with any calls of other threads between
      them: as long as those name neither block, the effect is that of one realloc. */
  lemma MoveAmongOthers(trace: seq<Contents>, ops: seq<Op>, t: nat, a: nat, b: nat, c: nat, p: nat, r: nat, size: Word)
    requires Run(trace, ops) && t < a < b < c < |ops| && p in trace[t]
    requires ops[t] == TryResize(p, size) && trace[t + 1] == trace[t]
    requires ops[a] == Malloc(size) && Fresh(trace[a], trace[a + 1], r, size) && r != 0
    requires ops[b] == Copy(p, r, Min(|trace[t][p]|, size)) && ops[c] == Free(p)
    requires forall k :: t < k < c ==> !Names(ops[k], p)
    requires forall k :: a < k < c && k != b ==> !Names(ops[k], r)
    ensures p !in trace[c + 1] && r in trace[c + 1] && |trace[c + 1][r]| == size
    ensures trace[c + 1][r][..Min(|trace[t][p]|, size)] == trace[t][p][..Min(|trace[t][p]|, size)]
  {
    Undisturbed(trace, ops, p, t + 1, a);
    Undisturbed(trace, ops, p, a, b);
    Undisturbed(trace, ops, p, b, c);
    FreshMeans(trace[a], trace[a + 1], r, size);
    Undisturbed(trace, ops, r, a + 1, b);
    hide Fresh;
    var k, v := Min(|trace[t][p]|, size), trace[b];
    assert Permitted(v, ops[b]) && Step(v, ops[b], trace[b + 1]);
    assert trace[b + 1][r] == v[p][..k] + v[r][k..];
    Undisturbed(trace, ops, r, b + 1, c);
    assert Permitted(trace[c], ops[c]) && Step(trace[c], ops[c], trace[c + 1]);
    assert r != p;
  }

  lemma FreshMeans(v: Contents, w: Contents, r: nat, size: nat)
    requires Fresh(v, w, r, size) && r != 0
    ensures r !in v && r in w && |w[r]| == size
  {
  }

  /** Live payloads are aligned, inside the heap, and pairwise disjoint. */
  lemma PayloadsDisjoint(h: Heap, p: nat, q: nat)
    requires h.Valid() && p in h.Contents() && q in h.Contents()
    ensures p % 16 == 0 && 0 < |h.Contents()[p]|
    ensures h.heapStart + HEADER <= p && p + |h.Contents()[p]| <= h.heapEnd
    ensures p != q ==> p + |h.Contents()[p]| <= q || q + |h.Contents()[q]| <= p
  {
    var x := ViewKey(h.mem, h.blocks, h.heapStart, h.tiled, p);
    var y := ViewKey(h.mem, h.blocks, h.heapStart, h.tiled, q);
    LiveDisjoint(h.blocks, h.heapStart, h.tiled, x, y);
  }

  // ----- The block list as memory holds it

  /** The list as any reader of memory sees it: follow the links from `a`. */
  function Walk(m: Memory, a: nat): seq<Block>
    decreases |m| - a
  {
    if a == 0 || a + HEADER > |m| then []
    else
      [Block(a, Load(m, a), Load(m, a + FREE) != 0, Load(m, a + REQUESTED))]
      + (if a < Load(m, a + NEXT) then Walk(m, Load(m, a + NEXT)) else [])
  }

  lemma {:induction false} WalkFrom(m: Memory, bs: seq<Block>, start: nat, end: nat, i: nat)
    requires Linked(m, bs, start, end) && i < |bs|
    ensures Walk(m, bs[i].addr) == bs[i..]
    decreases |bs| - i
  {
    hide Tiles, Stored, Aligned, Load;
    ReadHeader(m, bs, start, end, i);
    if i + 1 < |bs| {
      WalkFrom(m, bs, start, end, i + 1);
      assert bs[i..] == [bs[i]] + bs[i + 1..];
    } else {
      assert bs[i..] == [bs[i]];
    }
  }

  /** In every reachable heap the blocks read from memory tile it exactly, sizes are positive
      multiples of 16, the tail pointer is the last block, no two free blocks are neighbours, and no
      block in use has room for a header and another 16 bytes behind what was asked of it. */
  lemma ListInMemory(h: Heap)
    requires h.Valid() && h.heapInitialized
    ensures var bs := Walk(h.mem, h.blockHead);
      && (bs == [] ==> h.blockTail == 0 && h.heapStart == h.heapEnd)
      && (bs != [] ==> bs[0].addr == h.heapStart && bs[|bs| - 1].addr == h.blockTail)
      && (bs != [] ==> bs[|bs| - 1].End() == h.heapEnd)
      && (forall i :: 0 <= i < |bs| - 1 ==> bs[i].End() == bs[i + 1].addr && !(bs[i].free && bs[i + 1].free))
      && (forall b :: b in bs ==> b.addr % 16 == 0 && b.size % 16 == 0 && 0 < b.size)
      && (forall b :: b in bs && !b.free ==> 0 < b.requested <= b.size < b.requested + HEADER + ALIGNMENT)
      && h.heapEnd == h.brk
  {
    var bs := h.blocks;
    if bs != [] {
      WalkFrom(h.mem, bs, h.heapStart, h.tiled, 0);
      assert bs[0..] == bs;
      assert Placed(bs, |bs| - 1, h.tiled);
    }
    forall i | 0 <= i < |bs| - 1 ensures bs[i].End() == bs[i + 1].addr {
      assert Placed(bs, i, h.tiled);
    }
    forall b | b in bs ensures GoodBlock(b) && Fits(b) {
      var i :| 0 <= i < |bs| && bs[i] == b;
      assert Placed(bs, i, h.tiled) && b.Payload() != 0;
    }
  }
}
