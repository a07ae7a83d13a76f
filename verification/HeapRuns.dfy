/** What holds of the pool after any run of operations. */
module HeapRuns {
  import opened Words
  import opened SizeClasses
  import opened FreeLists
  import opened Extents
  import opened Heaps
  import opened HeapSteps
  import opened HeapOps
  import opened Sums

  datatype Op =
    | OpAllocate(n: nat)
    | OpFree(p: int)
    | OpReallocate(q: Option<nat>, n: nat)

  /** What a caller may ask for: pointers passed in are live, null, or not in the
      carved part of the region, and a request that must carve keeps the bump sum
      below 2^64, as the source needs (see PoolTheorems.WrapForgetsBlocks). */
  ghost predicate Legal(h: Heap, op: Op) {
    match op
    case OpAllocate(n) => Fits(h, n)
    case OpFree(p) => p < 0 || p >= h.bump || p in h.live
    case OpReallocate(q, n) => (q.Some? ==> q.value in h.live) && ReFits(h, q, n)
  }

  ghost function Apply(h: Heap, op: Op): (g: Heap)
    requires |h.free| == LISTS && h.page > 0
  {
    match op
    case OpAllocate(n) => Allocate(h, n).0
    case OpFree(p) => Free(h, p)
    case OpReallocate(q, n) => Reallocate(h, q, n).0
  }

  ghost predicate Stepped(h: Heap, op: Op, g: Heap) {
    |h.free| == LISTS && h.page > 0 && Legal(h, op) && g == Apply(h, op)
  }

  /** hs are the heaps of a run from a new pool through the legal operations ops. */
  ghost predicate Run(page: nat, total: nat, tracking: bool, ops: seq<Op>, hs: seq<Heap>) {
    && |hs| == |ops| + 1
    && hs[0] == NewHeap(page, total, tracking)
    && forall i {:trigger ops[i]} :: 0 <= i < |ops| ==> Stepped(hs[i], ops[i], hs[i + 1])
  }

  // ----- the partition --------------------------------------------------------------

  lemma NewHeapFull(page: nat, total: nat, tracking: bool)
    requires PageOk(page) && total < WORD
    ensures Full(NewHeap(page, total, tracking))
  {
    var h := NewHeap(page, total, tracking);
    assert h.bump == 0;
    EmptyGeometry(h.bump);
    forall k | 0 <= k < LISTS ensures Held(h, k) == multiset(BlocksOf(h.blocks, k)) {
      assert h.free[k] == FreeList([], []);
      assert LiveOf(h.blocks, h.live, k) == {};
      assert BlocksOf(h.blocks, k) == {};
    }
  }

  lemma ApplyFull(h: Heap, op: Op)
    requires Full(h) && Legal(h, op)
    ensures Full(Apply(h, op))
    ensures Grows(h, Apply(h, op))
  {
    match op
    case OpAllocate(n) =>
      AllocateKeeps(h, n);
    case OpFree(p) =>
      FreeKeeps(h, p);
    case OpReallocate(q, n) =>
      if q.Some? {
        ReallocateKeeps(h, q.value, n);
      } else {
        AllocateKeeps(h, n);
      }
      hide Full, Allocate, Move, InPlace;
  }

  /** Every byte below the bump belongs to exactly one block, and that block is
      either live or in exactly one slot of one tier of the list of its kind. */
  lemma EveryByteHeldOnce(h: Heap, x: nat) returns (p: nat)
    requires Full(h) && x < h.bump
    ensures p in h.blocks && Lo(h.blocks, p) <= x < Hi(h.blocks, p)
    ensures forall q :: q in h.blocks && Lo(h.blocks, q) <= x < Hi(h.blocks, q) ==> q == p
    ensures h.blocks[p].k < LISTS && |h.free| == LISTS
    ensures var f := h.free[h.blocks[p].k];
            (if p in h.live then 1 else 0) + multiset(f.mag)[p] + multiset(f.spill)[p] == 1
    ensures forall j :: 0 <= j < LISTS && j != h.blocks[p].k ==>
              p !in h.free[j].mag && p !in h.free[j].spill
  {
    p := EveryByteInABlock(h.extents, h.page, h.carved, x);
    BlockLen(h, p);
    forall q | q in h.blocks && Lo(h.blocks, q) <= x < Hi(h.blocks, q) ensures q == p {
      assert p != q ==> Apart(h.blocks, p, q);
    }
    HoldersOf(h, p);
  }

  lemma HoldersOf(h: Heap, p: nat)
    requires Full(h) && p in h.blocks && h.blocks[p].k < LISTS
    ensures |h.free| == LISTS
    ensures var f := h.free[h.blocks[p].k];
            (if p in h.live then 1 else 0) + multiset(f.mag)[p] + multiset(f.spill)[p] == 1
    ensures forall j :: 0 <= j < LISTS && j != h.blocks[p].k ==>
              p !in h.free[j].mag && p !in h.free[j].spill
  {
    var k := h.blocks[p].k;
    FullIsEmptyLimbo(h, k);
    HolderCount(h, k, multiset{}, k, p);
    forall j | 0 <= j < LISTS && j != k ensures p !in h.free[j].mag && p !in h.free[j].spill {
      HolderCount(h, k, multiset{}, j, p);
      assert p !in h.free[j].Bag();
    }
  }

  /** Live payloads lie in the region, on a page tagged with their kind, and do
      not overlap. */
  lemma LivePayloads(h: Heap, p: nat, q: nat)
    requires Full(h) && p in h.live && q in h.live
    ensures p + h.live[p] <= h.bump <= h.total
    ensures p != q ==> p + h.live[p] <= q || q + h.live[q] <= p
    ensures p in h.blocks && PageTag(h.extents, PageOf(p, h.page)) == Tag(h.blocks[p].k)
    ensures AlignedBlock(h.page, h.blocks[p].k, p)
  {
    assert LiveFits(h, p) && LiveFits(h, q);
    BlockLen(h, p);
    assert Within(h.blocks, p, 0, h.bump);
    if p != q {
      assert Apart(h.blocks, p, q);
    }
    PayloadTag(h, p);
    CarvedAligned(h.extents, h.page, h.carved, p);
  }

  lemma PayloadTag(h: Heap, p: nat)
    requires Full(h) && p in h.blocks
    ensures PageOf(p, h.page) < h.carved
    ensures PageTag(h.extents, PageOf(p, h.page)) == Tag(h.blocks[p].k)
  {
    hide Geometry, Tiled, Carved, PageTag, LiveFits, Held, BlocksOf;
    DivBounds(p, h.page);
    hide IsPow2;
    TagOfBlock(h.extents, h.page, h.carved, p, PageOf(p, h.page));
  }

  lemma DivBounds(p: nat, page: nat)
    requires page > 0
    ensures PageOf(p, page) * page <= p < (PageOf(p, page) + 1) * page
  {
    assert p == p / page * page + p % page;
  }

  // ----- last in, first out -----------------------------------------------------------

  /** Freeing a class block and allocating from its class at once gives the same
      block back exactly when the magazine had room for it; the free lists are
      then as before. */
  lemma FreeThenAllocate(h: Heap, p: nat, n: nat)
    requires Full(h) && p in h.live && p in h.blocks
    requires 1 <= n <= MAX_CLASS_SIZE && SizeClassForSize(n) == h.blocks[p].k
    ensures |h.free| == LISTS && h.blocks[p].k < CLASSES
    ensures var (g, q) := Allocate(Free(h, p), n);
            && q.Some?
            && (q == Some(p) <==> |h.free[h.blocks[p].k].mag| < MAG_SIZE)
            && (q == Some(p) ==> g.free == h.free && g.live == h.live)
  {
    ClassChoice(n);
    var k := h.blocks[p].k;
    FreeKeeps(h, p);
    HoldersOf(h, p);
    assert h.live[p] == ClassSize(k) by {
      assert LiveFits(h, p);
      BlockLen(h, p);
    }
    hide Full, Free, Grows, CarveClass;
    PushThenAllocate(h, Free(h, p), k, p);
  }

  lemma PushThenAllocate(h: Heap, g: Heap, k: nat, p: nat)
    requires k < CLASSES && |h.free| == LISTS && g.page > 0
    requires g.free == h.free[k := h.free[k].Push(p)]
    requires p in h.live && h.live[p] == ClassSize(k) && g.live == h.live - {p}
    requires p !in h.free[k].mag
    ensures var (r, q) := AllocClass(g, k);
            && q.Some?
            && (q == Some(p) <==> |h.free[k].mag| < MAG_SIZE)
            && (q == Some(p) ==> r.free == h.free && r.live == h.live)
  {
    hide CarveClass, ClassSize, CountAlloc;
    PopAfterPush(h.free[k], p);
    assert g.free[k := h.free[k]] == h.free;
    assert (h.live - {p})[p := h.live[p]] == h.live;
  }

  // ----- accounting -------------------------------------------------------------------

  /** The counters tell that count blocks with that many bytes are live, whatever
      the number of calls made so far. */
  ghost predicate Tells(s: Stats, count: nat, bytes: nat) {
    && s.allocs < WORD && s.frees < WORD
    && (s.on ==> WrapSub(s.allocs, s.frees) == count && s.active == bytes)
    && (!s.on ==> s.allocs == s.frees == s.active == 0)
  }

  lemma TellsAlloc(s: Stats, count: nat, bytes: nat, b: nat)
    requires Tells(s, count, bytes) && count + 1 < WORD && bytes + b < WORD
    ensures Tells(CountAlloc(s, b), count + 1, bytes + b)
  {
  }

  lemma TellsFree(s: Stats, count: nat, bytes: nat, b: nat)
    requires Tells(s, count, bytes) && 0 < count < WORD && b <= bytes < WORD
    ensures Tells(CountFree(s, b), count - 1, bytes - b)
  {
  }

  lemma TellsResize(s: Stats, count: nat, bytes: nat, a: nat, b: nat)
    requires Tells(s, count, bytes) && a <= bytes < WORD && bytes - a + b < WORD
    ensures Tells(CountResize(s, a, b), count, bytes - a + b)
  {
  }

  /** Equal call counters mean that nothing is live, and conversely. */
  lemma TellsLeak(s: Stats, count: nat, bytes: nat)
    requires Tells(s, count, bytes) && s.on && count < WORD
    ensures s.allocs == s.frees <==> count == 0
  {
  }

  ghost predicate Exact(h: Heap) {
    Tells(h.stats, |h.live|, Sum(h.live))
  }

  lemma NewHeapExact(page: nat, total: nat, tracking: bool)
    ensures Exact(NewHeap(page, total, tracking))
  {
    SumEmpty();
  }

  lemma LiveSums(h: Heap)
    requires Full(h)
    ensures |h.live| <= Sum(h.live) <= h.bump < WORD
  {
    forall p | p in h.live ensures h.live[p] >= 1 && p + h.live[p] <= h.bump {
      LivePayloads(h, p, p);
      assert LiveFits(h, p);
    }
    forall p, q | p in h.live && q in h.live && p < q ensures p + h.live[p] <= q {
      LivePayloads(h, p, q);
      assert LiveFits(h, q);
    }
    hide Full;
    CountAtMostSum(h.live);
    SumPacked(h.live, h.bump);
  }

  lemma ExactHand(h: Heap, g: Heap, p: nat)
    requires Exact(h) && p !in h.live && p in g.live && g.live == h.live[p := g.live[p]]
    requires g.stats == CountAlloc(h.stats, g.live[p])
    requires |g.live| < WORD && Sum(g.live) < WORD
    ensures Exact(g)
  {
    hide Tells, Sum, CountAlloc;
    SumAdd(h.live, p, g.live[p]);
    CountAdd(h.live, p, g.live[p]);
    TellsAlloc(h.stats, |h.live|, Sum(h.live), g.live[p]);
  }

  lemma ExactDrop(h: Heap, g: Heap, p: nat)
    requires Exact(h) && p in h.live && g.live == h.live - {p}
    requires g.stats == CountFree(h.stats, h.live[p])
    requires |h.live| < WORD && Sum(h.live) < WORD
    ensures Exact(g)
  {
    hide Tells, Sum, CountFree;
    SumRemove(h.live, p);
    CountRemove(h.live, p);
    TellsFree(h.stats, |h.live|, Sum(h.live), h.live[p]);
  }

  lemma ExactResize(h: Heap, g: Heap, p: nat)
    requires Exact(h) && p in h.live && p in g.live && g.live == h.live[p := g.live[p]]
    requires g.stats == CountResize(h.stats, h.live[p], g.live[p])
    requires Sum(h.live) < WORD && Sum(g.live) < WORD
    ensures Exact(g)
  {
    hide Tells, Sum, CountResize;
    SumReplace(h.live, p, g.live[p]);
    SumRemove(h.live, p);
    CountReplace(h.live, p, g.live[p]);
    TellsResize(h.stats, |h.live|, Sum(h.live), h.live[p], g.live[p]);
  }

  lemma AllocateExact(h: Heap, n: nat)
    requires Full(h) && Exact(h)
    ensures Exact(Allocate(h, n).0)
  {
    AllocateKeeps(h, n);
    var (g, p) := Allocate(h, n);
    if p.Some? {
      LiveSums(g);
      hide Full, Allocate, Sum, Exact;
      ExactHand(h, g, p.value);
    }
  }

  lemma FreeExact(h: Heap, p: int)
    requires Full(h) && Exact(h)
    ensures Exact(Free(h, p))
  {
    FreeKeeps(h, p);
    if p >= 0 && p in h.live {
      LiveSums(h);
      hide Full, Free, Sum, Exact;
      ExactDrop(h, Free(h, p), p);
    }
  }

  lemma InPlaceExact(h: Heap, p: nat, n: nat)
    requires Full(h) && Exact(h) && p in h.live && n > 0 && InPlace(h, p, n).Some?
    ensures Exact(InPlace(h, p, n).value)
  {
    InPlaceKeeps(h, p, n);
    var g := InPlace(h, p, n).value;
    LiveSums(h);
    LiveSums(g);
    hide Full, InPlace, Sum, Exact, Grows;
    if g != h {
      assert g.live == h.live[p := g.live[p]];
      ExactResize(h, g, p);
    }
  }

  lemma MoveExact(h: Heap, p: nat, n: nat)
    requires Full(h) && Exact(h) && p in h.live
    ensures Exact(Move(h, p, n).0)
  {
    AllocateKeeps(h, n);
    AllocateExact(h, n);
    var h1 := Allocate(h, n).0;
    hide Allocate, Exact, Free;
    FreeExact(h1, p);
  }

  lemma ReallocateExact(h: Heap, p: Option<nat>, n: nat)
    requires Full(h) && Exact(h) && (p.Some? ==> p.value in h.live)
    ensures Exact(Reallocate(h, p, n).0)
  {
    AllocateExact(h, n);
    if p.Some? && n > 0 {
      MoveExact(h, p.value, n);
      if InPlace(h, p.value, n).Some? {
        InPlaceExact(h, p.value, n);
      }
    }
    hide Exact, Move, InPlace, Allocate;
  }

  /** In every heap of a run each block is held exactly once and the counters
      are exact. */
  lemma {:induction false} RunKeeps(page: nat, total: nat, tracking: bool, ops: seq<Op>, hs: seq<Heap>, i: nat)
    requires PageOk(page) && total < WORD
    requires Run(page, total, tracking, ops, hs) && i < |hs|
    ensures Full(hs[i]) && Exact(hs[i]) && hs[i].stats.on == tracking
    ensures hs[i].page == page && hs[i].total == total
  {
    if i == 0 {
      NewHeapFull(page, total, tracking);
      SumEmpty();
    } else {
      RunKeeps(page, total, tracking, ops, hs, i - 1);
      var m, op := hs[i - 1], ops[i - 1];
      assert Stepped(m, op, hs[i]);
      hide Full, Apply, Legal, Sum, Exact;
      ApplyExact(m, op);
      ApplyFull(m, op);
    }
  }

  /** Along a run, blocks once carved stay as they are. */
  lemma {:induction false} RunGrows(page: nat, total: nat, tracking: bool, ops: seq<Op>, hs: seq<Heap>, i: nat, j: nat)
    requires PageOk(page) && total < WORD
    requires Run(page, total, tracking, ops, hs) && i <= j < |hs|
    ensures Grows(hs[i], hs[j])
    decreases j - i
  {
    hide Full, Apply, Legal, Exact, Grows, NewHeap, PageOk;
    if i == j {
      GrowsSame(hs[i]);
    } else {
      RunGrows(page, total, tracking, ops, hs, i, j - 1);
      RunKeeps(page, total, tracking, ops, hs, j - 1);
      assert Stepped(hs[j - 1], ops[j - 1], hs[j]);
      ApplyFull(hs[j - 1], ops[j - 1]);
      GrowsTransitive(hs[i], hs[j - 1], hs[j]);
    }
  }

  lemma GrowsSame(h: Heap)
    ensures Grows(h, h)
  {
  }

  /** The two counters compared when a context is destroyed differ exactly when
      some block is live. */
  lemma LeakCountersTell(h: Heap)
    requires Full(h) && Exact(h) && h.stats.on
    ensures h.stats.allocs != h.stats.frees <==> h.live != map[]
  {
    LiveSums(h);
    hide Full, Sum, Tells;
    TellsLeak(h.stats, |h.live|, Sum(h.live));
    assert h.live == map[] <==> |h.live| == 0;
  }

  lemma ApplyExact(h: Heap, op: Op)
    requires Full(h) && Exact(h) && Legal(h, op)
    ensures Exact(Apply(h, op))
  {
    match op
    case OpAllocate(n) =>
      AllocateExact(h, n);
    case OpFree(p) =>
      FreeExact(h, p);
    case OpReallocate(q, n) =>
      ReallocateExact(h, q, n);
  }
}
