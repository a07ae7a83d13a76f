/** Properties of the pool memory in every state a run can reach. */
module PoolTheorems {
  import opened Words
  import opened SizeClasses
  import opened FreeLists
  import opened Extents
  import opened Heaps
  import opened HeapSteps
  import opened HeapOps
  import opened HeapRuns
  import opened PoolMemory
  import opened PoolPlans

  // ----- overflow lists ---------------------------------------------------------------

  /** The address reached from head after n links. */
  ghost function Follow(m: seq<byte>, base: nat, head: nat, n: nat): (a: nat)
    decreases n
  {
    if n == 0 then head else Follow(m, base, WordAt(m, head - base), n - 1)
  }

  lemma {:induction false} ChainVisits(m: seq<byte>, base: nat, k: nat, head: nat, spill: seq<nat>, i: nat)
    requires base > 0 && Chain(m, base, k, head, spill) && i <= |spill|
    ensures Follow(m, base, head, i) ==
            if i < |spill| then Addr(base, k, spill[i]) else 0
    ensures forall j :: 0 <= j < |spill| ==> spill[j] >= Meta(k)
    decreases |spill|
  {
    hide WordAt, HasWord, Meta;
    if i > 0 {
      ChainVisits(m, base, k, WordAt(m, spill[0] - Meta(k)), spill[1..], i - 1);
      assert forall j :: 1 <= j < |spill| ==> spill[j] == spill[1..][j - 1];
    } else if spill != [] {
      ChainVisits(m, base, k, WordAt(m, spill[0] - Meta(k)), spill[1..], 0);
      assert forall j :: 1 <= j < |spill| ==> spill[j] == spill[1..][j - 1];
    }
  }

  /** a is the address of a carved block of kind k that no caller holds. */
  ghost predicate FreeBlockAt(h: Heap, base: nat, k: nat, a: nat) {
    exists p: nat {:trigger Addr(base, k, p)} ::
      p in h.blocks && h.blocks[p].k == k && p !in h.live && a == Addr(base, k, p) > 0
  }

  lemma SpillVisit(h: Heap, base: nat, m: seq<byte>, k: nat, head: nat, i: nat)
    requires Full(h) && k < LISTS && |h.free| == LISTS && base > 0
    requires Chain(m, base, k, head, h.free[k].spill) && i < |h.free[k].spill|
    ensures FreeBlockAt(h, base, k, Follow(m, base, head, i))
    ensures Follow(m, base, head, i) == Addr(base, k, h.free[k].spill[i])
    ensures h.free[k].spill[i] >= Meta(k)
  {
    hide Full, Limbo, Chain, Follow;
    FullIsEmptyLimbo(h, k);
    ChainVisits(m, base, k, head, h.free[k].spill, i);
    assert h.free[k].spill[i] in h.free[k].Bag();
    FreeIsUnheld(h, k, multiset{}, k, h.free[k].spill[i]);
  }

  /** The links of list k, read from the region memory, end at NULL after visiting
      distinct free blocks of kind k. No link leaves the list or closes a cycle. */
  lemma OverflowListEnds(h: Heap, base: nat, m: seq<byte>, pools: seq<Magazine>, k: nat) returns (n: nat)
    requires Full(h) && Rep(h, base, m, pools) && k < LISTS
    ensures Follow(m, base, pools[k].head, n) == 0
    ensures forall i {:trigger Follow(m, base, pools[k].head, i)} :: 0 <= i < n ==>
              FreeBlockAt(h, base, k, Follow(m, base, pools[k].head, i))
    ensures forall i, j :: 0 <= i < j < n ==>
              Follow(m, base, pools[k].head, i) != Follow(m, base, pools[k].head, j)
  {
    hide Full, Rep, Limbo, Chain, Follow, FreeBlockAt;
    ListAt(h, base, m, pools, k);
    FullIsEmptyLimbo(h, k);
    TiersNoDup(h, k, multiset{}, k);
    var head, f := pools[k].head, h.free[k];
    n := |f.spill|;
    ChainVisits(m, base, k, head, f.spill, n);
    forall i | 0 <= i < n ensures FreeBlockAt(h, base, k, Follow(m, base, head, i)) {
      SpillVisit(h, base, m, k, head, i);
    }
    forall i, j | 0 <= i < j < n ensures Follow(m, base, head, i) != Follow(m, base, head, j) {
      SpillVisit(h, base, m, k, head, i);
      SpillVisit(h, base, m, k, head, j);
      assert (f.mag + f.spill)[|f.mag| + i] == f.spill[i];
      assert (f.mag + f.spill)[|f.mag| + j] == f.spill[j];
    }
  }

  lemma ListAt(h: Heap, base: nat, m: seq<byte>, pools: seq<Magazine>, k: nat)
    requires Rep(h, base, m, pools) && k < LISTS
    ensures |h.free| == |pools| == LISTS && base > 0 && Chain(m, base, k, pools[k].head, h.free[k].spill)
  {
    assert ListOk(h, base, m, pools, k);
  }

  // ----- large metadata ---------------------------------------------------------------

  /** However often a large block is freed, linked through its first word, reused
      or resized, its second word stays the length it was carved with; while it
      is live its first word is its user size, and the two fit. */
  lemma LargeMetaForever(h: Heap, g: Heap, base: nat, m: seq<byte>, n: seq<byte>,
                         pools: seq<Magazine>, pools': seq<Magazine>, p: nat)
    requires Full(h) && Rep(h, base, m, pools)
    requires Full(g) && Rep(g, base, n, pools') && Grows(h, g)
    requires p in h.blocks && h.blocks[p].k == LARGE
    ensures HasWord(m, p - 8) && HasWord(n, p - 8) && WordAt(n, p - 8) == WordAt(m, p - 8)
    ensures p in g.live ==>
              && WordAt(n, p - 16) == g.live[p]
              && META_SIZE + g.live[p] <= WordAt(n, p - 8)
  {
    hide Full;
    assert MetaOk(h, m, p) && MetaOk(g, n, p);
    if p in g.live {
      LiveFitsAt(g, p);
    }
  }

  /** The same along a run: between any two heaps of one run, a large block carved in the
      earlier one keeps its second word in the later one. */
  lemma LargeMetaOverRun(page: nat, total: nat, tracking: bool, ops: seq<Op>, hs: seq<Heap>, i: nat, j: nat,
                         base: nat, m: seq<byte>, n: seq<byte>, pools: seq<Magazine>, pools': seq<Magazine>, p: nat)
    requires PageOk(page) && total < WORD && Run(page, total, tracking, ops, hs) && i <= j < |hs|
    requires Rep(hs[i], base, m, pools) && Rep(hs[j], base, n, pools')
    requires p in hs[i].blocks && hs[i].blocks[p].k == LARGE
    ensures HasWord(m, p - 8) && HasWord(n, p - 8) && WordAt(n, p - 8) == WordAt(m, p - 8)
    ensures p in hs[j].live ==>
              && WordAt(n, p - 16) == hs[j].live[p]
              && META_SIZE + hs[j].live[p] <= WordAt(n, p - 8)
  {
    hide Run, Rep, PageOk, Full, Grows;
    RunKeeps(page, total, tracking, ops, hs, i);
    RunKeeps(page, total, tracking, ops, hs, j);
    RunGrows(page, total, tracking, ops, hs, i, j);
    LargeMetaForever(hs[i], hs[j], base, m, n, pools, pools', p);
  }

  // ----- the bump test ------------------------------------------------------------------

  /** bump_raw compares a sum that wraps around. It refuses exactly the requests that
      do not fit in the region if and only if the sum fits in size_t. */
  lemma BumpTestExact(bump: nat, bytes: nat, total: nat)
    requires bump <= total < WORD && bytes < WORD
    ensures (WrapAdd(bump, bytes) <= total <==> bump + bytes <= total) <==> bump + bytes < WORD
  {
  }

  /** bump_raw keeps all carved blocks below the bump if and only if the sum fits in
      size_t. When it does not fit, the test always passes and the bump falls back into
      blocks carved before, whoever holds them. */
  lemma WrapForgetsBlocks(h: Heap, need: nat)
    requires Full(h) && 0 < need < WORD
    ensures (WrapAdd(h.bump, need) <= h.total ==>
               forall p :: p in h.blocks ==> Hi(h.blocks, p) <= WrapAdd(h.bump, need))
            <==> h.bump + need < WORD
    ensures h.bump + need >= WORD ==> WrapAdd(h.bump, need) < h.bump <= h.total
  {
    hide Full;
    FullBump(h);
    if h.bump + need >= WORD {
      var p := EveryByteHeldOnce(h, h.bump - 1);
    }
  }

  lemma FullBump(h: Heap)
    requires Full(h)
    ensures h.bump <= h.total < WORD
    ensures forall p :: p in h.blocks ==> Hi(h.blocks, p) <= h.bump
  {
    forall p | p in h.blocks ensures Hi(h.blocks, p) <= h.bump {
      assert Within(h.blocks, p, 0, h.bump);
    }
  }

  /** With one page carved, a large request that rounds to 2^64 - 4096 bytes passes the
      test and resets the bump to zero. */
  lemma BumpTestWraps()
    ensures LargeTotal(4096, WORD - 4112) == Some(WORD - 4096)
    ensures WrapAdd(4096, WORD - 4096) == 0
  {
    ModUnique(WORD - 4096, 4096, 0x10_0000_0000_0000 - 1, 0);
  }
}
