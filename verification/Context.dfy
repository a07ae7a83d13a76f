/** A context: the pool, the arenas, and the mappings that hold them. */
module Contexts {
  import opened Words
  import opened Kernel
  import opened FreeLists
  import opened Heaps
  import opened HeapRuns
  import opened PoolMemory
  import opened Sums
  import opened Pools
  import opened ArenaWorld
  import opened ArenaBooks
  import opened ArenaSteps
  import opened Arenas

  const DEFAULT_MAX: nat := 0x4000_0000
  /** sizeof(struct bc_allocators_context). */
  const CONTEXT_STRUCT: nat := 2880

  // ----- sizes --------------------------------------------------------------------------------

  /** compute_alloc_size. */
  function ComputeAllocSize(page: nat, elementSize: nat, count: nat): (r: Option<nat>)
    requires page > 0
  {
    if elementSize == 0 || count == 0 then None
    else
      match SafeMultiply(elementSize, count)
      case None => None
      case Some(product) => AlignUp(product, page)
  }

  /** The least whole number of pages that holds the elements; nothing exactly when
      there are none or every such size is past SIZE_MAX. */
  lemma AllocSizeExact(page: nat, elementSize: nat, count: nat, n: nat)
    requires page > 0 && n % page == 0 && n >= elementSize * count
    ensures var r := ComputeAllocSize(page, elementSize, count);
            && (r.Some? ==> r.value % page == 0 && elementSize * count <= r.value <= n && r.value < WORD)
            && (r.None? <==> elementSize == 0 || count == 0 || RoundUp(elementSize * count, page) >= WORD)
            && (r.None? && elementSize > 0 && count > 0 ==> n >= WORD)
  {
    hide RoundUp;
    RoundUpLeast(elementSize * count, page, n);
  }

  /** Sizes of the region and of its page map, if they fit in size_t. */
  function RegionSizes(maxMemory: nat, page: nat): (r: Option<(nat, nat)>)
    requires page > 0
  {
    match AlignUp(if maxMemory == 0 then DEFAULT_MAX else maxMemory, page)
    case None => None
    case Some(total) =>
      match AlignUp(total / page, page)
      case None => None
      case Some(mapSize) => Some((total, mapSize))
  }

  /** The region is max_pool_memory, or 1 GiB for 0, rounded up to pages, and the page map
      has a byte for every page of it, rounded up to pages. There are such sizes exactly
      when the region fits in size_t. */
  lemma RegionSizesExact(maxMemory: nat, page: nat)
    requires page >= 2
    ensures var wanted := if maxMemory == 0 then 1024 * 1024 * 1024 else maxMemory;
            && (RegionSizes(maxMemory, page).Some? <==> RoundUp(wanted, page) < WORD)
            && (RegionSizes(maxMemory, page).Some? ==>
                  var (total, mapSize) := RegionSizes(maxMemory, page).value;
                  && total % page == 0 && wanted <= total < wanted + page
                  && mapSize % page == 0 && total / page <= mapSize < total / page + page
                  && total <= mapSize * page && 0 < total < WORD && 0 < mapSize < WORD)
  {
    hide RoundUp;
    var wanted := if maxMemory == 0 then DEFAULT_MAX else maxMemory;
    var total := RoundUp(wanted, page);
    DivTimes(total, page);
    PagesBelowBytes(total / page, page);
    MulMono(total / page, RoundUp(total / page, page), page);
  }

  /** A region has no fewer bytes than pages and bytes a page together. */
  lemma PagesBelowBytes(n: nat, page: nat)
    requires n >= 1 && page >= 2
    ensures n + page <= n * page + 1
  {
    assert (n - 1) * (page - 1) >= 0;
  }

  // ----- the context --------------------------------------------------------------------------

  datatype ContextStats = ContextStats(
    poolAllocs: nat, poolFrees: nat, poolActive: nat,
    arenaCreates: nat, arenaDestroys: nat, arenaActive: nat,
    arenaBytes: nat, mappedBytes: nat, peakBytes: nat)

  class Context {
    const pool: Pool
    const arenas: ArenaContext
    const tracking: bool
    const leakCallback: bool
    /** Where the context itself and the page map lie. */
    const self: nat
    const selfSize: nat
    const pageMap: nat
    const pageMapSize: nat

    /** What the kernel has mapped for the context apart from its arenas. */
    var held: map<nat, nat>

    ghost predicate Valid()
      reads this, pool, pool.mem, pool.pageClass, pool.pools, arenas, arenas.arenaCache
    {
      && pool.Valid() && arenas.Valid()
      && pool.tracking == arenas.tracking == tracking && pool.pageSize == arenas.pageSize
      && self != pageMap && self != pool.base && pageMap != pool.base
      && held == map[self := selfSize, pool.base := pool.totalSize, pageMap := pageMapSize]
      && arenas.reserved == held
    }

    constructor (pool: Pool, arenas: ArenaContext, leakCallback: bool, self: nat, selfSize: nat,
                 pageMap: nat, pageMapSize: nat)
      requires pool.Valid() && arenas.Valid()
      requires pool.tracking == arenas.tracking && pool.pageSize == arenas.pageSize
      requires self != pageMap && self != pool.base && pageMap != pool.base
      requires arenas.reserved == map[self := selfSize, pool.base := pool.totalSize, pageMap := pageMapSize]
      ensures Valid() && this.pool == pool && this.arenas == arenas && this.leakCallback == leakCallback
      ensures this.self == self && this.selfSize == selfSize
      ensures this.pageMap == pageMap && this.pageMapSize == pageMapSize
      ensures held == map[self := selfSize, pool.base := pool.totalSize, pageMap := pageMapSize]
    {
      hide Inv, BooksOk, Rep, Full, Exact, TagsOk, Snap, Front, Pow2;
      this.pool, this.arenas, this.leakCallback := pool, arenas, leakCallback;
      this.tracking := pool.tracking;
      this.self, this.selfSize, this.pageMap, this.pageMapSize := self, selfSize, pageMap, pageMapSize;
      held := map[self := selfSize, pool.base := pool.totalSize, pageMap := pageMapSize];
    }

    /** get_stats. All zero when tracking is off. */
    method GetStats() returns (s: ContextStats)
      requires Valid()
      ensures !tracking ==> s == ContextStats(0, 0, 0, 0, 0, 0, 0, 0, 0)
      ensures tracking ==> WrapSub(s.poolAllocs, s.poolFrees) == |pool.heap.live| && s.poolActive == Sum(pool.heap.live)
      ensures tracking ==> s.poolAllocs == pool.allocCount && s.arenaCreates == arenas.arenaCreateCount
      ensures tracking ==> s.peakBytes in arenas.moments && forall x :: x in arenas.moments ==> x <= s.peakBytes
      ensures tracking ==> s.arenaBytes == s.mappedBytes == Sum(arenas.world.owned)
      ensures tracking ==> WrapSub(s.arenaCreates, s.arenaDestroys) == |arenas.world.chains|
      ensures tracking ==>
                (s.arenaActive == |arenas.world.chains|
                 <==> s.arenaCreates >= s.arenaDestroys || |arenas.world.chains| == 0)
    {
      hide Inv, Rep, Full, TagsOk, Snap, Front, Pow2, Sum, Clear;
      s := ContextStats(0, 0, 0, 0, 0, 0, 0, 0, 0);
      if !tracking {
        return;
      }
      s := s.(poolAllocs := pool.allocCount, poolFrees := pool.freeCount, poolActive := pool.activeBytes);
      s := s.(arenaCreates := arenas.arenaCreateCount, arenaDestroys := arenas.arenaDestroyCount);
      if s.arenaCreates >= s.arenaDestroys {
        s := s.(arenaActive := s.arenaCreates - s.arenaDestroys);
      }
      s := s.(arenaBytes := arenas.arenaTotalBytes, mappedBytes := arenas.totalMappedBytes,
              peakBytes := arenas.peakMappedBytes);
    }

    /** context_destroy: which leaks it reports, and what stays mapped afterwards. */
    method Destroy() returns (poolLeak: bool, arenaLeak: bool)
      requires Valid()
      modifies this`held, arenas`mapped
      ensures poolLeak <==> tracking && leakCallback && pool.heap.live != map[]
      ensures arenaLeak <==> tracking && leakCallback && arenas.world.chains != map[]
      ensures held == map[] && arenas.mapped == arenas.world.owned
      ensures arenas.mapped == map[] <==> arenas.world.chains == map[]
    {
      hide Inv, Rep, TagsOk, Snap, Front, Pow2, Full, Exact, BooksOk, Clear;
      poolLeak, arenaLeak := false, false;
      if tracking && leakCallback {
        LeakCountersTell(pool.heap);
        ArenaCountersTell(arenas.world, arenas.pageSize, arenas.Counts(), arenas.moments);
        poolLeak := pool.allocCount != pool.freeCount;
        arenaLeak := arenas.arenaCreateCount != arenas.arenaDestroyCount;
      }
      arenas.ReleaseCache();
      held := held - {pageMap};
      held := held - {pool.base};
      held := held - {self};
    }
  }

  /** The page size is known and all sizes of a context fit in size_t. */
  ghost predicate CreateSizes(maxMemory: nat, pageSize: Option<nat>) {
    && pageSize.Some? && pageSize.value > 0
    && RegionSizes(maxMemory, pageSize.value).Some? && RoundUp(CONTEXT_STRUCT, pageSize.value) < WORD
  }

  /** context_create. pageSize is None when the platform cannot tell it. held: what the
      kernel has mapped afterwards. refusals: how often it refused. */
  method Create(maxMemory: nat, tracking: bool, leakCallback: bool, pageSize: Option<nat>, pageShift: nat)
    returns (ctx: Context?, held: map<nat, nat>, ghost refusals: nat)
    requires pageSize.Some? ==> pageSize.value == Pow2(pageShift) && 16 <= pageSize.value < WORD
    ensures ctx != null <==> && CreateSizes(maxMemory, pageSize) && refusals == 0
    ensures refusals == if ctx == null && CreateSizes(maxMemory, pageSize) then 1 else 0
    ensures ctx == null ==> held == map[]
    ensures ctx != null ==> fresh(ctx) && ctx.Valid() && held == ctx.held
    ensures ctx != null ==> ctx.selfSize == RoundUp(CONTEXT_STRUCT, pageSize.value)
    ensures ctx != null ==> ctx.pageMapSize == RegionSizes(maxMemory, pageSize.value).value.1
    ensures ctx != null ==> ctx.pool.base % pageSize.value == 0
    ensures ctx != null ==> ctx.pool.totalSize == RegionSizes(maxMemory, pageSize.value).value.0
    ensures ctx != null ==> ctx.pool.heap == NewHeap(pageSize.value, ctx.pool.totalSize, tracking)
    ensures ctx != null ==> ctx.arenas.world == EmptyWorld()
    ensures ctx != null ==> ctx.leakCallback == leakCallback
  {
    hide Inv, Rep, TagsOk, Snap, Front, Pow2, Full, Exact, BooksOk, RoundUp, RegionSizes;
    ctx, held, refusals := null, map[], 0;
    if pageSize.None? {
      return;
    }
    var page := pageSize.value;
    var sizes := RegionSizes(maxMemory, page);
    var selfSize := AlignUp(CONTEXT_STRUCT, page);
    if sizes.None? || selfSize.None? {
      return;
    }
    RegionSizesExact(maxMemory, page);
    var (alignedMax, mapSize) := sizes.value;
    var ok, self := PlatformMap(held, page, selfSize.value);
    if !ok {
      refusals := 1;
      return;
    }
    held := held[self := selfSize.value];
    var ok1, base := PlatformMap(held, page, alignedMax);
    if !ok1 {
      refusals := 1;
      held := held - {self};
      return;
    }
    held := held[base := alignedMax];
    var ok2, pageMap := PlatformMap(held, page, mapSize);
    if !ok2 {
      refusals := 1;
      held := held - {base};
      held := held - {self};
      return;
    }
    held := held[pageMap := mapSize];
    var pool := new Pool(base, page, pageShift, alignedMax, mapSize, tracking);
    var arenas := new ArenaContext(page, tracking, held);
    ctx := new Context(pool, arenas, leakCallback, self, selfSize.value, pageMap, mapSize);
  }

  /** The arena counters compared when a context is destroyed differ exactly when some
      arena is still there. */
  lemma ArenaCountersTell(w: World, page: nat, t: Tally, moments: seq<nat>)
    requires Inv(w, page, {}, {}) && BooksOk(true, t, moments, w.owned, |w.chains|)
    ensures t.created != t.destroyed <==> w.chains != map[]
  {
    hide Inv;
    ArenasBelowBlocks(w, page, {});
    assert w.chains == map[] <==> |w.chains| == 0;
  }

  /** No arena mapping shares a byte with the pool region, the page map or the context. */
  lemma ArenasApartFromPool(ctx: Context, b: nat)
    requires ctx.Valid() && b in ctx.arenas.mapped
    ensures var n := ctx.arenas.mapped[b];
            && (b + n <= ctx.pool.base || ctx.pool.base + ctx.pool.totalSize <= b)
            && (b + n <= ctx.pageMap || ctx.pageMap + ctx.pageMapSize <= b)
            && (b + n <= ctx.self || ctx.self + ctx.selfSize <= b)
  {
    hide Inv, Rep, TagsOk, Snap, Front, Pow2, Full, Exact, BooksOk;
    var r := ctx.arenas.reserved;
    assert r[ctx.pool.base] == ctx.pool.totalSize && r[ctx.pageMap] == ctx.pageMapSize && r[ctx.self] == ctx.selfSize;
  }
}
