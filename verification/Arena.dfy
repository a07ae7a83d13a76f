/** The arena part of a context: arenas in mapped blocks, the block cache and the
    counters, updated in place. */
module Arenas {
  import opened Words
  import opened Kernel
  import opened FreeLists
  import opened Sums
  import opened ArenaTheory
  import opened ArenaWorld
  import opened ArenaBooks
  import opened ArenaSteps

  /** The first n entries. */
  ghost function Front<T>(s: seq<T>, n: nat): (r: seq<T>)
    ensures n <= |s| ==> |r| == n
  {
    if n <= |s| then s[..n] else s
  }

  class ArenaContext {
    const pageSize: nat
    const tracking: bool
    /** What the kernel has mapped for the rest of the context. */
    const reserved: map<nat, nat>
    const arenaCache: array<Entry>

    var arenaCacheCount: nat
    var arenaCreateCount: nat
    var arenaDestroyCount: nat
    var arenaTotalBytes: nat
    var totalMappedBytes: nat
    var peakMappedBytes: nat

    /** What the kernel has mapped for arenas: sizes by address. */
    var mapped: map<nat, nat>
    /** The headers that can be read, by the address of the block that holds them. */
    var chunks: map<nat, Chunk>
    var arenas: map<nat, Header>

    /** How often the kernel refused to map. */
    ghost var refusals: nat
    /** The world these fields represent. */
    ghost var world: World
    /** The values totalMappedBytes had so far. */
    ghost var moments: seq<nat>

    ghost function Counts(): (t: Tally)
      reads this
    {
      Tally(arenaCreateCount, arenaDestroyCount, arenaTotalBytes, totalMappedBytes, peakMappedBytes)
    }

    /** The fields represent the world. */
    ghost predicate Repr()
      reads this, arenaCache
    {
      && arenaCache.Length == CACHE_SIZE && arenaCacheCount <= CACHE_SIZE && pageSize > 0
      && world.mapped == mapped && world.chunks == chunks && world.arenas == arenas
      && world.cache == Front(Snap(arenaCache), arenaCacheCount)
      && Clear(reserved, mapped)
    }

    /** The state while limbo is between owners and the arenas closing are taken apart. */
    ghost predicate Between(limbo: set<nat>, closing: set<nat>)
      reads this, arenaCache
    {
      Repr() && Inv(world, pageSize, limbo, closing)
    }

    /** The counters are exact for the blocks owned and live arenas. */
    ghost predicate Books(live: nat)
      reads this
    {
      BooksOk(tracking, Counts(), moments, world.owned, live)
    }

    /** The invariant between operations. */
    ghost predicate Valid()
      reads this, arenaCache
    {
      Between({}, {}) && Books(|world.chains|)
    }

    /** The arena part of context_create: the mapping is zero-filled, so the cache is
        empty. */
    constructor (pageSize: nat, tracking: bool, reserved: map<nat, nat>)
      requires pageSize > 0 && forall c :: c in reserved ==> reserved[c] > 0
      ensures Valid() && fresh(arenaCache)
      ensures world == EmptyWorld() && Counts() == Tally(0, 0, 0, 0, 0)
      ensures this.pageSize == pageSize && this.tracking == tracking && this.reserved == reserved
    {
      this.pageSize, this.tracking, this.reserved := pageSize, tracking, reserved;
      arenaCache := new Entry[CACHE_SIZE](_ => Entry(0, 0));
      arenaCacheCount := 0;
      arenaCreateCount, arenaDestroyCount, arenaTotalBytes, totalMappedBytes, peakMappedBytes := 0, 0, 0, 0, 0;
      mapped, chunks, arenas := map[], map[], map[];
      refusals, world, moments := 0, EmptyWorld(), [0];
      new;
      SumEmpty();
      EmptyWorldOk(pageSize);
      assert Front(Snap(arenaCache), 0) == [];
    }

    // ----- mapping ------------------------------------------------------------------------

    /** The kernel unmaps a whole range that is mapped. */
    method PlatformUnmap(block: nat, size: nat)
      requires block in mapped && mapped[block] == size
      modifies this`mapped
      ensures mapped == old(mapped) - {block}
    {
      mapped := mapped - {block};
    }

    /** Takes entry i out of the cache. */
    method TakeCached(i: nat) returns (block: nat)
      requires Repr() && i < arenaCacheCount
      modifies this`arenaCacheCount, arenaCache, this`world
      ensures Repr() && i < |old(world).cache| && block == old(world).cache[i].block
      ensures world == old(world).(cache := CacheWithout(old(world).cache, i))
      ensures arenaCacheCount == old(arenaCacheCount) - 1
    {
      ghost var c := world.cache;
      block := arenaCache[i].block;
      arenaCache[i] := arenaCache[arenaCacheCount - 1];
      arenaCacheCount := arenaCacheCount - 1;
      ghost var d := Front(Snap(arenaCache), arenaCacheCount);
      CacheTaken(c, d, i);
      world := world.(cache := d);
    }

    /** arena_map_block: the first cached block of the right size, or a fresh one. */
    method MapBlock(mmapSize: nat) returns (ok: bool, block: nat)
      requires Between({}, {}) && mmapSize > 0
      modifies this`mapped, this`refusals, this`arenaCacheCount, arenaCache, this`world
      ensures Repr() && refusals == old(refusals) + if ok then 0 else 1
      ensures MapOutcome(old(world), world, pageSize, mmapSize, ok, block)
      ensures Stocked(old(world), mmapSize) ==> ok && mapped == old(mapped)
    {
      hide Inv, FreshRange, CacheWithout, MapOutcome, Clear, FirstOfSize;
      ghost var w := world;
      var i := 0;
      while i < arenaCacheCount && arenaCache[i].mmapSize != mmapSize
        invariant 0 <= i <= arenaCacheCount
        invariant FirstOfSize(w.cache[..i], mmapSize) == None
        modifies {}
      {
        FirstOfSizeSnoc(w.cache, i, mmapSize);
        i := i + 1;
      }
      if i < arenaCacheCount {
        FirstOfSizeSnoc(w.cache, i, mmapSize);
        block := TakeCached(i);
        OutcomeCached(w, pageSize, mmapSize, i);
        return true, block;
      }
      assert w.cache[..i] == w.cache;
      ok, block := PlatformMap(reserved + mapped, pageSize, mmapSize);
      if ok {
        FreshOfBoth(reserved, mapped, pageSize, block, mmapSize);
        mapped := mapped[block := mmapSize];
        world := world.(mapped := mapped);
      } else {
        refusals := refusals + 1;
      }
      OutcomeFresh(w, pageSize, mmapSize, ok, block);
    }

    /** arena_release_block. */
    method ReleaseBlock(block: nat, mmapSize: nat)
      requires Repr() && block in mapped && mapped[block] == mmapSize
      modifies this`mapped, this`chunks, this`arenas, this`arenaCacheCount, arenaCache, this`world
      ensures Repr() && world == Released(old(world), block)
      ensures chunks == old(chunks) - {block} && arenas == old(arenas) - {block}
      ensures old(arenaCacheCount) < CACHE_SIZE ==>
                && mapped == old(mapped) && arenaCacheCount == old(arenaCacheCount) + 1
                && arenaCache[old(arenaCacheCount)] == Entry(block, mmapSize)
                && forall i :: 0 <= i < old(arenaCacheCount) ==> arenaCache[i] == old(arenaCache[i])
      ensures old(arenaCacheCount) == CACHE_SIZE ==>
                && mapped == old(mapped) - {block} && arenaCacheCount == old(arenaCacheCount)
                && forall i :: 0 <= i < CACHE_SIZE ==> arenaCache[i] == old(arenaCache[i])
    {
      ghost var w := world;
      if arenaCacheCount < CACHE_SIZE {
        arenaCache[arenaCacheCount] := Entry(block, mmapSize);
        arenaCacheCount := arenaCacheCount + 1;
        assert Front(Snap(arenaCache), arenaCacheCount) == w.cache + [Entry(block, mmapSize)];
      } else {
        PlatformUnmap(block, mmapSize);
      }
      chunks, arenas := chunks - {block}, arenas - {block};
      world := Released(w, block);
      ClearLess(reserved, old(mapped), mapped);
    }

    // ----- tracking ------------------------------------------------------------------------

    /** The counters after m more bytes. */
    method TrackMapped(m: nat)
      modifies this`arenaTotalBytes, this`totalMappedBytes, this`peakMappedBytes, this`moments
      ensures Counts() == Gained(tracking, old(Counts()), m)
      ensures moments == Noted(tracking, old(moments), Counts())
    {
      if tracking {
        arenaTotalBytes := WrapAdd(arenaTotalBytes, m);
        totalMappedBytes := WrapAdd(totalMappedBytes, m);
        if totalMappedBytes > peakMappedBytes {
          peakMappedBytes := totalMappedBytes;
        }
        moments := moments + [totalMappedBytes];
      }
    }

    /** The counters after m bytes less. */
    method TrackReleased(m: nat)
      modifies this`arenaTotalBytes, this`totalMappedBytes, this`moments
      ensures Counts() == Lost(tracking, old(Counts()), m)
      ensures moments == Noted(tracking, old(moments), Counts())
    {
      if tracking {
        arenaTotalBytes := WrapSub(arenaTotalBytes, m);
        totalMappedBytes := WrapSub(totalMappedBytes, m);
        moments := moments + [totalMappedBytes];
      }
    }

    // ----- creating ------------------------------------------------------------------------

    /** Writes the headers of a new arena into its first block, and counts it. */
    method WriteHeaders(block: nat, mmapSize: nat, header: Header)
      requires Repr() && mmapSize >= ARENA_HEADER + CHUNK_HEADER
      modifies this`chunks, this`arenas, this`world,
               this`arenaCreateCount, this`arenaTotalBytes, this`totalMappedBytes, this`peakMappedBytes, this`moments
      ensures Repr() && world == WithArena(old(world), block, mmapSize, header)
      ensures Counts() == Opened(tracking, old(Counts()), mmapSize)
      ensures moments == Noted(tracking, old(moments), Counts())
    {
      hide WithArena, Noted, Clear;
      var overhead := ARENA_HEADER + CHUNK_HEADER;
      WithArenaReal(world, block, mmapSize, header);
      chunks := chunks[block := Chunk(0, mmapSize, mmapSize - overhead, 0, block + overhead)];
      arenas := arenas[block := header];
      world := WithArena(world, block, mmapSize, header);
      if tracking {
        arenaCreateCount := WrapAdd(arenaCreateCount, 1);
      }
      TrackMapped(mmapSize);
    }

    /** arena_make_first. */
    method MakeFirst(capacity: nat, initialChunkSize: nat, maxChunkSize: nat, growable: bool)
      returns (ok: bool, arena: nat)
      requires Valid()
      modifies this, arenaCache
      ensures Valid()
      ensures !ok ==> arena == 0 && world == old(world) && Counts() == old(Counts())
      ensures moments == if ok then Noted(tracking, old(moments), Counts()) else old(moments)
      ensures ok <==> capacity > 0 && FirstSize(capacity, pageSize).Some? && refusals == old(refusals)
      ensures FirstSize(capacity, pageSize).Some? && Stocked(old(world), FirstSize(capacity, pageSize).value) ==>
                refusals == old(refusals)
      ensures ok ==> NewArena(old(world), world, arena, capacity, pageSize,
                              Header(arena, arena, 0, initialChunkSize, maxChunkSize, growable))
      ensures ok ==> Counts() == Opened(tracking, old(Counts()), FirstSize(capacity, pageSize).value)
    {
      hide Inv, WithArena, BooksOk, Noted, Clear, RoundUp, MapOutcome, Front, Opened, NewArena, FirstSize,
           Stocked, TookBlock;
      FirstSizeIs(capacity, pageSize);
      if capacity == 0 {
        return false, 0;
      }
      var totalRaw := SafeAdd(ARENA_HEADER + CHUNK_HEADER, capacity);
      if totalRaw.None? {
        return false, 0;
      }
      var mmapSize := AlignUp(totalRaw.value, pageSize);
      if mmapSize.None? {
        return false, 0;
      }
      ghost var w, t, ms := world, Counts(), moments;
      ok, arena := MapBlock(mmapSize.value);
      MapOutcomeParts(w, world, pageSize, mmapSize.value, ok, arena);
      if !ok {
        return false, 0;
      }
      ghost var u := world;
      var header := Header(arena, arena, 0, initialChunkSize, maxChunkSize, growable);
      WriteHeaders(arena, mmapSize.value, header);
      OpenStep(w, u, pageSize, tracking, t, ms, arena, capacity, header);
    }

    /** arena_create. */
    method Create(capacity: nat) returns (ok: bool, arena: nat)
      requires Valid()
      modifies this, arenaCache
      ensures Valid()
      ensures !ok ==> arena == 0 && world == old(world) && Counts() == old(Counts())
      ensures moments == if ok then Noted(tracking, old(moments), Counts()) else old(moments)
      ensures ok <==> capacity > 0 && FirstSize(capacity, pageSize).Some? && refusals == old(refusals)
      ensures FirstSize(capacity, pageSize).Some? && Stocked(old(world), FirstSize(capacity, pageSize).value) ==>
                refusals == old(refusals)
      ensures ok ==> NewArena(old(world), world, arena, capacity, pageSize,
                              Header(arena, arena, 0, capacity, capacity, false))
      ensures ok ==> Counts() == Opened(tracking, old(Counts()), FirstSize(capacity, pageSize).value)
    {
      hide Inv, BooksOk, Front, Noted, Clear, Opened, FirstSize, NewArena, Stocked;
      ok, arena := MakeFirst(capacity, capacity, capacity, false);
    }

    /** arena_create_growable. */
    method CreateGrowable(initialChunkSize: nat, maxChunkSize: nat) returns (ok: bool, arena: nat)
      requires Valid()
      modifies this, arenaCache
      ensures Valid()
      ensures !ok ==> arena == 0 && world == old(world) && Counts() == old(Counts())
      ensures moments == if ok then Noted(tracking, old(moments), Counts()) else old(moments)
      ensures ok <==> && initialChunkSize > 0 && (maxChunkSize == 0 || maxChunkSize >= initialChunkSize)
                      && FirstSize(initialChunkSize, pageSize).Some? && refusals == old(refusals)
      ensures FirstSize(initialChunkSize, pageSize).Some?
              && Stocked(old(world), FirstSize(initialChunkSize, pageSize).value) ==>
                refusals == old(refusals)
      ensures ok ==> NewArena(old(world), world, arena, initialChunkSize, pageSize,
                              Header(arena, arena, 0, initialChunkSize, maxChunkSize, true))
      ensures ok ==> Counts() == Opened(tracking, old(Counts()), FirstSize(initialChunkSize, pageSize).value)
    {
      hide Inv, BooksOk, Front, Noted, Clear, Opened, FirstSize, NewArena, Stocked;
      if initialChunkSize == 0 {
        return false, 0;
      }
      if maxChunkSize != 0 && maxChunkSize < initialChunkSize {
        return false, 0;
      }
      ok, arena := MakeFirst(initialChunkSize, initialChunkSize, maxChunkSize, true);
    }

    // ----- allocating ----------------------------------------------------------------------

    /** arena_try_alloc_in_chunk, in the arithmetic of the source. */
    method TryAllocInChunk(chunk: nat, size: nat, alignment: nat) returns (ok: bool, ptr: nat)
      requires chunk in chunks && size > 0 && alignment > 0 && RoomOk(chunks[chunk])
      modifies this`chunks
      ensures chunk in old(chunks) && ok == PlaceIn(old(chunks)[chunk], size, alignment).Some?
      ensures !ok ==> ptr == 0 && chunks == old(chunks)
      ensures ok ==> var off := PlaceIn(old(chunks)[chunk], size, alignment).value;
                     && ptr == old(chunks)[chunk].memoryStart + off
                     && chunks == old(chunks)[chunk := old(chunks)[chunk].(used := off + size)]
    {
      hide RoundUp;
      var c := chunks[chunk];
      var current := WrapAdd(c.memoryStart, c.used);
      var alignedRaw := AlignUp(current, alignment);
      if alignedRaw.None? {
        return false, 0;
      }
      var alignedOffset := WrapSub(alignedRaw.value, c.memoryStart);
      var end := SafeAdd(alignedOffset, size);
      if end.None? {
        return false, 0;
      }
      if end.value > c.capacity {
        return false, 0;
      }
      chunks := chunks[chunk := c.(used := end.value)];
      return true, c.memoryStart + alignedOffset;
    }

    /** Writes the header of a new chunk, appends it to the chain and counts it. */
    method LinkChunk(arena: nat, block: nat, mmapSize: nat)
      requires Repr() && arena in arenas && arenas[arena].currentChunk in chunks && mmapSize >= CHUNK_HEADER
      modifies this`chunks, this`arenas, this`world,
               this`arenaTotalBytes, this`totalMappedBytes, this`peakMappedBytes, this`moments
      ensures Repr() && world == Linked(old(world), arena, block, mmapSize)
      ensures Counts() == Gained(tracking, old(Counts()), mmapSize)
      ensures moments == Noted(tracking, old(moments), Counts())
    {
      hide Gained, Noted, Clear;
      ghost var w := world;
      var current := arenas[arena].currentChunk;
      chunks := chunks[block := Chunk(0, mmapSize, mmapSize - CHUNK_HEADER, 0, block + CHUNK_HEADER)];
      chunks := chunks[current := chunks[current].(next := block)];
      arenas := arenas[arena := arenas[arena].(currentChunk := block)];
      world := Linked(w, arena, block, mmapSize);
      TrackMapped(mmapSize);
    }

    /** arena_grow. The new block counts as the arena's once a request is placed in it:
        until then the headers and counters run ahead of the books. w: the world before
        the block was linked. */
    method Grow(arena: nat, minCapacity: nat) returns (ok: bool, ghost w: World)
      requires Valid() && arena in world.chains
      modifies this`mapped, this`refusals, this`arenaCacheCount, arenaCache, this`chunks, this`arenas, this`world,
               this`arenaTotalBytes, this`totalMappedBytes, this`peakMappedBytes, this`moments
      ensures Repr()
      ensures ok <==> GrowLast(old(world), arena, minCapacity, pageSize).Some? && refusals == old(refusals)
      ensures GrowLast(old(world), arena, minCapacity, pageSize).Some?
              && Stocked(old(world), GrowLast(old(world), arena, minCapacity, pageSize).value) ==>
                ok
      ensures !ok ==> world == old(world) && Counts() == old(Counts())
      ensures moments == if ok then Noted(tracking, old(moments), Counts()) else old(moments)
      ensures ok ==> GrownBy(old(world), w, world, pageSize, arena,
                             GrowLast(old(world), arena, minCapacity, pageSize).value)
      ensures ok ==> Counts() == Gained(tracking, old(Counts()),
                                        GrowLast(old(world), arena, minCapacity, pageSize).value)
    {
      hide Inv, BooksOk, Noted, Clear, RoundUp, MapOutcome, Front, Gained, GrowLast, GrownBy, Linked,
           Stocked, TookBlock;
      LastChunk(world, pageSize, {}, arena);
      ghost var w0 := world;
      w := world;
      var h := arenas[arena];
      var lastCapacity := chunks[h.currentChunk].capacity;
      var targetCapacity := WrapAdd(lastCapacity, lastCapacity);
      if targetCapacity < minCapacity {
        targetCapacity := minCapacity;
      }
      if h.maxChunkSize != 0 && targetCapacity > h.maxChunkSize {
        targetCapacity := h.maxChunkSize;
      }
      if targetCapacity < minCapacity {
        targetCapacity := minCapacity;
      }
      assert targetCapacity == GrowTarget(lastCapacity, minCapacity, h.maxChunkSize);
      hide GrowTarget;
      GrowLastIs(w0, arena, minCapacity, pageSize);
      var totalRaw := SafeAdd(CHUNK_HEADER, targetCapacity);
      if totalRaw.None? {
        return false, w;
      }
      var mmapSize := AlignUp(totalRaw.value, pageSize);
      if mmapSize.None? {
        return false, w;
      }
      var block;
      ok, block := MapBlock(mmapSize.value);
      MapOutcomeParts(w0, world, pageSize, mmapSize.value, ok, block);
      if !ok {
        return false, w;
      }
      w := world;
      LinkChunk(arena, block, mmapSize.value);
      GrownByIs(w0, w, pageSize, arena, mmapSize.value, block);
    }

    /** The second try of arena_allocate, in the chunk just grown. */
    method PlaceInGrown(arena: nat, size: nat, alignment: nat, ghost w: World, ghost u: World, ghost m: nat)
      returns (ok: bool, ptr: nat)
      requires Repr() && GrownReady(w, u, world, pageSize, arena, m)
      requires size > 0 && alignment > 0
      modifies this`chunks, this`arenas, this`world
      ensures Repr() && arena in old(arenas) && arena in u.logs && arena in u.chains
      ensures arena in u.arenas && u.arenas[arena].currentChunk in u.chunks && m >= CHUNK_HEADER
      ensures world == GrownWorld(u, arena, old(arenas)[arena].currentChunk, m, size, alignment)
      ensures ptr == GrownAt(old(arenas)[arena].currentChunk, m, size, alignment)
      ensures ok <==> Place(old(arenas)[arena].currentChunk + CHUNK_HEADER, m - CHUNK_HEADER, 0, size, alignment).Some?
    {
      hide Front, RoundUp, Place, Linked, GrownWorld, GrownLog, Inv, Clear;
      ghost var v := world;
      var block := arenas[arena].currentChunk;
      GrownLogIs(block, m, size, alignment);
      ok, ptr := TryAllocInChunk(block, size, alignment);
      if ok {
        arenas := arenas[arena := arenas[arena].(allocationCount := WrapAdd(arenas[arena].allocationCount, 1))];
      }
      GrownReal(u, v, chunks, arenas, arena, block, m, size, alignment);
      world := GrownWorld(u, arena, block, m, size, alignment);
    }

    /** The second half of arena_allocate: grows, and tries the request in the new chunk,
        which has room for it exactly when size + alignment did not wrap around. */
    method GrowAndPlace(arena: nat, size: nat, alignment: nat) returns (ok: bool, ptr: nat)
      requires Valid() && arena in world.chains && 0 < size < WORD && 0 < alignment < WORD && IsPow2(alignment)
      requires Growable(world, arena) && PlaceLast(world, arena, size, alignment).None?
      modifies this, arenaCache
      ensures Valid()
      ensures ok <==> && MustGrow(old(world), arena, size, alignment, pageSize) && refusals == old(refusals)
                      && size + alignment < WORD
      ensures !ok ==> ptr == 0
      ensures if MustGrow(old(world), arena, size, alignment, pageSize) && refusals == old(refusals)
              then Grew(old(world), world, arena, ptr, size, alignment, old(Counts()), old(moments))
              else world == old(world) && Counts() == old(Counts()) && moments == old(moments)
    {
      hide Inv, BooksOk, Front, Gained, Noted, GrownBy, GrownReady, GrowLast, GrownFor, PlaceLast, IsPow2,
           GrownWorld, GrownAt, Place, Clear, Stocked, TookBlock;
      ghost var w, t, ms := world, Counts(), moments;
      var minCapacity := WrapAdd(size, alignment);
      ghost var u;
      ok, u := Grow(arena, minCapacity);
      if !ok {
        return false, 0;
      }
      ghost var m := GrowLast(w, arena, minCapacity, pageSize).value;
      GrowLastIs(w, arena, minCapacity, pageSize);
      GrownChunk(w, u, world, pageSize, arena, m);
      ghost var block := arenas[arena].currentChunk;
      ok, ptr := PlaceInGrown(arena, size, alignment, w, u, m);
      FinishGrow(w, u, world, pageSize, tracking, t, ms, arena, block, m, size, alignment);
      if !ok {
        NowhereIs(block, m, size, alignment);
        ptr := 0;
      }
    }

    /** The arena grew by a chunk for the request, and the counters by its size. */
    ghost predicate Grew(w: World, v: World, a: nat, ptr: nat, size: nat, align: nat, t: Tally, ms: seq<nat>)
      reads this
    {
      && pageSize > 0 && GrowLast(w, a, WrapAdd(size, align), pageSize).Some?
      && var m := GrowLast(w, a, WrapAdd(size, align), pageSize).value;
         && GrownFor(w, v, a, m, ptr, size, align)
         && Counts() == Gained(tracking, t, m) && moments == Noted(tracking, ms, Counts())
    }

    /** arena_allocate, for all sizes and alignments. When size + alignment wraps around,
        the request fails and a growable arena is left with a stray chunk. */
    method Allocate(arena: nat, size: nat, alignment: nat) returns (ok: bool, ptr: nat)
      requires Valid() && arena in world.chains && size < WORD && alignment < WORD
      modifies this, arenaCache
      ensures Valid()
      ensures ok <==> && size > 0 && alignment > 0 && IsPow2(alignment)
                      && (PlaceLast(old(world), arena, size, alignment).Some?
                          || (MustGrow(old(world), arena, size, alignment, pageSize)
                              && refusals == old(refusals) && size + alignment < WORD))
      ensures !ok ==> ptr == 0
      ensures ok && PlaceLast(old(world), arena, size, alignment).Some? ==>
                PlacedIn(old(world), world, arena, ptr, size, alignment)
      ensures if MustGrow(old(world), arena, size, alignment, pageSize) && refusals == old(refusals)
              then Grew(old(world), world, arena, ptr, size, alignment, old(Counts()), old(moments))
              else (ok || world == old(world)) && Counts() == old(Counts()) && moments == old(moments)
    {
      hide Inv, BooksOk, Front, Gained, Noted, RoundUp, Place, GrowLast, GrownFor, IsPow2, BitAnd, WithPlaced, Clear;
      if size == 0 || alignment == 0 {
        return false, 0;
      }
      BitTestExact(alignment);
      if BitAnd(alignment, alignment - 1) != 0 {
        return false, 0;
      }
      ghost var w := world;
      LastChunk(w, pageSize, {}, arena);
      ok, ptr := TryAllocInChunk(arenas[arena].currentChunk, size, alignment);
      if ok {
        arenas := arenas[arena := arenas[arena].(allocationCount := WrapAdd(arenas[arena].allocationCount, 1))];
        ghost var off := PlaceLast(w, arena, size, alignment).value;
        PlacedReal(w, arena, off, size, alignment);
        world := WithPlaced(w, arena, off, size, alignment);
        PlaceStep(w, pageSize, arena, off, size, alignment);
      } else if arenas[arena].growable {
        ok, ptr := GrowAndPlace(arena, size, alignment);
      }
    }

    // ----- destroying and resetting ------------------------------------------------------

    /** One turn of the loop of arena_destroy and arena_reset. The header of chunk is read
        before its block goes. */
    method ReleaseNext(arena: nat, chunk: nat, ghost rest: seq<nat>, ghost live: nat) returns (next: nat)
      requires Between({}, {arena}) && FirstOk(world, arena) && Tail(world, arena, chunk, rest) && chunk != 0
      requires Books(live)
      modifies this`mapped, this`chunks, this`arenas, this`arenaCacheCount, arenaCache, this`world,
               this`arenaTotalBytes, this`totalMappedBytes, this`moments
      ensures Between({}, {arena}) && FirstOk(world, arena) && Books(live)
      ensures rest != [] && Tail(world, arena, next, rest[1..])
      ensures Shrunk(old(world), world, arena, [rest[0]]) && rest[0] in old(world).owned
      ensures moments == Noted(tracking, old(moments), Counts())
    {
      hide Inv, BooksOk, Front, Lost, Noted, Clear, Tail, FirstOk, Released, Shrunk;
      ghost var w, t, ms := world, Counts(), moments;
      TailStep(w, pageSize, arena, chunk, rest);
      LostOk(tracking, t, ms, w.owned, live, chunk);
      ShrunkOne(w, arena, chunk);
      next := chunks[chunk].next;
      var chunkMmapSize := chunks[chunk].mmapSize;
      TrackReleased(chunkMmapSize);
      world := w.(owned := w.owned - {chunk}, owner := w.owner - {chunk});
      ReleaseBlock(chunk, chunkMmapSize);
    }

    /** The loop of arena_destroy and arena_reset: releases all chunks past the first of
        an arena being taken apart. */
    method ReleaseRest(arena: nat, ghost blocks: seq<nat>, ghost live: nat)
      requires Between({}, {arena}) && FirstOk(world, arena) && arena in chunks
      requires Tail(world, arena, chunks[arena].next, blocks)
      requires Books(live)
      modifies this`mapped, this`chunks, this`arenas, this`arenaCacheCount, arenaCache, this`world,
               this`arenaTotalBytes, this`totalMappedBytes, this`moments
      ensures Between({}, {arena}) && FirstOk(world, arena) && Tail(world, arena, 0, [])
      ensures Books(live)
      ensures Shrunk(old(world), world, arena, blocks) && old(moments) <= moments
    {
      hide Inv, BooksOk, Front, Clear, Tail, FirstOk, Shrunk, Members, Kept, EntriesOf, Released, Noted, Snap;
      ghost var w, rest, done, ms := world, blocks, [], moments;
      ShrunkNone(w, arena);
      var chunk := chunks[arena].next;
      while chunk != 0
        invariant Between({}, {arena}) && FirstOk(world, arena) && Tail(world, arena, chunk, rest)
        invariant Books(live)
        invariant done + rest == blocks && Shrunk(w, world, arena, done) && ms <= moments
        decreases |rest|
      {
        ghost var u, before := world, moments;
        chunk := ReleaseNext(arena, chunk, rest, live);
        PrefixChain(ms, before, moments);
        ShrunkMore(w, u, world, arena, done, rest[0]);
        NextTurn(done, rest, blocks);
        done, rest := done + [rest[0]], rest[1..];
      }
      TailEnd(world, arena, rest);
      assert done == blocks;
    }

    /** Takes arena apart up to its first block. */
    method TakeApart(arena: nat)
      requires Valid() && arena in world.chains
      modifies this`mapped, this`chunks, this`arenas, this`arenaCacheCount, arenaCache, this`world,
               this`arenaTotalBytes, this`totalMappedBytes, this`moments
      ensures Between({}, {arena}) && FirstOk(world, arena) && Tail(world, arena, 0, [])
      ensures Books(|old(world).chains|)
      ensures TakenApart(old(world), world, arena) && old(moments) <= moments
    {
      hide Inv, BooksOk, Front, Clear, Tail, FirstOk, Shrunk, TakenApart;
      ghost var w, live := world, |world.chains|;
      CloseStep(w, pageSize, arena);
      TailStart(w, pageSize, arena);
      ghost var blocks := w.chains[arena][1..];
      world := w.(chains := w.chains - {arena}, logs := w.logs - {arena});
      TailSame(w, world, arena, blocks);
      ghost var v := world;
      ReleaseRest(arena, blocks, live);
      TakenApartIs(w, v, world, arena);
    }

    /** The rest of arena_destroy: counts the arena as gone and releases its first block,
        and the arena header with it. */
    method ReleaseFirst(arena: nat, ghost w: World)
      requires Between({}, {arena}) && FirstOk(world, arena) && Tail(world, arena, 0, [])
      requires Inv(w, pageSize, {}, {}) && |w.chains| > 0
      requires Books(|w.chains|)
      modifies this`mapped, this`chunks, this`arenas, this`arenaCacheCount, arenaCache, this`world,
               this`arenaDestroyCount, this`arenaTotalBytes, this`totalMappedBytes, this`moments
      ensures Between({}, {}) && Books(|w.chains| - 1)
      ensures FirstReleased(old(world), world, arena) && old(moments) <= moments
      ensures tracking ==> arenaDestroyCount == WrapAdd(old(arenaDestroyCount), 1)
    {
      hide Inv, BooksOk, Front, Lost, Noted, Clear, Tail, Released, FirstOk, Closed, FirstReleased;
      ghost var v, t, ms := world, Counts(), moments;
      FirstHeader(v, arena);
      LastBlockStep(v, pageSize, arena);
      FirstReleasedIs(v, arena);
      BooksClose(w, pageSize, tracking, t, ms, v.owned, arena, |w.chains|);
      var firstMmapSize := chunks[arenas[arena].firstChunk].mmapSize;
      ClosedIs(tracking, t, firstMmapSize);
      if tracking {
        arenaDestroyCount := WrapAdd(arenaDestroyCount, 1);
      }
      TrackReleased(firstMmapSize);
      world := v.(owned := v.owned - {arena}, owner := v.owner - {arena});
      ReleaseBlock(arena, firstMmapSize);
    }

    /** arena_destroy. */
    method Destroy(arena: nat)
      requires Valid() && arena in world.chains
      modifies this, arenaCache
      ensures Valid() && Destroyed(old(world), world, arena) && old(moments) <= moments
      ensures arenaCreateCount == old(arenaCreateCount) && peakMappedBytes == old(peakMappedBytes)
      ensures tracking ==> arenaDestroyCount == WrapAdd(old(arenaDestroyCount), 1)
      ensures refusals == old(refusals)
    {
      hide Inv, BooksOk, Front, Clear, Tail, FirstOk, TakenApart, FirstReleased, Destroyed;
      ghost var w := world;
      TakeApart(arena);
      ghost var v := world;
      ReleaseFirst(arena, w);
      DestroyedIs(w, v, world, arena);
    }

    /** The rest of arena_reset: puts arena back in service with its first chunk, empty. */
    method Restart(arena: nat)
      requires Between({}, {arena}) && FirstOk(world, arena) && Tail(world, arena, 0, [])
      modifies this`chunks, this`arenas, this`world
      ensures Between({}, {})
      ensures arena in old(world).chunks && arena in old(world).arenas && world == WithReset(old(world), arena)
    {
      hide Inv, Front, Tail, WithReset, FirstOk, Clear;
      ghost var v := world;
      FirstHeader(v, arena);
      ResetReady(v, arena);
      ResetStep(v, pageSize, arena);
      WithResetReal(v, arena);
      var first := arenas[arena].firstChunk;
      chunks := chunks[first := chunks[first].(next := 0, used := 0)];
      arenas := arenas[arena := arenas[arena].(currentChunk := first, allocationCount := 0)];
      world := WithReset(v, arena);
    }

    /** arena_reset. */
    method Reset(arena: nat)
      requires Valid() && arena in world.chains
      modifies this, arenaCache
      ensures Valid() && WasReset(old(world), world, arena) && old(moments) <= moments
      ensures arenaCreateCount == old(arenaCreateCount) && arenaDestroyCount == old(arenaDestroyCount)
      ensures peakMappedBytes == old(peakMappedBytes) && refusals == old(refusals)
    {
      hide Inv, BooksOk, Front, Clear, Tail, FirstOk, TakenApart, WithReset, WasReset;
      ghost var w := world;
      TakeApart(arena);
      ghost var v := world;
      Restart(arena);
      WasResetIs(w, v, arena);
    }

    // ----- statistics ----------------------------------------------------------------------

    /** arena_get_stats: exact, although every sum is taken on size_t. */
    method GetStats(arena: nat) returns (capacity: nat, used: nat, allocationCount: nat, chunkCount: nat, reserved: nat)
      requires Valid() && arena in world.chains
      ensures arena in world.logs
      ensures capacity == TotalCap(world.logs[arena]) && used == TotalUsed(world.logs[arena])
      ensures chunkCount == |world.chains[arena]| && reserved == SumOver(world.owned, world.chains[arena])
      ensures allocationCount == RequestCount(world.logs[arena])
    {
      hide Inv, BooksOk, Clear, Front, SumOver, TotalCap, TotalUsed, Chain;
      ghost var w, chain := world, world.chains[arena];
      StatsStart(w, pageSize, arena);
      ghost var logs := w.logs[arena];
      chunkCount, capacity, used, reserved := 0, 0, 0, 0;
      var chunk := arenas[arena].firstChunk;
      ghost var i := 0;
      while chunk != 0
        invariant 0 <= i <= |chain| && chunk == (if i < |chain| then chain[i] else 0)
        invariant chunkCount == i && capacity == TotalCap(logs[..i]) && used == TotalUsed(logs[..i])
        invariant reserved == SumOver(w.owned, chain[..i])
        decreases |chain| - i
      {
        StatsStep(w, pageSize, arena, i);
        chunkCount := WrapAdd(chunkCount, 1);
        capacity := WrapAdd(capacity, chunks[chunk].capacity);
        used := WrapAdd(used, chunks[chunk].used);
        reserved := WrapAdd(reserved, chunks[chunk].mmapSize);
        chunk := chunks[chunk].next;
        i := i + 1;
      }
      if i < |chain| {
        StatsStep(w, pageSize, arena, i);
      }
      assert chain[..i] == chain && logs[..i] == logs;
      allocationCount := arenas[arena].allocationCount;
    }

    // ----- the end of the context ------------------------------------------------------------

    /** The cache part of context_destroy. What stays mapped is what arenas still own. */
    method ReleaseCache()
      requires Valid()
      modifies this`mapped
      ensures mapped == world.owned
      ensures mapped == map[] <==> world.chains == map[]
    {
      hide Inv, BooksOk, Clear, CacheOk, BlocksOf;
      ghost var w := world;
      CacheEntries(w, pageSize);
      var i := 0;
      while i < arenaCacheCount
        invariant 0 <= i <= arenaCacheCount == |w.cache| && arenaCacheCount <= CACHE_SIZE
        invariant mapped == w.mapped - BlocksOf(w.cache[..i])
      {
        NextEntry(w, i);
        assert w.cache[i] == arenaCache[i];
        PlatformUnmap(arenaCache[i].block, arenaCache[i].mmapSize);
        i := i + 1;
      }
      assert w.cache[..i] == w.cache;
      OwnedOrNothing(w, pageSize);
    }
  }
}
