# bc-allocators in Dafny

A model of the allocators of this repository and proofs about them.

* **The pool** (`Pools.Pool`) is the bump region with its page map, the nineteen size
  classes, the large blocks and the twenty two-tier free lists. Region memory is an
  `array<byte>`; links and large metadata are eight-byte little-endian words that are
  really stored in it and read back from it. Every method says that the pool moves along
  an abstract state machine (`Heaps`), and what happens to `Stored()`, the map from live
  blocks to their bytes. The files `Heap*.dfy` prove what that machine keeps over every
  run: each carved byte is in one block, each block is with one caller or in one slot of
  one tier of one list, the counters are exact, and no more is carved than the peak needs.
  `HeapLaws` says what every request is answered, block for block.
* **The slab** (`Slabs.Slab`) and **the typed array** (`TypedArrays.TypedArray`) are
  clients. They are proved against the contract of the pool alone: their data lives in
  the bytes of `Stored()`, and each method says that the blocks of everybody else are
  unchanged.
* **The arenas** (`Arenas.ArenaContext`) are chains of chunks in mappings of their own,
  with the block cache of the context. Headers are named by the address of the mapping
  that holds them. Releasing a mapping removes its headers, so reading a header after its
  block was released would not be well-formed. `ArenaWorld.Inv` ties the kernel's view of
  what is mapped to the chains and the cache.
* **The context** (`Contexts.Context`) joins a pool and the arenas: creation with its
  failure paths, statistics, and destruction with its leak reports.

`size_t` is 64 bits wide. Sums and products the source checks are checked (`SafeAdd`,
`SafeMultiply`, `AlignUp`), those it does not check wrap around (`WrapAdd`, `WrapSub`,
`Requested`, `Doubled`). Four unchecked sums and products can go wrong, and for each of
them a lemma says exactly when it does not:

* the bump sum of the pool: `PoolTheorems.WrapForgetsBlocks`, with the failing request
  `PoolTheorems.BumpTestWraps`. `Fits` and `ReFits` say that the sum does not wrap, in
  case the request carves at all; runs (`HeapRuns.Legal`) stay inside that bound;
* the bytes a slab page asks for: `SlabRuns.PageSafeExactly`, with the failing page
  `SlabRuns.WrappedPages`. A wrapped product the pool refuses is harmless and is modelled;
* size + alignment in an arena: `ArenaTheory.GrowthSufficesExactly` and
  `ArenaTheorems.StrayExactly`, with the failing request `ArenaTheory.StrayExample`. All
  requests are modelled: the failing ones leave an empty, stray chunk behind;
* capacity doubling in typed arrays: `TypedArrays.GrownIsLarger` for push, and
  `TypedArrays.DoublingEndsExactly` for append_bulk.

The kernel may answer a request for memory with any fresh range or refuse: the model
chooses freely.

## Model

| member | source | states |
|---|---|---|
| SizeClasses.ClassChoice | src/pool/bc_allocators_pool.c:25-35 | The class chosen is the least of the nineteen that fits; -1 exactly for sizes past 4 MiB |
| SizeClasses.ClassSizeIsPow2 | src/pool/bc_allocators_pool.c:16-18 | Class c has 2^(c + 4) bytes |
| FreeLists.PushBag | src/pool/bc_allocators_pool.c:37-46 | A push adds the pointer to the bag of both tiers |
| FreeLists.PopBag | src/pool/bc_allocators_pool.c:48-59 | A pop takes the pointer it returns out of the bag; NULL exactly when both tiers are empty |
| FreeLists.LifoExactlyWithinMagazine | src/pool/bc_allocators_pool.c:37-59 | k frees and k allocations give the same pointers in reverse, and the same list, if and only if k is at most 14 minus the magazine count |
| HeapRuns.FreeThenAllocate | src/pool/bc_allocators_pool.c:203-240 | Through the whole pool: an allocation right after a free of the same class returns that block exactly when the magazine had room |
| HeapLaws.ClassAnswer | src/pool/bc_allocators_pool.c:203-240 | A request up to 4 MiB gets the block its class list gives next; with both tiers empty, the start of a new extent exactly when the extent fits in the region, and nothing changes otherwise |
| HeapLaws.CarveOrder | src/pool/bc_allocators_pool.c:107-112 | After carving the magazine holds blocks 1, 2, ... in order, up to fourteen, and the overflow list the others, last first |
| HeapLaws.LargeAnswer | src/pool/bc_allocators_pool.c:115-149 | A request past 4 MiB gets the block the large list gives next exactly when it is at least as long as 16 + size rounded up to pages; otherwise that block goes back and a new extent is carved exactly when it fits |
| HeapLaws.FreeThenAllocateLarge | src/pool/bc_allocators_pool.c:115-160 | Freeing a large block and asking for no more than it holds gives it back exactly when the magazine had room; bump and free lists are then as before |
| HeapLaws.ReallocateAnswer | src/pool/bc_allocators_pool.c:242-311 | A class block stays exactly when the new size has its class, a large block exactly when its length covers the new size; everything else allocates, and frees the old block if and only if that succeeded; abstract machine, the source's while the bump sum fits (ReFits) |
| Words.DecodeEncode | src/pool/bc_allocators_pool.c:44-55 | A word survives the trip through its eight bytes |
| Words.GetPutSame | src/pool/bc_allocators_pool.c:44-55 | The link written into a block is the link read from it |
| Words.PutWordFrame | src/pool/bc_allocators_pool.c:44-45 | Writing a link changes no other byte |
| Pools.Pool.constructor | src/context/bc_allocators_context.c:81-112 | A new pool represents the empty heap, although only the list heads are reset |
| Pools.Pool.FreeListPush | src/pool/bc_allocators_pool.c:37-46 | Pushes the block; memory changes only inside it, and not at all while the magazine has room; no stored byte changes |
| Pools.Pool.FreeListPop | src/pool/bc_allocators_pool.c:48-59 | Takes what the abstract list gives; the link is read from the block itself |
| Pools.Pool.TagPageClass | src/pool/bc_allocators_pool.c:61-69 | Tags exactly the pages the range touches |
| Pools.Pool.BumpRaw | src/pool/bc_allocators_pool.c:71-79 | The bump moves exactly when the wrapped sum is within the region |
| Pools.Pool.PushRest | src/pool/bc_allocators_pool.c:107-111 | The loop frees every block of a fresh extent but the first and disturbs no live block |
| Pools.Pool.BumpAllocateClass | src/pool/bc_allocators_pool.c:81-113 | Carves, tags and splits one extent, or changes nothing |
| Pools.Pool.AllocateLarge | src/pool/bc_allocators_pool.c:115-149 | Moves the heap as specified: recycles the next large block exactly when it is long enough (LargeAnswer), else puts it back and carves; live contents untouched |
| Pools.Pool.FreeLarge | src/pool/bc_allocators_pool.c:151-160 | The block leaves the live set and enters the large list, its recorded user size wiped; other blocks keep their bytes |
| Pools.Pool.GetUsableSize | src/pool/bc_allocators_pool.c:187-201 | The usable size and kind the heap records, found through the page map |
| Pools.Pool.Allocate | src/pool/bc_allocators_pool.c:203-240 | Moves the heap as specified; on success the contents gain one block of at least the size asked for and no other byte changes; on failure contents stay |
| Pools.Pool.Free | src/pool/bc_allocators_pool.c:313-337 | Removes exactly the freed block from the contents; NULL, foreign and uncarved addresses change nothing |
| Pools.Pool.Reallocate | src/pool/bc_allocators_pool.c:242-311 | Same-class, in-place and moving paths: the common prefix survives, the old block is dead unless returned, all others are untouched; on failure contents stay |
| Pools.Pool.Write | src/pool/bc_allocators_pool.c:203-240 | Whatever a caller writes inside its own block, the pool stays intact and nobody else's bytes change |
| Extents.CarveSplits | src/pool/bc_allocators_pool.c:81-106 | An extent of a class splits into max(1, page / class size) blocks with nothing left over |
| Extents.EveryByteInABlock | src/pool/bc_allocators_pool.c:71-149 | Extents leave no gap below the bump |
| Extents.CarvedGeometry | src/pool/bc_allocators_pool.c:71-149 | No two carved blocks share a byte |
| Extents.CarvedAligned | src/pool/bc_allocators_pool.c:81-112 | Every block, fresh or recycled, starts at a multiple of min(class size, page size) |
| Extents.PagesAssigned | src/pool/bc_allocators_pool.c:61-69 | Pages are unassigned exactly when they lie past the bump |
| Extents.TagOfBytes | src/pool/bc_allocators_pool.c:61-69 | Every page that any byte of a block lies on carries the tag of its kind |
| HeapOps.AllocateKeeps | src/pool/bc_allocators_pool.c:203-240 | Allocation keeps the partition and adds one block that was not live, of the chosen class or as large as asked; abstract machine, the source's while the bump sum fits (Fits) |
| HeapOps.FreeKeeps | src/pool/bc_allocators_pool.c:313-337 | Free keeps the partition and removes one live block |
| HeapOps.ReallocateKeeps | src/pool/bc_allocators_pool.c:242-311 | Reallocation keeps the partition and renames one live block, or fails with live set, bump and counters as before; abstract machine, the source's while the bump sum fits (ReFits) |
| HeapOps.CarveClassLimbo | src/pool/bc_allocators_pool.c:81-113 | After carving, every block of the extent but the first is free, each once, and the first is held by nobody |
| HeapOps.PutBack | src/pool/bc_allocators_pool.c:132-140 | Putting a too small large block back changes at most the tier a free block sits in |
| HeapRuns.RunKeeps | src/pool/bc_allocators_pool.c:203-337 | In every heap of every legal run the partition holds and the counters are exact. A legal run passes live pointers and keeps every bump sum below 2^64 |
| HeapRuns.RunGrows | src/pool/bc_allocators_pool.c:203-337 | Along a legal run carved blocks are never dissolved, moved, resized or retagged |
| HeapRuns.EveryByteHeldOnce | src/pool/bc_allocators_pool.c:203-337 | Each byte below the bump is in one block, and that block is live or in one slot of one tier of its own list |
| HeapRuns.LivePayloads | src/pool/bc_allocators_pool.c:203-337 | Live payloads are in the region, disjoint, aligned, and on pages with their tag |
| HeapRuns.LiveSums | src/pool/bc_allocators_pool.c:162-178 | Count and bytes of the live blocks fit in size_t, so the counters cannot lie |
| HeapRuns.ReallocateExact | src/pool/bc_allocators_pool.c:242-311 | Counters stay exact over all reallocation paths of the abstract machine, which is the source's while the bump sum fits (ReFits) |
| HeapRuns.LeakCountersTell | src/context/bc_allocators_context.c:130-134 | The two call counters differ exactly when a block is live |
| HeapSpace.ClassCount | src/pool/bc_allocators_pool.c:81-113 | Live and free blocks of a class fill its extents exactly |
| HeapSpace.MoveFrugal | src/pool/bc_allocators_pool.c:242-311 | A move carves only for a new peak, although old and new block are live together; abstract machine, the source's while the bump sum fits (Fits) |
| HeapSpace.SpaceIsPeakDemand | src/pool/bc_allocators_pool.c:203-240 | Over every legal run, bump sums below 2^64 included, the extents carved for a class are ceil(peak live blocks / blocks per extent) |
| PoolTheorems.OverflowListEnds | src/pool/bc_allocators_pool.c:44-56 | Following the links in memory visits distinct free blocks of the right kind and ends at NULL |
| PoolTheorems.LargeMetaOverRun | src/pool/bc_allocators_pool.c:20-23 | Between any two heaps of a legal run the second word of a large block stays its carved length; while live its first word is its user size and 16 + user size fits |
| PoolTheorems.WrapForgetsBlocks | src/pool/bc_allocators_pool.c:71-79 | The bump stays above all carved blocks if and only if the sum fits in size_t; when it does not, the test always passes and the bump falls back |
| PoolTheorems.BumpTestExact | src/pool/bc_allocators_pool.c:71-79 | The bump test is right if and only if the sum fits in size_t |
| PoolTheorems.BumpTestWraps | src/pool/bc_allocators_pool.c:74-77 | An input on which the test passes and the bump goes back to zero |
| TypedArrays.FlatAt | include/public/bc_allocators_typed_array.h:122-126 | Element i lies at offset i times the element size |
| TypedArrays.TypedArray.Clear | include/public/bc_allocators_typed_array.h:85-88 | The sequence becomes empty, the block stays |
| TypedArrays.TypedArray.Destroy | include/public/bc_allocators_typed_array.h:90-96 | Gives the block back and nothing else |
| TypedArrays.TypedArray.Reserve | include/public/bc_allocators_typed_array.h:98-120 | Succeeds if and only if there is room already, or the byte size fits in size_t and the pool provides it; the sequence survives relocation, a failure changes nothing, other blocks are untouched |
| TypedArrays.TypedArray.Push | include/public/bc_allocators_typed_array.h:122-135 | Appends one element if and only if there is room or the pool provides the doubled capacity; otherwise changes nothing |
| TypedArrays.TypedArray.AppendBulk | include/public/bc_allocators_typed_array.h:137-158 | Appends the source elements if and only if there are none, or the new length fits in size_t and there is room or the pool provides the capacity asked for; otherwise changes nothing |
| TypedArrays.CapacityFor | include/public/bc_allocators_typed_array.h:149-152 | Whenever the doubling loop ends it ends with room for the required elements, at BulkCapacity |
| TypedArrays.BulkCapacityBounds | include/public/bc_allocators_typed_array.h:149-152 | required <= new capacity < max(9, 2 * required) whenever the loop ends |
| TypedArrays.BulkCapacityIsLeast | include/public/bc_allocators_typed_array.h:148-151 | The new capacity is the present one, or 8 for an empty array, times the least power of two that reaches required, on size_t |
| TypedArrays.DoublingEndsExactly | include/public/bc_allocators_typed_array.h:150-152 | From every capacity the loop ends if and only if required is at most the highest of sixty-three doublings on size_t |
| TypedArrays.ReachExact | include/public/bc_allocators_typed_array.h:150-152 | From every capacity the loop ends for required up to 2^63, and from powers of two for no more |
| TypedArrays.GrownIsLarger | include/public/bc_allocators_typed_array.h:129 | Doubling on push enlarges exactly below 2^63 |
| TypedArrays.PushRunDoubles | include/public/bc_allocators_typed_array.h:122-135 | n pushes with g growths end at capacity 8 * 2^(g - 1), below 2n once n exceeds 8 |
| TypedArrays.MovedBacks | include/public/bc_allocators_typed_array.h:112-117 | Elements lie in the prefix reallocation keeps |
| SlabTheory.SlotsDisjoint | src/slab/bc_allocators_slab.c:21-36 | Different slots never share a byte |
| SlabTheory.HeldSlotsDisjoint | src/slab/bc_allocators_slab.c:88-107 | A slot in use overlaps no other slot, used or free |
| SlabTheory.SlotCount | src/slab/bc_allocators_slab.c:109-118 | Used and free slots add up to slab_count * objects_per_slab |
| SlabTheory.PageSlotsOrder | src/slab/bc_allocators_slab.c:31-36 | A page is threaded last slot first |
| SlabTheory.SlotChainPush | include/internal/bc_allocators_free_list_internal.h:8-12 | A push through block memory extends the chain and keeps its other links |
| SlabTheory.PageStep | src/slab/bc_allocators_slab.c:13-29 | Linking a page keeps the slab, with all its slots counted as used until threaded |
| Slabs.Slab.PushSlot | include/internal/bc_allocators_free_list_internal.h:8-12 | The slot moves from used to free; blocks outside the slab unchanged |
| Slabs.Slab.PopSlot | include/internal/bc_allocators_free_list_internal.h:14-21 | The slot at the head moves from free to used |
| Slabs.Slab.AllocatePair | src/slab/bc_allocators_slab.c:15-26 | Both blocks of a page or neither, for the product as it wraps: the header block is given back when the objects block cannot be had |
| Slabs.Slab.AllocateNewPage | src/slab/bc_allocators_slab.c:13-39 | Threads all slots of a new page; on failure the pool holds what it held before |
| Slabs.Slab.Allocate | src/slab/bc_allocators_slab.c:88-101 | Succeeds if and only if a slot is free or the pool grants a page; hands out a slot not in use; a failure leaves slab and pool contents alone |
| Slabs.Slab.Free | src/slab/bc_allocators_slab.c:103-107 | The slot is the next one handed out |
| Slabs.Slab.WriteSlot | src/slab/bc_allocators_slab.c:88-101 | Whatever is written inside a slot in use, the slab stays intact |
| Slabs.Slab.GetStats | src/slab/bc_allocators_slab.c:109-118 | The totals fit in size_t, and free_objects is the length of the free list |
| Slabs.Slab.Create | src/slab/bc_allocators_slab.c:41-71 | Succeeds exactly for valid sizes when the pool grants the struct and a page; a failed create leaves the pool contents as they were |
| Slabs.Slab.Destroy | src/slab/bc_allocators_slab.c:73-86 | Returns exactly the blocks of this slab, outstanding objects or not |
| SlabRuns.PagesArePeakDemand | src/slab/bc_allocators_slab.c:88-107 | Over every run slab_count is max(1, ceil(peak used / objects_per_slab)) |
| Slabs.SlotsAlignedExactly | include/public/bc_allocators_slab.h:25 | Slots of a slab have the promised alignment N, for N up to the page size, if and only if a page has at most 4 MiB of objects or N is at most 16, and it has one object or the object size is a power of two |
| Slabs.PromiseFails | include/public/bc_allocators_slab.h:25 | With two objects of 24 bytes a page the promise fails |
| SlabRuns.PageSafeExactly | src/slab/bc_allocators_slab.c:22-26 | All slots lie in the block the pool grants, or it grants none, if and only if the product is below 2^64 or the pool refuses what it wraps to |
| SlabRuns.WrappedPages | src/slab/bc_allocators_slab.c:22 | With 2^61 + 1 slots of 8 bytes the third slot lies outside the 16 bytes granted; with 2^61 the pool refuses |
| ArenaTheory.BitTestExact | src/arena/bc_allocators_arena.c:230 | The bit test accepts exactly the powers of two |
| ArenaTheory.PlaceExact | src/arena/bc_allocators_arena.c:199-221 | A request is placed at the first aligned offset, and refused exactly when it does not fit there |
| ArenaTheory.GrowSizeBounds | src/arena/bc_allocators_arena.c:124-150 | The new chunk holds what is needed and is below max(2 * last, needed) plus a page |
| ArenaTheory.GrowSizeExact | src/arena/bc_allocators_arena.c:128-150 | The bytes mapped for a growth: the last capacity doubled on size_t, limited by a nonzero max_chunk_size, at least what is needed, plus header, rounded up; refused exactly when that overflows |
| ArenaTheory.GrowSizeLimits | src/arena/bc_allocators_arena.c:128-150 | A grown chunk is less than a page above the larger of max_chunk_size and the need, and reaches twice the last capacity or max_chunk_size, whichever is less |
| ArenaTheory.GrowthSufficesExactly | src/arena/bc_allocators_arena.c:243-251 | The grown chunk takes the request if and only if size + alignment does not wrap, wherever it lies and whatever max_chunk_size |
| ArenaTheory.RequestsDisjoint | src/arena/bc_allocators_arena.c:199-221 | Earlier requests of a chunk end before later ones start |
| ArenaTheory.GrowKeepsLogs | src/arena/bc_allocators_arena.c:223-252 | Growing keeps that each chunk was opened because the one before was too full, or is a stray one; it takes the request exactly when size + alignment did not wrap |
| ArenaTheory.StrayExample | src/arena/bc_allocators_arena.c:243 | 2^63 bytes aligned to 2^63 ask for no bytes and leave every grown chunk empty |
| ArenaTheory.AmortisedSpace | src/arena/bc_allocators_arena.c:124-163 | Without stray chunks, chunks before the last have less than twice the bytes requested, padding included; the last is bounded by its predecessor and first request |
| ArenaWorld.CacheTakeStep | src/arena/bc_allocators_arena.c:21-29 | Taking a block out of the cache keeps single ownership |
| ArenaWorld.ReleaseStep | src/arena/bc_allocators_arena.c:40-49 | Releasing a block keeps single ownership, whether it is cached or unmapped |
| ArenaWorld.GrowStep | src/arena/bc_allocators_arena.c:152-163 | Appending a chunk keeps every chain, every log and single ownership |
| ArenaWorld.TailStep | src/arena/bc_allocators_arena.c:178-187 | The next chunk to release is mapped, readable and not the first block; the rest stays a chain |
| ArenaWorld.LastBlockStep | src/arena/bc_allocators_arena.c:189-196 | Releasing the first block last, with the arena header in it, leaves the other arenas intact |
| ArenaWorld.OwnedSum | src/arena/bc_allocators_arena.c:94-101 | The sizes of all owned mappings add up to less than 2^64 |
| ArenaBooks.GainedOk | src/arena/bc_allocators_arena.c:94-101 | Mapping a block keeps the counters exact and the peak the largest value total_mapped_bytes ever had |
| ArenaBooks.LostOk | src/arena/bc_allocators_arena.c:182-195 | Releasing a block does the same |
| Arenas.ArenaContext.TrackMapped | src/arena/bc_allocators_arena.c:165-171 | Adds to both totals, records the moment, raises the peak |
| Arenas.ArenaContext.TrackReleased | src/arena/bc_allocators_arena.c:182-185 | Takes from both totals and records the moment |
| Arenas.ArenaContext.constructor | src/context/bc_allocators_context.c:114-128 | Nothing mapped, nothing cached, counters zero |
| Arenas.ArenaContext.MapBlock | src/arena/bc_allocators_arena.c:21-38 | The first cached block of that size if there is one, without asking the kernel and so never refused; else a fresh mapping |
| Arenas.ArenaContext.ReleaseBlock | src/arena/bc_allocators_arena.c:40-49 | With fewer than four entries the block stays mapped and its entry is appended; with four it is unmapped and the cache stays; its headers are gone |
| Arenas.ArenaContext.MakeFirst | src/arena/bc_allocators_arena.c:51-105 | Succeeds exactly when the size rounds and the kernel maps; otherwise nothing changes |
| Arenas.ArenaContext.Create | src/arena/bc_allocators_arena.c:107-110 | A new fixed arena with at least the capacity asked for and less than a page more |
| Arenas.ArenaContext.CreateGrowable | src/arena/bc_allocators_arena.c:112-122 | A new growable arena, or a refusal exactly for empty or inverted limits, rounding or mapping |
| Arenas.ArenaContext.TryAllocInChunk | src/arena/bc_allocators_arena.c:199-221 | The wrapping arithmetic of the source places exactly where Place says |
| Arenas.ArenaContext.Grow | src/arena/bc_allocators_arena.c:124-173 | Fails exactly when rounding or mapping fails, leaving everything, and never when the size is cached; else one chunk of the size GrowSizeExact gives is linked behind the last |
| Arenas.ArenaContext.GrowAndPlace | src/arena/bc_allocators_arena.c:239-251 | After a growth the request is placed exactly when size + alignment did not wrap around; otherwise the new chunk stays empty |
| Arenas.ArenaContext.Allocate | src/arena/bc_allocators_arena.c:223-252 | For all sizes and alignments: succeeds if and only if the request is valid and fits, or the arena grows, neither rounding nor mapping fails and size + alignment does not wrap; a failure changes nothing but for a stray chunk in the last case |
| Arenas.ArenaContext.ReleaseRest | src/arena/bc_allocators_arena.c:178-187 | Releases every chunk past the first, once, with exact counters after each |
| Arenas.ArenaContext.Destroy | src/arena/bc_allocators_arena.c:175-197 | Gives up exactly the blocks of the arena, header block last; the cache keeps the first of them it has room for, the others are unmapped |
| Arenas.ArenaContext.Reset | src/arena/bc_allocators_arena.c:270-289 | Keeps the first chunk, empty, and gives up the others to the cache while it has room; other arenas unchanged |
| Arenas.ArenaContext.GetStats | src/arena/bc_allocators_arena.c:312-333 | All sums are exact, and allocation_count is the number of requests since the last reset |
| Arenas.ArenaContext.ReleaseCache | src/context/bc_allocators_context.c:142-144 | What stays mapped is what live arenas own; nothing exactly when there are none |
| ArenaTheorems.AllocationExtends | src/arena/bc_allocators_arena.c:223-252 | An allocation appends one request to its arena and relocates none, here or elsewhere; a vain growth appends none |
| ArenaTheorems.StrayExactly | src/arena/bc_allocators_arena.c:243-251 | The chunk grown is a stray one, empty and with no address answered, if and only if size + alignment wrapped around |
| ArenaTheorems.RequestHome | src/arena/bc_allocators_arena.c:199-221 | Every range handed out is aligned as asked and inside the used part of one chunk |
| ArenaTheorems.RequestsApart | src/arena/bc_allocators_arena.c:199-252 | No two ranges handed out since the last reset overlap, within or across chunks and arenas |
| ArenaTheorems.CurrentIsLast | src/arena/bc_allocators_arena.c:162-163 | current_chunk is the one chunk without a successor of a chain without repetition |
| ArenaTheorems.OneOwner | src/arena/bc_allocators_arena.c:21-49 | Every mapping is in one chain of one arena or in the cache, never both |
| ArenaTheorems.ReleasedIsStocked | src/arena/bc_allocators_arena.c:21-49 | After a release with room in the cache, a mapping of that size needs no kernel |
| ArenaTheorems.DestroyedIsStocked | src/arena/bc_allocators_arena.c:175-197 | After a destroy the cache answers for every block of the arena it had room for |
| ArenaTheorems.DestroyThenCreate | src/arena/bc_allocators_arena.c:21-49 | An arena of one block, destroyed with room in the cache, makes the next arena of that size without the kernel, out of the same block unless that size was cached before |
| ArenaTheorems.ArenaSpace | src/arena/bc_allocators_arena.c:124-163 | Both halves of the amortised bound, for every arena without stray chunks in every reachable state |
| Contexts.AllocSizeExact | src/context/bc_allocators_context.c:17-30 | The least whole number of pages for the elements; refused exactly when there are none or no such size fits |
| Contexts.RegionSizesExact | src/context/bc_allocators_context.c:60-70 | The region is max_pool_memory, 1 GiB for 0, rounded up by less than a page; the page map has a byte for every page of it and less than a page more; refused exactly when the rounding overflows |
| Contexts.Create | src/context/bc_allocators_context.c:32-128 | Succeeds if and only if the page size is known, the sizes fit and the kernel refuses nothing; a failure comes with exactly one refusal or a size failure and leaves nothing mapped; a success gives an empty pool on a page-aligned region and no arenas |
| Contexts.ArenasApartFromPool | src/context/bc_allocators_context.c:81-93 | No arena mapping shares a byte with the pool region, the page map or the context |
| Contexts.Context.GetStats | src/context/bc_allocators_context.c:166-187 | Counters tell the live blocks and arenas, the peak is the largest moment; arena_active_count is the number of arenas exactly while creations have not wrapped past destructions |
| Contexts.Context.Destroy | src/context/bc_allocators_context.c:130-152 | Each kind of leak is reported exactly when something of the kind is live; nothing stays mapped exactly when no arena is live |
| Contexts.ArenaCountersTell | src/context/bc_allocators_context.c:136-139 | Creations and destructions differ exactly when an arena is live |

## Left out

- Pools.Pool.Allocate: requires that the bump sum, if the request carves, stays below 2^64; WrapForgetsBlocks says what the unchecked sum does otherwise.
- Pools.Pool.BumpAllocateClass: the same requirement, for the extent it carves.
- Pools.Pool.AllocateLarge: the same requirement, for a request no free block serves.
- Pools.Pool.Reallocate: a live block or NULL, and the same requirement when the block moves.
- Pools.Pool.Free: requires a live block, or an address outside the carved part of the region; double frees and pointers into the middle of blocks are not modelled.
- HeapOps.AllocateKeeps: about the abstract machine, which refuses a request whose bump sum wraps where the source takes it.
- HeapOps.ReallocateKeeps: the same.
- HeapLaws.ClassAnswer: the same.
- HeapLaws.LargeAnswer: the same.
- HeapLaws.ReallocateAnswer: the same.
- HeapRuns.ReallocateExact: the same.
- HeapSpace.MoveFrugal: the same.
- Slabs.Slab.Create: requires bump sums below 2^64, and a product below 2^64 unless the pool refuses what it wraps to; PageSafeExactly says that a page is safe in no other case.
- Slabs.Slab.AllocatePair: requires bump sums below 2^64.
- Slabs.Slab.AllocateNewPage: the same as slab creation.
- Slabs.Slab.Allocate: requires bump sums below 2^64 when the slab grows.
- Slabs.SlotsAlignedExactly: covers alignments up to the page size, since beyond it they depend on where the region lies; the comment in include/public/bc_allocators_slab.h:25 promises more than the code gives, and the model follows the code.
- TypedArrays.TypedArray.Push: requires a capacity below 2^63 when it must grow; beyond that the doubled capacity is no larger and the element is stored past the end, as GrownIsLarger tells.
- TypedArrays.TypedArray.AppendBulk: requires that the doubling loop ends, by the exact condition of DoublingEndsExactly; the source elements do not lie in the array.
- TypedArrays.CapacityFor: the same condition.
- TypedArrays.TypedArray.Reserve: requires a bump sum below 2^64 when it must ask the pool.
- Page size: a power of two of at least 16 bytes, as every platform of the library has.
- The C structs of slabs and contexts are class fields; a slab still holds the pool block its struct would lie in, and a context the mapping its struct would lie in.
- The free lists of a context are values in an array, one magazine and head each.
- Chunk and arena headers are records named by the address of their mapping, not bytes in it; bytes of arena memory are not modelled, so neither are the copies of copy_string nor the zeroing of reset_secure.
- madvise and arena_release_pages: no modelled effect.
- aligned_allocate and huge_page_allocate: thin wrappers over libc and the kernel.
- Cache line layout, huge page thresholds and cache_line_size: performance only.
- The text passed to the leak callback: only whether it is called.
- Threads: arenas and pool counters are for one thread.
- Getters of one field: easy members only.
