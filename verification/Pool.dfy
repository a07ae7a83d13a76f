/** The pool part of a context: the bump region, its page map, the free lists and
    the counters, updated in place. */
module Pools {
  import opened Words
  import opened SizeClasses
  import opened FreeLists
  import opened Extents
  import opened Heaps
  import opened HeapSteps
  import opened HeapOps
  import opened HeapRuns
  import opened PoolMemory
  import opened PoolPlans

  class Pool {
    const pageSize: nat
    const pageShift: nat
    const base: nat
    const totalSize: nat
    const tracking: bool

    const mem: array<byte>
    const pageClass: array<byte>
    const pools: array<Magazine>

    var bump: nat
    var allocCount: nat
    var freeCount: nat
    var activeBytes: nat

    /** The heap this pool represents. */
    ghost var heap: Heap

    ghost function Counters(): (s: Stats)
      reads this
    {
      Stats(tracking, allocCount, freeCount, activeBytes)
    }

    ghost predicate Config()
      reads this
    {
      && mem != pageClass
      && mem.Length == totalSize
      && pools.Length == LISTS
      && heap.page == pageSize == Pow2(pageShift) < WORD
      && heap.total == totalSize
      && base > 0 && base + totalSize <= WORD
      && pageSize > 0 && base % pageSize == 0
    }

    /** Region memory and free lists represent the heap. */
    ghost predicate Lists()
      reads this, mem, pools
    {
      Config() && Rep(heap, base, Snap(mem), Snap(pools))
    }

    ghost predicate Repr()
      reads this, mem, pageClass, pools
    {
      && Lists()
      && TagsOk(heap, Snap(pageClass))
      && bump == heap.bump
      && Counters() == heap.stats
    }

    /** The invariant between operations. */
    ghost predicate Valid()
      reads this, mem, pageClass, pools
    {
      Repr() && Full(heap) && Exact(heap)
    }

    ghost function Stored(): (m: map<nat, seq<byte>>)
      reads this, mem
    {
      Contents(heap, Snap(mem))
    }

    /** The pool part of context_create: fresh mappings are zero-filled, then the page
        map is filled with the unassigned tag and the list heads are reset. */
    constructor (base: nat, pageSize: nat, pageShift: nat, totalSize: nat, mapSize: nat, tracking: bool)
      requires pageSize == Pow2(pageShift) && 16 <= pageSize < WORD
      requires base > 0 && base + totalSize <= WORD && totalSize < WORD && base % pageSize == 0
      requires mapSize * pageSize >= totalSize
      ensures Valid() && fresh(mem) && fresh(pageClass) && fresh(pools)
      ensures heap == NewHeap(pageSize, totalSize, tracking) && Stored() == map[]
      ensures this.base == base && this.totalSize == totalSize && this.pageSize == pageSize
      ensures this.tracking == tracking
    {
      this.base, this.pageSize, this.pageShift, this.totalSize := base, pageSize, pageShift, totalSize;
      this.tracking := tracking;
      mem := new byte[totalSize](_ => 0);
      pageClass := new byte[mapSize](_ => TAG_UNASSIGNED);
      pools := new Magazine[LISTS](_ => Magazine(seq(MAG_SIZE, _ => 0), 0, 0));
      bump, allocCount, freeCount, activeBytes := 0, 0, 0, 0;
      heap := NewHeap(pageSize, totalSize, tracking);
      new;
      NewPlan(base, pageSize, pageShift, totalSize, tracking, Snap(mem), Snap(pools), Snap(pageClass));
    }

    // ----- free lists ---------------------------------------------------------------

    /** Pushes block p, which is in limbo, at address ptr. */
    method FreeListPush(k: nat, ptr: nat, ghost p: nat, ghost limbo: multiset<nat>)
      requires Lists() && Limbo(heap, k, limbo + multiset{p}) && k < LISTS
      requires ptr == Addr(base, k, p)
      modifies this`heap, mem, pools
      ensures Lists() && |old(heap).free| == LISTS
      ensures heap == PutFree(old(heap), k, p) == old(heap).(free := heap.free) && Limbo(heap, k, limbo)
      ensures SameExcept(old(heap), old(Snap(mem)), Snap(mem), p)
      ensures Stored() == old(Stored())
      ensures |old(heap).free[k].mag| < MAG_SIZE ==> Snap(mem) == old(Snap(mem))
    {
      hide Limbo, Rep, Addr, PutFree, SameExcept, PutWord, Contents, Pow2, Decode;
      ghost var h, m := heap, Snap(mem);
      PushPlan(h, base, m, Snap(pools), k, limbo, p);
      var fl := pools[k];
      if fl.count < MAG_SIZE {
        fl := fl.(mag := fl.mag[fl.count := ptr], count := fl.count + 1);
      } else {
        StoreWord(mem, ptr - base, fl.head);
        fl := fl.(head := ptr);
      }
      assert (fl, Snap(mem)) == PushResult(old(pools[k]), ptr, base, m);
      hide PushResult;
      pools[k] := fl;
      heap := PutFree(h, k, p);
    }

    /** Pops a block, which is in limbo from then on. NULL when both tiers are
        empty. */
    method FreeListPop(k: nat, ghost limbo: multiset<nat>) returns (ptr: nat, ghost p: Option<nat>)
      requires Lists() && Limbo(heap, k, limbo) && k < LISTS
      modifies this`heap, pools
      ensures Lists() && (heap, p) == TakeFree(old(heap), k)
      ensures ptr == if p.Some? then Addr(base, k, p.value) else 0
      ensures p.Some? ==> ptr > 0 && Limbo(heap, k, limbo + multiset{p.value})
      ensures p.None? ==> heap == old(heap)
    {
      hide Limbo, Rep, Addr, TakeFree, Pow2, Decode;
      ghost var h := heap;
      PopPlan(h, base, Snap(mem), Snap(pools), k, limbo);
      p := TakeFree(h, k).1;
      var fl := pools[k];
      if fl.count > 0 {
        ptr := fl.mag[fl.count - 1];
        fl := fl.(count := fl.count - 1);
      } else {
        ptr := fl.head;
        if ptr != 0 {
          var next := LoadWord(mem, ptr - base);
          fl := fl.(head := next);
        }
      }
      assert (fl, ptr) == PopMag(old(pools[k]), base, Snap(mem));
      hide PopMag;
      pools[k] := fl;
      heap := TakeFree(h, k).0;
    }

    // ----- carving ------------------------------------------------------------------

    /** Tags every page that holds one of size_bytes bytes at offset. */
    method TagPageClass(offset: nat, sizeBytes: nat, val: byte)
      requires sizeBytes > 0
      requires ShiftRight(offset + sizeBytes - 1, pageShift) < pageClass.Length
      modifies pageClass
      ensures Retagged(old(Snap(pageClass)), Snap(pageClass),
                       ShiftRight(offset, pageShift), ShiftRight(offset + sizeBytes - 1, pageShift), val)
    {
      hide ShiftRight;
      var startPage := ShiftRight(offset, pageShift);
      var endPage := ShiftRight(offset + sizeBytes - 1, pageShift);
      var p := startPage;
      while p <= endPage
        invariant startPage <= p && (p == startPage || p <= endPage + 1)
        invariant forall q {:trigger pageClass[q]} :: 0 <= q < pageClass.Length ==>
                    pageClass[q] == if startPage <= q < p then val else old(pageClass[q])
      {
        pageClass[p] := val;
        p := p + 1;
      }
    }

    /** Moves the bump. The sum wraps around as it does on size_t. */
    method BumpRaw(bytesNeeded: nat) returns (ptr: nat)
      requires bump <= totalSize && bytesNeeded < WORD
      modifies this`bump
      ensures WrapAdd(old(bump), bytesNeeded) > totalSize ==> ptr == 0 && bump == old(bump)
      ensures WrapAdd(old(bump), bytesNeeded) <= totalSize ==>
                ptr == base + old(bump) && bump == WrapAdd(old(bump), bytesNeeded)
    {
      var oldBump := bump;
      if WrapAdd(oldBump, bytesNeeded) > totalSize {
        return 0;
      }
      bump := WrapAdd(bump, bytesNeeded);
      ptr := base + oldBump;
    }

    /** The loop of BumpAllocateClass: frees all blocks of a fresh extent of class c
        at page_base but the first. */
    method PushRest(c: nat, pageBase: nat, blockSize: nat, numBlocks: nat, ghost start: nat)
      requires Lists() && c < CLASSES && pageBase == base + start && numBlocks >= 1
      requires blockSize == ClassSize(c)
      requires Limbo(heap, c, multiset{start} + multiset(Slots(start, blockSize, numBlocks)[1..]))
      modifies this`heap, mem, pools
      ensures Lists() && |old(heap).free| == LISTS
      ensures heap == old(heap).(free := heap.free)
      ensures heap == PutFreeAll(old(heap), c, Slots(start, blockSize, numBlocks)[1..])
      ensures Limbo(heap, c, multiset{start})
      ensures Stored() == old(Stored())
    {
      hide Snap, Rep, Limbo, Slots, ClassSize, Contents, Pow2, Shape;
      ghost var g := heap;
      ghost var rest := Slots(start, blockSize, numBlocks)[1..];
      LimboShape(g, c, multiset{start} + multiset(rest));
      assert rest[..0] == [] && rest[0..] == rest;
      var i := 1;
      while i < numBlocks
        invariant 1 <= i <= numBlocks
        invariant Lists() && heap == PutFreeAll(g, c, rest[..i - 1])
        invariant Limbo(heap, c, multiset{start} + multiset(rest[i - 1..]))
        invariant Stored() == old(Stored())
      {
        var block := pageBase + i * blockSize;
        SlotAt(start, blockSize, numBlocks, i);
        PushAllSnoc(g, c, rest, i - 1);
        ghost var limbo := multiset{start} + multiset(rest[i..]);
        assert multiset{start} + multiset(rest[i - 1..]) == limbo + multiset{rest[i - 1]};
        FreeListPush(c, block, rest[i - 1], limbo);
        i := i + 1;
      }
      assert rest[..i - 1] == rest && rest[i - 1..] == [];
      assert multiset{start} + multiset(rest[i - 1..]) == multiset{start};
    }

    /** bump_raw and tag_page_class in a row: takes n whole pages for kind k. The
        heap is left for the caller to extend. */
    method TakePages(bytes: nat, k: nat, ghost n: nat) returns (ptr: nat)
      requires Repr() && Shape(heap) && k < LISTS
      requires bytes == n * heap.page && n > 0 && heap.bump + bytes < WORD
      modifies this`bump, pageClass
      ensures heap.bump + bytes > totalSize ==> ptr == 0 && Repr()
      ensures heap.bump + bytes <= totalSize ==>
                && ptr == base + heap.bump
                && Lists() && Counters() == heap.stats
                && TagsOk(Carve(heap, k, n), Snap(pageClass)) && bump == Carve(heap, k, n).bump
    {
      assert heap.bump == heap.carved * heap.page <= heap.total;
      hide Snap, Rep, Shape, Retagged, ShiftRight, Pow2, Cut;
      ghost var tags := Snap(pageClass);
      ptr := BumpRaw(bytes);
      if ptr == 0 {
        return;
      }
      TagPages(heap, tags, pageShift, n);
      hide TagsOk;
      var offset := ptr - base;
      TagPageClass(offset, bytes, Tag(k));
      CarveTags(heap, tags, Snap(pageClass), k, n);
      Distributes(heap.carved, n, heap.page);
    }

    /** The first half of BumpAllocateClass: the class size, rounded up to pages. */
    method ClassBumpSize(c: nat) returns (bumpSize: nat)
      requires PageOk(pageSize) && pageSize < WORD && c < CLASSES
      ensures bumpSize == CarveLen(pageSize, c)
      ensures bumpSize / ClassSize(c) == PerExtent(pageSize, c)
    {
      hide Snap, PageOk, CarveLen, AlignUp, PerExtent, ClassSize;
      CarveLenComputed(pageSize, c);
      bumpSize := ClassSize(c);
      if bumpSize < pageSize {
        bumpSize := pageSize;
      } else {
        var aligned := AlignUp(bumpSize, pageSize);
        bumpSize := aligned.value;
      }
    }

    /** The second half: cuts the pages taken at page_base into blocks. */
    method CutClass(c: nat, pageBase: nat, bumpSize: nat)
      requires Lists() && Full(heap) && c < CLASSES && heap.bump + bumpSize <= heap.total
      requires bumpSize == CarveLen(pageSize, c) && bumpSize / ClassSize(c) == PerExtent(pageSize, c)
      requires pageBase == base + heap.bump
      modifies this`heap, mem, pools
      ensures Lists() && (heap, Some(old(heap).bump)) == CarveClass(old(heap), c)
      ensures heap.extents == Carve(old(heap), c, CarvePages(pageSize, c)).extents
      ensures heap.bump == old(heap).bump + bumpSize && heap.stats == old(heap).stats
      ensures Limbo(heap, c, multiset{old(heap).bump})
      ensures Stored() == old(Stored())
    {
      hide Snap, Full, CarveLen, Contents, Rep, Limbo, Slots, PerExtent, PageOk, Pow2, Carve,
           CarveClass, CarvedRest, CarvePages, Shape, PutFreeAll, ClassSize;
      ghost var h := heap;
      ghost var n := CarvePages(pageSize, c);
      CarveClassPlan(h, base, Snap(mem), Snap(pools), c);
      CarveClassIs(h, c);
      CarveSameFields(h, c, n, Snap(mem));
      heap := Carve(h, c, n);
      PushRest(c, pageBase, ClassSize(c), bumpSize / ClassSize(c), h.bump);
    }

    /** Carves an extent of class c and frees all of its blocks but the first. */
    method BumpAllocateClass(c: nat) returns (ptr: nat, ghost p: Option<nat>)
      requires Repr() && Full(heap) && c < CLASSES
      requires heap.bump + CarveLen(pageSize, c) < WORD
      modifies this`heap, this`bump, mem, pageClass, pools
      ensures Repr() && (heap, p) == CarveClass(old(heap), c)
      ensures ptr == PtrOf(base, p)
      ensures p.Some? ==> Limbo(heap, c, multiset{p.value})
      ensures Stored() == old(Stored())
    {
      hide Snap, Full, CarveLen, Contents, TagsOk, Rep, Limbo, PerExtent, PageOk, Pow2, Carve,
           CarveClass, CarvePages, Shape, ClassSize;
      ghost var h := heap;
      ShapeConfig(h);
      CarvePagesOk(pageSize, c);
      ghost var n := CarvePages(pageSize, c);
      ghost var g := Carve(h, c, n);
      CarveSameFields(h, c, n, Snap(mem));
      var bumpSize := ClassBumpSize(c);
      ptr := TakePages(bumpSize, c, n);
      if ptr == 0 {
        CarveClassFails(h, c);
        return 0, None;
      }
      p := Some(h.bump);
      CutClass(c, ptr, bumpSize);
      TagsSame(g, heap, Snap(pageClass));
    }

    // ----- large blocks ---------------------------------------------------------------

    /** meta->user_size := user_size, for a large block in limbo. */
    method StoreUserSize(block: nat, userSize: nat, ghost p: nat)
      requires Lists() && Limbo(heap, LARGE, multiset{p}) && block == Addr(base, LARGE, p) && userSize < WORD
      modifies mem
      ensures Lists() && WordAt(Snap(mem), p - META_SIZE) == userSize
      ensures META_SIZE <= p <= mem.Length && Snap(mem) == PutWord(old(Snap(mem)), p - META_SIZE, userSize)
      ensures Stored() == old(Stored())
    {
      hide Snap, Rep, Limbo, Contents, WordAt, Pow2, PutWord;
      WriteUserSize(heap, base, Snap(mem), Snap(pools), p, userSize);
      StoreWord(mem, block - base, userSize);
    }

    /** meta->total_size of a large block in limbo. */
    method LoadTotalSize(block: nat, ghost p: nat) returns (total: nat)
      requires Lists() && Limbo(heap, LARGE, multiset{p}) && block == Addr(base, LARGE, p)
      ensures total == LenOf(heap, p)
    {
      hide Snap, Rep, Limbo, GetWord, Pow2;
      LimboPlace(heap, LARGE, multiset{p}, p);
      TotalSizeRead(heap, base, Snap(mem), Snap(pools), p);
      total := LoadWord(mem, block - base + 8);
    }

    /** Pops the top free large block and keeps it when it has at least total bytes,
        otherwise puts it back. */
    method RecycleLarge(total: nat, userSize: nat) returns (ptr: nat, ghost p: Option<nat>)
      requires Lists() && Full(heap) && userSize < WORD
      modifies this`heap, mem, pools
      ensures Lists() && |old(heap).free| == LISTS
      ensures heap == old(heap).(free := heap.free)
      ensures (heap, p) == Recycle(old(heap), total)
      ensures ptr == PtrOf(base, p)
      ensures if p.Some? then
                Limbo(heap, LARGE, multiset{p.value}) && WordAt(Snap(mem), p.value - META_SIZE) == userSize
              else Full(heap)
      ensures Stored() == old(Stored())
    {
      hide Snap, Rep, Limbo, Full, Contents, TakeFree, PutFree, WordAt, Pow2, Shape;
      ghost var h := heap;
      ghost var q;
      RecyclePlan(h, total);
      var block;
      block, q := FreeListPop(LARGE, multiset{});
      ContentsOfLive(h, heap, Snap(mem));
      if block == 0 {
        return 0, None;
      }
      var recorded := LoadTotalSize(block, q.value);
      if recorded >= total {
        StoreUserSize(block, userSize, q.value);
        return block + META_SIZE, q;
      }
      FreeListPush(LARGE, block, q.value, multiset{});
      return 0, None;
    }

    /** Writes the metadata of the large block taken at ptr and carves it. */
    method CutLarge(ptr: nat, total: nat, userSize: nat)
      requires Lists() && Full(heap) && userSize < WORD && ptr == base + heap.bump
      requires total % heap.page == 0 && total > META_SIZE && heap.bump + total <= heap.total
      modifies this`heap, mem
      ensures Lists() && heap == Carve(old(heap), LARGE, Pages(total, pageSize))
      ensures WordAt(Snap(mem), old(heap).bump) == userSize
      ensures Stored() == old(Stored())
    {
      hide Snap, Full, Rep, Limbo, Contents, WordAt, Pow2, PutWord, CarveLarge, Carve, Shape, Pages;
      ghost var h := heap;
      ghost var n := Pages(total, pageSize);
      CarveLargePlan(h, total);
      WriteNewMeta(h, base, Snap(mem), Snap(pools), n, userSize);
      StoreWord(mem, ptr - base + 8, total);
      StoreWord(mem, ptr - base, userSize);
      CarveSameFields(h, LARGE, n, Snap(mem));
      heap := Carve(h, LARGE, n);
    }

    /** Carves a large block and writes its metadata. */
    method BumpLarge(total: nat, userSize: nat) returns (ptr: nat, ghost p: Option<nat>)
      requires Repr() && Full(heap) && userSize < WORD
      requires total % heap.page == 0 && total > META_SIZE && heap.bump + total < WORD
      modifies this`heap, this`bump, mem, pageClass
      ensures Repr() && (heap, p) == CarveLarge(old(heap), total)
      ensures ptr == PtrOf(base, p)
      ensures p.Some? ==>
                Limbo(heap, LARGE, multiset{p.value}) && WordAt(Snap(mem), p.value - META_SIZE) == userSize
      ensures Stored() == old(Stored())
    {
      hide Snap, Full, Rep, Limbo, Contents, TagsOk, WordAt, Pow2, CarveLarge, Carve, Shape, Pages;
      ghost var h := heap;
      CarveLargePlan(h, total);
      ShapeConfig(h);
      ghost var n := Pages(total, h.page);
      CarveSameFields(h, LARGE, n, Snap(mem));
      var block := TakePages(total, LARGE, n);
      if block == 0 {
        return 0, None;
      }
      CutLarge(block, total, userSize);
      return block + META_SIZE, Some(h.bump + META_SIZE);
    }

    /** allocate_large. The block found is in limbo, its metadata in place. */
    method AllocateLarge(userSize: nat) returns (ptr: nat, ghost p: Option<nat>)
      requires Repr() && Full(heap) && userSize > 0
      requires |heap.free| == LISTS
      requires LargeTotal(pageSize, userSize).Some? && Recycle(heap, LargeTotal(pageSize, userSize).value).1.None? ==>
                 heap.bump + LargeTotal(pageSize, userSize).value < WORD
      modifies this`heap, this`bump, mem, pageClass, pools
      ensures Repr() && |old(heap).free| == LISTS && old(heap).page > 0
      ensures (heap, p) == match LargeTotal(pageSize, userSize)
                           case None => (old(heap), None)
                           case Some(total) => PickLarge(old(heap), total)
      ensures ptr == PtrOf(base, p)
      ensures if p.Some? then
                && Limbo(heap, LARGE, multiset{p.value}) && WordAt(Snap(mem), p.value - META_SIZE) == userSize
                && META_SIZE + userSize <= LenOf(heap, p.value)
              else Full(heap)
      ensures Stored() == old(Stored())
    {
      hide Snap, Full, Rep, Limbo, Contents, TagsOk, WordAt, Pow2, CarveLarge, Recycle, AlignUp, Shape, PageOk;
      ghost var h := heap;
      ShapeConfig(h);
      var totalRaw := SafeAdd(META_SIZE, userSize);
      if totalRaw.None? {
        return 0, None;
      }
      var totalAligned := AlignUp(totalRaw.value, pageSize);
      if totalAligned.None? {
        return 0, None;
      }
      var total := totalAligned.value;
      LargeTotalBounds(pageSize, userSize);
      PickLargePlan(h, total);
      ptr, p := RecycleLarge(total, userSize);
      TagsSame(h, heap, Snap(pageClass));
      if ptr != 0 {
        return;
      }
      ptr, p := BumpLarge(total, userSize);
    }

    // ----- counters -------------------------------------------------------------------

    method TrackAlloc(bytes: nat)
      modifies this`allocCount, this`activeBytes
      ensures Counters() == CountAlloc(old(Counters()), bytes)
    {
      if !tracking {
        return;
      }
      allocCount := WrapAdd(allocCount, 1);
      activeBytes := WrapAdd(activeBytes, bytes);
    }

    method TrackFree(bytes: nat)
      modifies this`freeCount, this`activeBytes
      ensures Counters() == CountFree(old(Counters()), bytes)
    {
      if !tracking {
        return;
      }
      freeCount := WrapAdd(freeCount, 1);
      activeBytes := WrapSub(activeBytes, bytes);
    }

    method TrackResize(oldSize: nat, newSize: nat)
      modifies this`activeBytes
      ensures Counters() == CountResize(old(Counters()), oldSize, newSize)
    {
      if !tracking {
        return;
      }
      activeBytes := WrapSub(activeBytes, oldSize);
      activeBytes := WrapAdd(activeBytes, newSize);
    }

    /** Counts the allocation of block p and hands it to the caller. */
    method Deliver(bytes: nat, ghost k: nat, ghost p: nat)
      requires Repr() && Limbo(heap, k, multiset{p}) && k < LISTS
      requires bytes > 0 && Meta(k) + bytes <= LenOf(heap, p)
      requires k < CLASSES ==> bytes == LenOf(heap, p)
      requires k == LARGE ==> WordAt(Snap(mem), p - META_SIZE) == bytes
      modifies this`heap, this`allocCount, this`activeBytes
      ensures Repr() && Full(heap) && heap == Hand(old(heap), p, bytes)
      ensures Stored() == old(Stored())[p := Bytes(Snap(mem), p, bytes)]
    {
      hide Snap, Full, Rep, Limbo, Contents, TagsOk, WordAt, Pow2, CountAlloc, Bytes, Hand, LenOf, Meta;
      HandRep(heap, base, Snap(mem), Snap(pools), k, p, bytes);
      TagsSame(heap, Hand(heap, p, bytes), Snap(pageClass));
      TrackAlloc(bytes);
      heap := Hand(heap, p, bytes);
    }

    /** Counts a free. */
    method CountRelease(bytes: nat)
      requires Repr() && Full(heap)
      modifies this`heap, this`freeCount, this`activeBytes
      ensures Repr() && Full(heap) && heap == old(heap).(stats := CountFree(old(heap).stats, bytes))
      ensures Stored() == old(Stored())
    {
      hide Snap, Full, Rep, Limbo, Contents, TagsOk, WordAt, Pow2, CountFree;
      ghost var g := heap.(stats := CountFree(heap.stats, bytes));
      StatsRep(heap, base, Snap(mem), Snap(pools), g.stats);
      TagsSame(heap, g, Snap(pageClass));
      TrackFree(bytes);
      heap := g;
    }

    // ----- allocation -----------------------------------------------------------------

    /** The class path of allocate. */
    method AllocateClass(c: nat) returns (ptr: nat, ghost p: Option<nat>)
      requires Repr() && Full(heap) && c < CLASSES && |heap.free| == LISTS
      requires TakeFree(heap, c).1.None? ==> heap.bump + CarveLen(pageSize, c) < WORD
      modifies this, mem, pageClass, pools
      ensures Repr() && Full(heap) && |old(heap).free| == LISTS && old(heap).page > 0
      ensures (heap, p) == AllocClass(old(heap), c)
      ensures ptr == PtrOf(base, p)
      ensures Stored() == if p.Some? then old(Stored())[p.value := Bytes(Snap(mem), p.value, ClassSize(c))]
                          else old(Stored())
    {
      hide Snap, Full, Rep, Limbo, Contents, TagsOk, WordAt, Pow2, ClassSize, CarveLen, CarveClass,
           TakeFree, AllocClass, Shape;
      ghost var h := heap;
      TakeClassPlan(h, c);
      ptr, p := FreeListPop(c, multiset{});
      ContentsOfLive(h, heap, Snap(mem));
      TagsSame(h, heap, Snap(pageClass));
      if ptr == 0 {
        ptr, p := BumpAllocateClass(c);
        if ptr == 0 {
          return;
        }
      }
      Deliver(ClassSize(c), c, p.value);
    }

    /** pool_allocate. */
    method Allocate(size: nat) returns (ok: bool, outPtr: nat)
      requires Valid() && Fits(heap, size)
      modifies this, mem, pageClass, pools
      ensures Valid()
      ensures |old(heap).free| == LISTS && old(heap).page > 0
      ensures heap == Heaps.Allocate(old(heap), size).0
      ensures ok == Heaps.Allocate(old(heap), size).1.Some?
      ensures outPtr == PtrOf(base, Heaps.Allocate(old(heap), size).1)
      ensures !ok ==> Stored() == old(Stored())
      ensures ok ==> Inserted(old(Stored()), Stored(), outPtr - base, size)
    {
      hide Snap, Full, Rep, Limbo, Contents, TagsOk, WordAt, Pow2, CarveLen, AllocClass, PickLarge, Exact, Hand,
           Bytes, UsableOf, LargeTotal, ClassSize, LenOf, SizeClassForSize, Inserted, Fits, Recycle, TakeFree;
      ghost var h, m := heap, Snap(mem);
      AllocatePlan(h, size);
      outPtr := 0;
      if size == 0 {
        return false, 0;
      }
      var originalClass := SizeClassForSize(size);
      if originalClass == -1 {
        ghost var p;
        outPtr, p := AllocateLarge(size);
        if outPtr == 0 {
          return false, 0;
        }
        Deliver(size, LARGE, p.value);
        AllocatedIsInserted(h, heap, m, Snap(mem), size, p.value);
        return true, outPtr;
      }
      ghost var p;
      outPtr, p := AllocateClass(originalClass);
      ok := outPtr != 0;
      if ok {
        AllocatedIsInserted(h, heap, m, Snap(mem), size, p.value);
      }
    }

    // ----- free -------------------------------------------------------------------------

    /** ptr_in_region. */
    predicate InRegion(ptr: nat) {
      ptr >= base && ptr < base + totalSize
    }

    /** What a caller may free: a live block, or an address that is not in the
        carved part of the region, NULL included. */
    ghost predicate Freeable(ptr: nat)
      reads this
    {
      ptr < base || ptr >= base + heap.bump || ptr - base in heap.live
    }

    /** Takes block p of kind k from its caller and pushes it. */
    method GiveBack(k: nat, ptr: nat, ghost p: nat)
      requires Repr() && Full(heap) && p in heap.live && p in heap.blocks && k == heap.blocks[p].k
      requires k < LISTS && ptr == Addr(base, k, p)
      modifies this`heap, mem, pools
      ensures Repr() && Full(heap) && heap == PutFree(Drop(old(heap), p), k, p)
      ensures Stored() == old(Stored()) - {p}
    {
      hide Snap, Full, Rep, Limbo, Contents, TagsOk, Pow2, Addr, PutFree;
      ghost var h := heap;
      DropPlan(h, base, Snap(mem), Snap(pools), p);
      heap := Drop(h, p);
      FreeListPush(k, ptr, p, multiset{});
      FullIsEmptyLimbo(heap, k);
      TagsSame(h, heap, Snap(pageClass));
    }

    /** free_large. The user size is wiped while the block is in limbo. */
    method FreeLarge(userPtr: nat, ghost p: nat)
      requires Repr() && Full(heap) && p in heap.live && p in heap.blocks && heap.blocks[p].k == LARGE
      requires userPtr == base + p
      modifies this`heap, mem, pools
      ensures Repr() && Full(heap) && heap == PutFree(Drop(old(heap), p), LARGE, p)
      ensures Stored() == old(Stored()) - {p}
      ensures |old(heap).free| == LISTS
      ensures |old(heap).free[LARGE].mag| < MAG_SIZE ==> WordAt(Snap(mem), p - META_SIZE) == 0
    {
      hide Snap, Full, Rep, Limbo, Contents, TagsOk, Pow2, PutFree, WordAt;
      ghost var h := heap;
      DropPlan(h, base, Snap(mem), Snap(pools), p);
      heap := Drop(h, p);
      var block := userPtr - META_SIZE;
      StoreUserSize(block, 0, p);
      FreeListPush(LARGE, block, p, multiset{});
      FullIsEmptyLimbo(heap, LARGE);
      TagsSame(h, heap, Snap(pageClass));
    }

    /** pool_free. */
    method Free(ptr: nat)
      requires Valid() && Freeable(ptr)
      modifies this, mem, pageClass, pools
      ensures Valid() && |old(heap).free| == LISTS
      ensures heap == Heaps.Free(old(heap), ptr - base)
      ensures Stored() == if ptr >= base && ptr - base in old(heap).live then old(Stored()) - {ptr - base}
                          else old(Stored())
      ensures ptr >= base && ptr - base in old(heap).live && KindOf(old(heap), ptr - base) == LARGE
              && |old(heap).free[LARGE].mag| < MAG_SIZE ==>
                WordAt(Snap(mem), ptr - base - META_SIZE) == 0
    {
      hide Snap, Full, Rep, Limbo, Contents, TagsOk, Pow2, Drop, PutFree, WordAt, Exact, ClassSize, Heaps.Free,
           CountFree, Shape, KindOf, UsableOf, GetWord, ShiftRight;
      FreeIs(heap, ptr - base);
      if ptr >= base && ptr - base in heap.live {
        LiveLookup(heap, base, Snap(mem), Snap(pools), Snap(pageClass), pageShift, ptr - base);
      } else if InRegion(ptr) {
        IgnoredLookup(heap, Snap(pageClass), pageShift, ptr - base);
      }
      if !InRegion(ptr) {
        return;
      }
      var offset := ptr - base;
      var pageIdx := ShiftRight(offset, pageShift);
      SnapAt(pageClass, pageIdx);
      var cls := pageClass[pageIdx];
      if cls < CLASSES {
        GiveBack(cls, ptr, offset);
        CountRelease(ClassSize(cls));
      } else if cls == TAG_LARGE {
        var userSize := LoadWord(mem, offset - META_SIZE);
        FreeLarge(ptr, offset);
        CountRelease(userSize);
      }
    }

    // ----- payloads ---------------------------------------------------------------------

    /** p is a live block of at least n bytes. */
    ghost predicate Holds(p: nat, n: nat)
      reads this
    {
      p in heap.live && n <= heap.live[p]
    }

    /** Live blocks are those with stored bytes, all of their usable size. */
    lemma HoldsStored(p: nat)
      requires Valid()
      ensures p in heap.live <==> p in Stored()
      ensures p in heap.live ==> |Stored()[p]| == heap.live[p] && base + p + |Stored()[p]| <= WORD
      ensures p in heap.live ==> base + p < WORD
    {
      hide Full, Rep, Contents, TagsOk, Exact, Pow2;
      ContentsDomain(heap, Snap(mem));
      if p in heap.live {
        LiveSlice(heap, Snap(mem), p);
        LiveBelowBump(heap, p);
      }
    }

    /** What a caller does to its own block: whatever it writes inside, the pool stays
        intact and nobody else's bytes change. */
    method Write(ptr: nat, off: nat, s: seq<byte>)
      requires Valid() && ptr >= base && Holds(ptr - base, off + |s|)
      modifies mem
      ensures Valid()
      ensures ptr - base in old(Stored()) && off + |s| <= |old(Stored())[ptr - base]|
      ensures Stored() == old(Stored())[ptr - base := Splice(old(Stored())[ptr - base], off, s)]
    {
      hide Full, Rep, Contents, TagsOk, Exact, Pow2, Splice;
      PayloadWrite(heap, base, Snap(mem), Snap(pools), ptr - base, off, s);
      SpliceInto(mem, ptr - base + off, s);
    }

    /** *(void**)addr, where addr lies in the payload of the block at ptr. */
    method ReadPtr(addr: nat, ghost ptr: nat) returns (v: nat)
      requires Valid() && ptr >= base && addr >= ptr && Holds(ptr - base, addr - ptr + 8)
      ensures ptr - base in Stored() && addr - ptr + 8 <= |Stored()[ptr - base]|
      ensures v == GetWord(Stored()[ptr - base], addr - ptr) && v < WORD
    {
      hide Snap, Full, Rep, Contents, TagsOk, Exact, Pow2, Decode;
      ghost var p: nat := ptr - base;
      LiveSlice(heap, Snap(mem), p);
      WordInSlice(Snap(mem), p, p + heap.live[p], addr - base);
      v := LoadWord(mem, addr - base);
    }

    /** *(void**)addr = v, where addr lies in the payload of the block at ptr. */
    method WritePtr(addr: nat, v: nat, ghost ptr: nat)
      requires Valid() && ptr >= base && addr >= ptr && Holds(ptr - base, addr - ptr + 8) && v < WORD
      modifies mem
      ensures Valid()
      ensures ptr - base in old(Stored()) && addr - ptr + 8 <= |old(Stored())[ptr - base]|
      ensures Stored() == old(Stored())[ptr - base := PutWord(old(Stored())[ptr - base], addr - ptr, v)]
    {
      hide Snap, Full, Rep, Contents, TagsOk, Exact, Pow2, Decode, Encode, Splice;
      PayloadWrite(heap, base, Snap(mem), Snap(pools), ptr - base, addr - ptr, Encode(v, 8));
      StoreWord(mem, addr - base, v);
    }

    method CopyPayload(dst: nat, src: nat, n: nat)
      requires Valid() && dst >= base && src >= base && dst != src
      requires Holds(dst - base, n) && Holds(src - base, n)
      modifies mem
      ensures Valid()
      ensures dst - base in old(Stored()) && src - base in old(Stored())
      ensures n <= |old(Stored())[dst - base]| && n <= |old(Stored())[src - base]|
      ensures Stored() == old(Stored())[dst - base :=
                Splice(old(Stored())[dst - base], 0, old(Stored())[src - base][..n])]
    {
      hide Snap, Full, Rep, Contents, TagsOk, Exact, Pow2, Splice;
      ghost var h, m := heap, Snap(mem);
      ghost var p: nat, q: nat := dst - base, src - base;
      LivePayloads(h, p, q);
      LivePayloads(h, q, p);
      LiveSlice(h, m, q);
      assert m[q..q + h.live[q]][..n] == m[q..q + n];
      PayloadWrite(h, base, m, Snap(pools), p, 0, m[q..q + n]);
      CopyBytes(mem, dst - base, src - base, n);
    }

    // ----- reallocate -------------------------------------------------------------------

    /** get_usable_size, for a live block. */
    method GetUsableSize(ptr: nat) returns (usable: nat, isLarge: bool)
      requires Valid() && ptr >= base && ptr - base in heap.live
      ensures usable == UsableOf(heap, ptr - base)
      ensures isLarge == (KindOf(heap, ptr - base) == LARGE) && KindOf(heap, ptr - base) < LISTS
      ensures !isLarge ==> ShiftRight(ptr - base, pageShift) < pageClass.Length
      ensures !isLarge ==> pageClass[ShiftRight(ptr - base, pageShift)] == KindOf(heap, ptr - base)
    {
      hide Snap, Full, Rep, TagsOk, Exact, Pow2, GetWord, ShiftRight, KindOf, UsableOf, ClassSize;
      LiveLookup(heap, base, Snap(mem), Snap(pools), Snap(pageClass), pageShift, ptr - base);
      var offset := ptr - base;
      var pageIdx := ShiftRight(offset, pageShift);
      SnapAt(pageClass, pageIdx);
      var cls := pageClass[pageIdx];
      if cls < CLASSES {
        return ClassSize(cls), false;
      }
      usable := LoadWord(mem, offset - META_SIZE);
      isLarge := true;
    }

    /** Changes the user size of a live large block in place. */
    method ResizeLarge(ptr: nat, newSize: nat, ghost g: Heap)
      requires Valid() && ptr >= base && ptr - base in heap.live && KindOf(heap, ptr - base) == LARGE
      requires newSize > MAX_CLASS_SIZE && InPlace(heap, ptr - base, newSize) == Some(g)
      modifies this`heap, this`activeBytes, mem
      ensures Valid() && heap == g
      ensures ptr - base in Stored() && ptr - base in old(Stored())
      ensures Stored() == old(Stored())[ptr - base := Stored()[ptr - base]]
      ensures SamePrefix(old(Stored())[ptr - base], Stored()[ptr - base], newSize)
    {
      hide Snap, Full, Rep, Limbo, Contents, TagsOk, Exact, Pow2, InPlace, WordAt, PutWord, CountResize,
           GetWord, SamePrefix, Hand;
      ghost var h, m := heap, Snap(mem);
      ghost var p: nat := ptr - base;
      LiveLookup(h, base, m, Snap(pools), Snap(pageClass), pageShift, p);
      DropPlan(h, base, m, Snap(pools), p);
      ResizePlan(h, p, newSize, g);
      var oldUserSize := LoadWord(mem, ptr - base - META_SIZE);
      heap := Drop(h, p);
      StoreUserSize(ptr - META_SIZE, newSize, p);
      HandRep(heap, base, Snap(mem), Snap(pools), LARGE, p, newSize);
      StatsRep(Hand(heap, p, newSize), base, Snap(mem), Snap(pools), g.stats);
      ResizeContents(h, g, m, p, newSize, newSize);
      TrackResize(oldUserSize, newSize);
      heap := g;
      TagsSame(h, g, Snap(pageClass));
    }

    /** The moving path: allocate, copy, free. */
    method MoveBlock(ptr: nat, oldUsable: nat, newSize: nat) returns (ok: bool, outPtr: nat)
      requires Valid() && ptr >= base && ptr - base in heap.live && oldUsable == UsableOf(heap, ptr - base)
      requires Fits(heap, newSize) && newSize > 0
      modifies this, mem, pageClass, pools
      ensures Valid() && |old(heap).free| == LISTS && old(heap).page > 0
      ensures heap == Move(old(heap), ptr - base, newSize).0
      ensures ok == Move(old(heap), ptr - base, newSize).1.Some?
      ensures outPtr == PtrOf(base, Move(old(heap), ptr - base, newSize).1)
      ensures !ok ==> Stored() == old(Stored())
      ensures ok ==> Moved(old(Stored()), Stored(), ptr - base, outPtr - base, newSize)
    {
      hide Snap, Full, Rep, Contents, TagsOk, Exact, Pow2, Splice, Heaps.Allocate, Heaps.Free, Fits, SamePrefix, Bytes,
           Moved;
      ghost var h, m, c0 := heap, Snap(mem), Stored();
      ghost var p: nat := ptr - base;
      LiveSlice(h, m, p);
      ok, outPtr := Allocate(newSize);
      if !ok {
        return;
      }
      ghost var q: nat := outPtr - base;
      ghost var c1 := Stored();
      var copySize := if oldUsable < newSize then oldUsable else newSize;
      AllocatedBytes(h, heap, Snap(mem), newSize, q);
      MovePlan(h, p, newSize, c0, c1, copySize, c1[q]);
      CopyPayload(outPtr, ptr, copySize);
      ghost var s := Splice(c1[q], 0, c0[p][..copySize]);
      ContentsDomain(h, m);
      MovedJoin(c0, c1, p, q, newSize, s);
      Free(ptr);
    }

    /** pool_reallocate. */
    method Reallocate(ptr: nat, newSize: nat) returns (ok: bool, outPtr: nat)
      requires Valid() && ReFits(heap, BlockAt(base, ptr), newSize)
      requires ptr == 0 || (ptr >= base && ptr - base in heap.live)
      modifies this, mem, pageClass, pools
      ensures Valid() && |old(heap).free| == LISTS && old(heap).page > 0
      ensures heap == Heaps.Reallocate(old(heap), BlockAt(base, ptr), newSize).0
      ensures ok == Heaps.Reallocate(old(heap), BlockAt(base, ptr), newSize).1.Some?
      ensures outPtr == PtrOf(base, Heaps.Reallocate(old(heap), BlockAt(base, ptr), newSize).1)
      ensures !ok ==> Stored() == old(Stored())
      ensures ok && ptr != 0 ==> Moved(old(Stored()), Stored(), ptr - base, outPtr - base, newSize)
      ensures ok && ptr == 0 ==> Inserted(old(Stored()), Stored(), outPtr - base, newSize)
    {
      hide Snap, Full, Rep, Contents, TagsOk, Exact, Pow2, Heaps.Allocate, Move, InPlace, ResizeOverflows, Fits,
           SizeClassForSize, KindOf, AlignUp, LenOf, UsableOf, SamePrefix, ShiftRight, GetWord, Heaps.Reallocate,
           LargeTotal, SafeAdd, Moved, Inserted;
      ghost var h, c0 := heap, Stored();
      ReallocateTrivial(h, BlockAt(base, ptr), newSize);
      LargeTotalIs(pageSize, newSize);
      if newSize == 0 {
        return false, 0;
      }
      if ptr == 0 {
        ok, outPtr := Allocate(newSize);
        return;
      }
      ghost var p: nat := ptr - base;
      ReallocatePlan(h, p, newSize);
      var oldUsable, oldIsLarge := GetUsableSize(ptr);
      var newClass := SizeClassForSize(newSize);
      if !oldIsLarge {
        if newClass >= 0 {
          var offset := ptr - base;
          var pageIdx := ShiftRight(offset, pageShift);
          var oldCls := pageClass[pageIdx];
          if oldCls == newClass {
            MovedToItself(h, Snap(mem), p, newSize);
            return true, ptr;
          }
        }
      } else if newClass == -1 {
        LiveLookup(h, base, Snap(mem), Snap(pools), Snap(pageClass), pageShift, p);
        var oldTotal := LoadWord(mem, ptr - base - 8);
        var newTotalRaw := SafeAdd(META_SIZE, newSize);
        if newTotalRaw.None? {
          return false, 0;
        }
        var newTotal := AlignUp(newTotalRaw.value, pageSize);
        if newTotal.None? {
          return false, 0;
        }
        if newTotal.value <= oldTotal {
          ResizeLarge(ptr, newSize, InPlace(h, p, newSize).value);
          ResizedIsMoved(c0, Stored(), h, heap, Snap(mem), p, newSize);
          return true, ptr;
        }
      }
      ok, outPtr := MoveBlock(ptr, oldUsable, newSize);
    }
  }
}
