/** Slabs: fixed-size slots cut from pool blocks, free slots linked through their
    own bytes. Proved against the contract of the pool. */
module Slabs {
  import opened Words
  import opened SizeClasses
  import opened FreeLists
  import opened Extents
  import opened Heaps
  import opened HeapOps
  import opened HeapRuns
  import opened PoolMemory
  import opened PoolPlans
  import opened Pools
  import opened SlabTheory
  import opened SlabRuns
  import opened Sums

  class Slab {
    const pool: Pool
    /** Address of the pool block that holds the slab struct. */
    const self: nat
    const objectSize: nat
    const objectsPerSlab: nat

    var freeListHead: nat
    var pages: nat
    var slabCount: nat
    var usedObjects: nat

    ghost var ps: seq<Page>
    ghost var free: seq<Slot>
    ghost var used: set<Slot>
    /** The most slots in use at the same time so far. */
    ghost var peak: nat

    /** The struct as slab_create fills it in, before its first page. */
    constructor (pool: Pool, self: nat, objectSize: nat, objectsPerSlab: nat)
      requires pool.Valid() && self >= pool.base && objectSize >= 8 && objectsPerSlab >= 1
      requires Roomy(pool.Stored(), self - pool.base, SLAB_STRUCT)
      ensures Sound() && ps == [] && free == [] && used == {} && peak == 0
      ensures this.pool == pool && this.self == self
      ensures this.objectSize == objectSize && this.objectsPerSlab == objectsPerSlab && slabCount == 0
    {
      hide Snap, Contents, Rep, Full, TagsOk, Exact, Pow2;
      this.pool, this.self := pool, self;
      this.objectSize, this.objectsPerSlab := objectSize, objectsPerSlab;
      freeListHead, pages, slabCount, usedObjects := 0, 0, 0, 0;
      ps, free, used, peak := [], [], {}, 0;
    }

    ghost function Own(): (bs: seq<nat>)
      reads this
    {
      if self >= pool.base then Blocks(self - pool.base, ps) else []
    }

    ghost function Count(): (c: SlabCount)
      reads this
    {
      SlabCount(slabCount, usedObjects, peak)
    }

    /** The slab with slots us in use and fs free. */
    ghost predicate Holding(us: set<Slot>, fs: seq<Slot>)
      reads this, pool, pool.mem
    {
      && self >= pool.base
      && slabCount == |ps|
      && SlabOk(pool.Stored(), pool.base, self - pool.base, freeListHead, pages, ps, fs, us,
                objectSize, objectsPerSlab)
    }

    /** Bytes of objects a page asks for: the product on size_t. */
    function Room(): (n: nat) {
      Requested(objectsPerSlab, objectSize)
    }

    /** The invariant of a slab whose first page may still be missing. */
    ghost predicate Sound()
      reads this, pool, pool.mem, pool.pageClass, pool.pools
    {
      && pool.Valid() && Holding(used, free) && usedObjects == |used|
      && OfKind(pool.heap, ps, KindFor(Times(objectsPerSlab, objectSize)))
    }

    /** The invariant between operations. */
    ghost predicate Valid()
      reads this, pool, pool.mem, pool.pageClass, pool.pools
    {
      Sound() && ps != []
    }

    /** The pool blocks that are not the slab's. */
    ghost function Rest(): (s: Store)
      reads this, pool, pool.mem
    {
      Outside(pool.Stored(), Own())
    }

    // ----- the intrusive list ------------------------------------------------------------

    /** bc_allocators_free_list_push on the slot f, which is in use. */
    method PushSlot(ptr: nat, ghost f: Slot, ghost us: set<Slot>, ghost fs: seq<Slot>)
      requires pool.Valid() && Holding(us, fs) && f in us && ptr == pool.base + f.block + f.off
      modifies this`freeListHead, pool.mem
      ensures pool.Valid() && Holding(us - {f}, [f] + fs) && Rest() == old(Rest())
    {
      hide SlabOk, Blocks, Snap, Contents, Rep, Full, TagsOk, Exact, Pow2, Outside, PutWord;
      ghost var s := pool.Stored();
      WordsFit(pool);
      HeadWord(s, pool.base, self - pool.base, freeListHead, pages, ps, fs, us, objectSize, objectsPerSlab);
      FreeStep(s, pool.base, self - pool.base, freeListHead, pages, ps, fs, us, objectSize, objectsPerSlab, f);
      pool.HoldsStored(f.block);
      pool.WritePtr(ptr, freeListHead, pool.base + f.block);
      OutsideSame(s, pool.Stored(), Own(), f.block);
      freeListHead := ptr;
    }

    /** bc_allocators_free_list_pop. */
    method PopSlot(ghost us: set<Slot>, ghost fs: seq<Slot>) returns (ptr: nat)
      requires pool.Valid() && Holding(us, fs) && fs != []
      modifies this`freeListHead
      ensures ptr == pool.base + fs[0].block + fs[0].off
      ensures fs[0] !in us && fs[0] in AllSlots(ps, objectSize, objectsPerSlab)
      ensures Holding(us + {fs[0]}, fs[1..])
    {
      hide SlabOk, Blocks, Snap, Contents, Rep, Full, TagsOk, Exact, Pow2, Outside, GetWord, AllSlots;
      PopStep(pool.Stored(), pool.base, self - pool.base, freeListHead, pages, ps, fs, us,
              objectSize, objectsPerSlab);
      pool.HoldsStored(fs[0].block);
      ptr := freeListHead;
      var next := pool.ReadPtr(ptr, pool.base + fs[0].block);
      freeListHead := next;
    }

    // ----- pages -------------------------------------------------------------------------

    /** The two pool blocks of a page, or none: when the second cannot be had the first is
        given back. */
    method AllocatePair() returns (ok: bool, pagePtr: nat, objectsPtr: nat, ghost s1: Store)
      requires pool.Valid() && FitsBoth(pool.heap, PAGE_STRUCT, Room())
      modifies pool, pool.mem, pool.pageClass, pool.pools
      ensures pool.Valid() && Grows(old(pool.heap), pool.heap)
      ensures ok == GrantsBoth(old(pool.heap), PAGE_STRUCT, Room())
      ensures !ok ==> pool.Stored() == old(pool.Stored())
      ensures ok ==> Inserted(old(pool.Stored()), s1, pagePtr - pool.base, PAGE_STRUCT)
      ensures ok ==> Inserted(s1, pool.Stored(), objectsPtr - pool.base, Room())
      ensures ok ==> HasKind(pool.heap, objectsPtr - pool.base, KindFor(Room()))
    {
      hide Snap, Contents, Rep, Full, TagsOk, Exact, Pow2, Fits, Heaps.Allocate, Heaps.Free, Times, Requested,
           Inserted, HasKind, KindFor, Grows;
      ghost var s0, h0 := pool.Stored(), pool.heap;
      objectsPtr, s1 := 0, s0;
      AllocateGrows(h0, PAGE_STRUCT);
      ok, pagePtr := pool.Allocate(PAGE_STRUCT);
      if !ok {
        return;
      }
      s1 := pool.Stored();
      ghost var h1 := pool.heap;
      AllocateGrows(h1, Room());
      ok, objectsPtr := pool.Allocate(Requested(objectsPerSlab, objectSize));
      GrowsTransitive(h0, h1, pool.heap);
      if !ok {
        ghost var h2 := pool.heap;
        ReturnFirst(s0, s1, pool, pagePtr - pool.base);
        FreeGrows(h2, pagePtr - pool.base);
        pool.Free(pagePtr);
        GrowsTransitive(h0, h2, pool.heap);
      }
    }

    /** Links a new page header in front of the page list. All of its slots count as
        in use until they are threaded. */
    method LinkPage() returns (ok: bool, objectsPtr: nat)
      requires Sound() && FitsBoth(pool.heap, PAGE_STRUCT, Room())
      requires GrantsBoth(pool.heap, PAGE_STRUCT, Room()) ==> Times(objectsPerSlab, objectSize) < WORD
      modifies this`pages, this`slabCount, this`ps, pool, pool.mem, pool.pageClass, pool.pools
      ensures pool.Valid() && ok == GrantsBoth(old(pool.heap), PAGE_STRUCT, Room())
      ensures OfKind(pool.heap, ps, KindFor(Times(objectsPerSlab, objectSize)))
      ensures !ok ==> Sound() && ps == old(ps) && pool.Stored() == old(pool.Stored())
      ensures !ok ==> pages == old(pages) && slabCount == old(slabCount)
      ensures ok ==> ps != [] && ps[1..] == old(ps) && objectsPtr == pool.base + ps[0].objects
      ensures ok ==> Holding(used + SlotSet(PageSlots(ps[0].objects, objectSize, objectsPerSlab)), free)
      ensures ok ==> forall f :: f in used || f in free ==>
                       f !in PageSlots(ps[0].objects, objectSize, objectsPerSlab)
      ensures Rest() == old(Rest())
    {
      hide Snap, Contents, Rep, Full, TagsOk, Exact, Pow2, Outside, PutWord, SlabOk, Fits, Heaps.Allocate, Blocks,
           PageSlots, SlotSet, PageAdded, Word, Times, Requested, OfKind, HasKind, KindFor, Grows, FitsBoth, GrantsBoth;
      ghost var h0, ps0 := pool.heap, ps;
      ghost var s0, room := pool.Stored(), Times(objectsPerSlab, objectSize);
      WordsFit(pool);
      HeadWord(s0, pool.base, self - pool.base, freeListHead, pages, ps, free, used, objectSize, objectsPerSlab);
      var pagePtr;
      ghost var s1;
      ok, pagePtr, objectsPtr, s1 := AllocatePair();
      KindsKept(h0, pool.heap, ps0, KindFor(Times(objectsPerSlab, objectSize)));
      if !ok {
        return false, 0;
      }
      RequestedFits(objectsPerSlab, objectSize);
      ghost var pg: nat := pagePtr - pool.base;
      ghost var s2, ob: nat := pool.Stored(), objectsPtr - pool.base;
      pool.HoldsStored(pg);
      pool.HoldsStored(ob);
      pool.WritePtr(pagePtr, objectsPtr, pagePtr);
      pool.HoldsStored(pg);
      pool.WritePtr(pagePtr + 8, pages, pagePtr);
      PageAddedIs(s0, s1, s2, pool.base, pages, pg, ob, room);
      PageStep(s0, pool.Stored(), pool.base, self - pool.base, freeListHead, pages, ps, free, used,
               objectSize, objectsPerSlab, pg, ob);
      pages := pagePtr;
      slabCount := slabCount + 1;
      ps := [Page(pg, ob)] + ps;
      KindsCons(pool.heap, ps0, Page(pg, ob), KindFor(room));
    }

    /** allocate_new_page. */
    method AllocateNewPage() returns (ok: bool)
      requires Sound() && FitsBoth(pool.heap, PAGE_STRUCT, Room())
      requires GrantsBoth(pool.heap, PAGE_STRUCT, Room()) ==> Times(objectsPerSlab, objectSize) < WORD
      modifies this`freeListHead, this`pages, this`slabCount, this`ps, this`free,
               pool, pool.mem, pool.pageClass, pool.pools
      ensures Sound() && ok == GrantsBoth(old(pool.heap), PAGE_STRUCT, Room())
      ensures !ok ==> ps == old(ps) && free == old(free) && pool.Stored() == old(pool.Stored())
      ensures !ok ==> slabCount == old(slabCount)
      ensures ok ==> ps != [] && ps[1..] == old(ps) && slabCount == old(slabCount) + 1
      ensures ok ==> free == PageSlots(ps[0].objects, objectSize, objectsPerSlab) + old(free)
      ensures Rest() == old(Rest())
    {
      hide Snap, Contents, Rep, Full, TagsOk, Exact, Pow2, Outside, SlabOk, FitsBoth, Blocks,
           PageSlots, SlotSet, Times, InUse, OfKind, KindFor, Requested, GrantsBoth;
      ghost var fs := free;
      SlabSizes(pool.Stored(), pool.base, self - pool.base, freeListHead, pages, ps, free, used,
                objectSize, objectsPerSlab);
      var objectsPtr;
      ok, objectsPtr := LinkPage();
      if !ok {
        return;
      }
      ghost var ob := ps[0].objects;
      ThreadEnds(used, fs, ob, objectSize, objectsPerSlab);
      ThreadSlot(used, fs, ob, objectSize, objectsPerSlab, 0);
      TimesSucc(0, objectSize);
      PushSlot(objectsPtr, Slot(ob, 0), InUse(used, ob, objectSize, objectsPerSlab, 0), fs);
      var slotIndex := 1;
      while slotIndex < objectsPerSlab
        invariant 1 <= slotIndex <= objectsPerSlab
        invariant pool.Valid() && Rest() == old(Rest())
        invariant Holding(InUse(used, ob, objectSize, objectsPerSlab, slotIndex),
                          PageSlots(ob, objectSize, slotIndex) + fs)
        modifies this`freeListHead, pool.mem
      {
        var slot := objectsPtr + Times(slotIndex, objectSize);
        ThreadSlot(used, fs, ob, objectSize, objectsPerSlab, slotIndex);
        PushSlot(slot, Slot(ob, Times(slotIndex, objectSize)),
                 InUse(used, ob, objectSize, objectsPerSlab, slotIndex),
                 PageSlots(ob, objectSize, slotIndex) + fs);
        slotIndex := slotIndex + 1;
      }
      free := PageSlots(ob, objectSize, objectsPerSlab) + fs;
    }

    // ----- operations --------------------------------------------------------------------

    /** slab_allocate. */
    method Allocate() returns (ok: bool, outPtr: nat, ghost f: Slot)
      requires Valid()
      requires free == [] ==> FitsBoth(pool.heap, PAGE_STRUCT, Room())
      modifies this, pool, pool.mem, pool.pageClass, pool.pools
      ensures Valid() && Rest() == old(Rest())
      ensures ok <==> old(free) != [] || GrantsBoth(old(pool.heap), PAGE_STRUCT, Room())
      ensures !ok ==> outPtr == 0 && old(free) == free == [] && used == old(used) && ps == old(ps)
      ensures !ok ==> pool.Stored() == old(pool.Stored())
      ensures ok ==> f !in old(used) && used == old(used) + {f} && outPtr == pool.base + f.block + f.off
      ensures ok ==> f in AllSlots(ps, objectSize, objectsPerSlab)
      ensures ok && old(free) != [] ==> f == old(free)[0] && free == old(free)[1..] && ps == old(ps)
      ensures ok && old(free) == [] ==> ps != [] && ps[1..] == old(ps)
      ensures Count() == Step(old(Count()), objectsPerSlab, Take(ok))
    {
      hide Snap, Contents, Rep, Full, TagsOk, Exact, Pow2, Outside, SlabOk, FitsBoth, Blocks, AllSlots, Times, OfKind,
           KindFor, Requested, GrantsBoth;
      ProductFits();
      SlabSizes(pool.Stored(), pool.base, self - pool.base, freeListHead, pages, ps, free, used,
                objectSize, objectsPerSlab);
      SlabCounts(pool.Stored(), pool.base, self - pool.base, freeListHead, pages, ps, free, used,
                 objectSize, objectsPerSlab);
      f := Slot(0, 0);
      if freeListHead == 0 {
        ok := AllocateNewPage();
        if !ok {
          return false, 0, f;
        }
      }
      f := free[0];
      outPtr := PopSlot(used, free);
      used, free := used + {f}, free[1..];
      usedObjects := usedObjects + 1;
      peak := if usedObjects > peak then usedObjects else peak;
      ok := true;
    }

    /** slab_free, for a slot in use. */
    method Free(ptr: nat, ghost f: Slot)
      requires Valid() && f in used && ptr == pool.base + f.block + f.off
      modifies this, pool.mem
      ensures Valid() && Rest() == old(Rest())
      ensures used == old(used) - {f} && free == [f] + old(free)
      ensures ps == old(ps) && Count() == Step(old(Count()), objectsPerSlab, Give)
    {
      hide Snap, Contents, Rep, Full, TagsOk, Exact, Pow2, Outside, SlabOk, Blocks;
      PushSlot(ptr, f, used, free);
      used, free := used - {f}, [f] + free;
      usedObjects := usedObjects - 1;
    }

    /** What the user of a slot does: whatever it writes inside, the slab stays intact. */
    method WriteSlot(ghost f: Slot, ptr: nat, off: nat, bytes: seq<byte>)
      requires Valid() && f in used && ptr == pool.base + f.block && off >= f.off
      requires off + |bytes| <= f.off + objectSize
      modifies pool.mem
      ensures Valid() && Rest() == old(Rest())
      ensures f.block in old(pool.Stored()) && off + |bytes| <= |old(pool.Stored())[f.block]|
      ensures pool.Stored() == old(pool.Stored())[f.block := Splice(old(pool.Stored())[f.block], off, bytes)]
    {
      hide Snap, Contents, Rep, Full, TagsOk, Exact, Pow2, Outside, SlabOk, Blocks, Splice;
      ghost var s := pool.Stored();
      WriteStep(s, pool.base, self - pool.base, freeListHead, pages, ps, free, used,
                objectSize, objectsPerSlab, f, off, bytes);
      pool.HoldsStored(f.block);
      pool.Write(ptr, off, bytes);
      OutsideSame(s, pool.Stored(), Own(), f.block);
    }

    /** slab_get_stats. The products fit in size_t, since all slots lie in the region. */
    method GetStats() returns (totalObjects: nat, freeObjects: nat)
      requires Valid()
      ensures totalObjects == Times(slabCount, objectsPerSlab) < WORD
      ensures freeObjects == |free| && usedObjects + freeObjects == totalObjects
    {
      hide Snap, Contents, Rep, Full, TagsOk, Exact, Pow2, SlabOk, Times, AllSlots;
      SlotsFit();
      SlabCounts(pool.Stored(), pool.base, self - pool.base, freeListHead, pages, ps, free, used,
                 objectSize, objectsPerSlab);
      totalObjects := Times(slabCount, objectsPerSlab);
      freeObjects := WrapSub(totalObjects, usedObjects);
    }

    /** One page is enough to know that the product of its size does not wrap around. */
    lemma ProductFits()
      requires Valid()
      ensures Times(objectsPerSlab, objectSize) < WORD
    {
      hide Snap, Contents, Rep, Full, TagsOk, Exact, Pow2, SlabOk, Times, ObjectBlocks, OfKind, KindFor;
      ObjectsFit(pool.Stored(), pool.base, self - pool.base, freeListHead, pages, ps, free, used,
                 objectSize, objectsPerSlab);
      FirstObject(ps);
      pool.HoldsStored(ps[0].objects);
    }

    lemma SlotsFit()
      requires Valid()
      ensures Times(slabCount, objectsPerSlab) < WORD
    {
      hide Snap, Contents, Rep, Full, TagsOk, Exact, Pow2, SlabOk, Times, Sum, SumOver, ObjectBlocks;
      ObjectsFit(pool.Stored(), pool.base, self - pool.base, freeListHead, pages, ps, free, used,
                 objectSize, objectsPerSlab);
      forall b | b in ObjectBlocks(ps)
        ensures b in pool.heap.live && pool.heap.live[b] >= Times(objectsPerSlab, objectSize)
      {
        pool.HoldsStored(b);
      }
      LiveSums(pool.heap);
      SumOverBelow(pool.heap.live, ObjectBlocks(ps));
      PagesBelow(pool.heap.live, ps, objectSize, objectsPerSlab);
    }

    // ----- lifetime ----------------------------------------------------------------------

    /** slab_create. */
    static method Create(pool: Pool, objectSize: nat, objectsPerSlab: nat) returns (ok: bool, slab: Slab?)
      requires pool.Valid() && CreateFits(pool.heap, objectSize, objectsPerSlab)
      modifies pool, pool.mem, pool.pageClass, pool.pools
      ensures pool.Valid() && ok == (slab != null)
      ensures ok <==> objectSize >= 8 && objectsPerSlab > 0
                      && CreateGrants(old(pool.heap), Requested(objectsPerSlab, objectSize))
      ensures !ok ==> pool.Stored() == old(pool.Stored())
      ensures ok ==> fresh(slab) && slab.pool == pool && slab.Valid()
      ensures ok ==> slab.objectSize == objectSize && slab.objectsPerSlab == objectsPerSlab
      ensures ok ==> slab.used == {} && slab.Count() == SlabRuns.Run(objectsPerSlab, [])
      ensures ok ==> slab.Rest() == old(pool.Stored())
    {
      hide Snap, Contents, Rep, Full, TagsOk, Exact, Pow2, Outside, SlabOk, Fits, FitsBoth, Blocks, Heaps.Allocate,
           PageSlots, Times, Requested, GrantsBoth, OfKind, KindFor;
      slab := null;
      if objectSize < 8 || objectsPerSlab == 0 {
        return false, null;
      }
      ghost var s0 := pool.Stored();
      var slabPtr;
      ok, slabPtr := pool.Allocate(SLAB_STRUCT);
      if !ok {
        return false, null;
      }
      ghost var s1, self: nat := pool.Stored(), slabPtr - pool.base;
      NewSlabOutside(s0, s1, self);
      var s := new Slab(pool, slabPtr, objectSize, objectsPerSlab);
      ok := s.AllocateNewPage();
      if !ok {
        pool.HoldsStored(self);
        pool.Free(slabPtr);
        assert s1 - {self} == s0;
        return false, null;
      }
      slab := s;
    }

    /** slab_destroy, whether or not slots are still in use. */
    method Destroy()
      requires Valid()
      modifies pool, pool.mem, pool.pageClass, pool.pools
      ensures pool.Valid() && pool.Stored() == old(Rest())
    {
      hide Snap, Contents, Rep, Full, TagsOk, Exact, Pow2, Outside, PageChain, Blocks, Times, GetWord, SlotChain,
           AllSlots, Roomy, Word;
      ghost var me, room, rest := self - pool.base, Times(objectsPerSlab, objectSize), ps;
      var page := pages;
      while page != 0
        invariant pool.Valid() && PageChain(pool.Stored(), pool.base, page, rest, room)
        invariant NoDup(Blocks(me, rest)) && Roomy(pool.Stored(), me, SLAB_STRUCT)
        invariant Outside(pool.Stored(), Blocks(me, rest)) == old(Rest())
        decreases |rest|
      {
        DropPage(pool.Stored(), pool.base, me, page, rest, room);
        ghost var pg, ob := rest[0].page, rest[0].objects;
        pool.HoldsStored(pg);
        pool.HoldsStored(ob);
        var next := pool.ReadPtr(page + 8, page);
        var objects := pool.ReadPtr(page, page);
        pool.Free(objects);
        pool.HoldsStored(pg);
        pool.Free(page);
        page := next;
        rest := rest[1..];
      }
      DropSelf(pool.Stored(), pool.base, me, rest, room);
      pool.HoldsStored(me);
      pool.Free(self);
    }
  }

  /** The slab struct and both blocks of a page are granted. */
  ghost predicate CreateGrants(h: Heap, room: nat) {
    && |h.free| == LISTS && h.page > 0 && Heaps.Allocate(h, SLAB_STRUCT).1.Some?
    && GrantsBoth(Heaps.Allocate(h, SLAB_STRUCT).0, PAGE_STRUCT, room)
  }

  /** What slab_create needs of its caller: bump sums below 2^64, and a product that does
      not wrap around unless the pool refuses what it wraps to. */
  ghost predicate CreateFits(h: Heap, size: nat, n: nat) {
    size >= 8 && n > 0 ==>
      && |h.free| == LISTS && h.page > 0 && Fits(h, SLAB_STRUCT)
      && (Heaps.Allocate(h, SLAB_STRUCT).1.Some? ==>
            FitsBoth(Heaps.Allocate(h, SLAB_STRUCT).0, PAGE_STRUCT, Requested(n, size)))
      && (CreateGrants(h, Requested(n, size)) ==> Times(n, size) < WORD)
  }

  lemma RequestedFits(n: nat, size: nat)
    requires Times(n, size) < WORD
    ensures Requested(n, size) == Times(n, size)
  {
    ModUnique(Times(n, size), WORD, 0, Times(n, size));
  }

  lemma FirstObject(ps: seq<Page>)
    requires ps != []
    ensures ps[0].objects in ObjectBlocks(ps)
  {
    assert ObjectBlocks(ps)[0] == ps[0].objects;
  }

  /** Giving a block just inserted back restores the store. */
  lemma ReturnFirst(s0: Store, s1: Store, pool: Pool, p: int)
    requires pool.Valid() && Inserted(s0, s1, p, PAGE_STRUCT) && pool.Stored() == s1
    ensures p >= 0 && p in pool.heap.live && s1 - {p} == s0
  {
    hide Snap, Contents, Rep, Full, TagsOk, Exact, Pow2;
    pool.HoldsStored(p);
  }

  /** Addresses of stored bytes fit in a word. */
  lemma WordsFit(pool: Pool)
    requires pool.Valid()
    ensures forall b :: b in pool.Stored() ==> pool.base + b + |pool.Stored()[b]| <= WORD
  {
    hide Snap, Contents, Rep, Full, TagsOk, Exact, Pow2;
    forall b | b in pool.Stored() ensures pool.base + b + |pool.Stored()[b]| <= WORD {
      pool.HoldsStored(b);
    }
  }

  lemma HeadWord(s: Store, base: nat, self: nat, head: nat, pages: nat, ps: seq<Page>, fs: seq<Slot>,
                 us: set<Slot>, size: nat, n: nat)
    requires SlabOk(s, base, self, head, pages, ps, fs, us, size, n)
    requires forall b :: b in s ==> base + b + |s[b]| <= WORD
    ensures head < WORD && pages < WORD
  {
    hide SlotChain, PageChain, AllSlots, Blocks;
    ChainHeadIsWord(s, base, head, fs);
    PagesIsWord(s, base, pages, ps, Times(n, size));
  }

  lemma SlabSizes(s: Store, base: nat, self: nat, head: nat, pages: nat, ps: seq<Page>, fs: seq<Slot>,
                  us: set<Slot>, size: nat, n: nat)
    requires SlabOk(s, base, self, head, pages, ps, fs, us, size, n)
    ensures size >= 8 && n >= 1
    ensures base > 0 ==> (head == 0 <==> fs == [])
  {
  }

  /** No slot is free exactly when all slots of all pages are in use. */
  lemma SlabCounts(s: Store, base: nat, self: nat, head: nat, pages: nat, ps: seq<Page>, fs: seq<Slot>,
                   us: set<Slot>, size: nat, n: nat)
    requires SlabOk(s, base, self, head, pages, ps, fs, us, size, n)
    ensures |us| + |fs| == Times(|ps|, n)
    ensures fs == [] <==> |us| == Times(|ps|, n)
  {
    hide PageChain, SlotChain, AllSlots, Times;
    SlotCount(ps, fs, us, size, n);
  }

  lemma ObjectsFit(s: Store, base: nat, self: nat, head: nat, pages: nat, ps: seq<Page>, fs: seq<Slot>,
                   us: set<Slot>, size: nat, n: nat)
    requires SlabOk(s, base, self, head, pages, ps, fs, us, size, n)
    ensures size >= 8 && n >= 1 && NoDup(ObjectBlocks(ps)) && |ObjectBlocks(ps)| == |ps|
    ensures forall b :: b in ObjectBlocks(ps) ==> b in s && |s[b]| >= Times(n, size)
  {
    hide SlotChain, PageChain, AllSlots, Times, Blocks;
    ObjectsNoDup(self, ps);
    forall b | b in ObjectBlocks(ps) ensures b in s && |s[b]| >= Times(n, size) {
      var i :| 0 <= i < |ObjectBlocks(ps)| && ObjectBlocks(ps)[i] == b;
      PageChainAt(s, base, pages, ps, Times(n, size), i);
    }
  }

  /** As many objects as bytes at most. */
  lemma {:induction false} PagesBelow(m: map<nat, nat>, ps: seq<Page>, size: nat, n: nat)
    requires size >= 8
    requires forall b :: b in ObjectBlocks(ps) ==> b in m && m[b] >= Times(n, size)
    ensures Times(|ps|, n) <= SumOver(m, ObjectBlocks(ps))
    decreases |ps|
  {
    TimesSucc(0, n);
    if ps != [] {
      var init, last := ps[..|ps| - 1], ps[|ps| - 1];
      assert ObjectBlocks(ps)[..|ps| - 1] == ObjectBlocks(init);
      assert ObjectBlocks(ps)[|ps| - 1] == last.objects;
      PagesBelow(m, init, size, n);
      TimesSucc(|init|, n);
      MulMono(1, size, n);
    }
  }

  // ----- alignment of slots -----------------------------------------------------------------

  /** What the pool guarantees of the object block of page i. */
  lemma ObjectBlock(slab: Slab, i: nat)
    requires slab.Valid() && i < |slab.ps|
    ensures var h, p, room := slab.pool.heap, slab.ps[i].objects, Times(slab.objectsPerSlab, slab.objectSize);
            && p in h.blocks && h.blocks[p].k == KindFor(room) && h.blocks[p].k < LISTS
            && AlignedBlock(h.page, h.blocks[p].k, p) && PageOk(h.page)
            && (h.blocks[p].k < CLASSES <==> room <= MAX_CLASS_SIZE)
            && (h.blocks[p].k < CLASSES ==> room <= ClassSize(h.blocks[p].k))
    ensures slab.objectSize >= 8 && slab.objectsPerSlab >= 1
  {
    hide Snap, Contents, Rep, Full, TagsOk, Exact, Pow2, SlabOk, Times, ObjectBlocks, SizeClassForSize, ClassSize,
         AlignedBlock, PageOk;
    var h, p, room := slab.pool.heap, slab.ps[i].objects, Times(slab.objectsPerSlab, slab.objectSize);
    ObjectsFit(slab.pool.Stored(), slab.pool.base, slab.self - slab.pool.base, slab.freeListHead, slab.pages,
               slab.ps, slab.free, slab.used, slab.objectSize, slab.objectsPerSlab);
    assert HasKind(h, slab.ps[i].objects, KindFor(room));
    FullParts(h);
    ObjectInBlocks(slab.ps, i);
    slab.pool.HoldsStored(p);
    LivePayloads(h, p, p);
    RoomPositive(slab.objectsPerSlab, slab.objectSize);
    if room <= MAX_CLASS_SIZE {
      ClassHolds(room);
    }
  }

  lemma ObjectInBlocks(ps: seq<Page>, i: nat)
    requires i < |ps|
    ensures ps[i].objects in ObjectBlocks(ps)
  {
    assert ObjectBlocks(ps)[i] == ps[i].objects;
  }

  lemma RoomPositive(n: nat, size: nat)
    requires n >= 1 && size >= 8
    ensures Times(n, size) >= 8
  {
    TimesMono(1, n, size);
    TimesSucc(0, size);
  }

  ghost predicate AllAligned(slab: Slab, N: nat)
    requires N > 0
    reads slab, slab.pool
  {
    forall f {:trigger f in AllSlots(slab.ps, slab.objectSize, slab.objectsPerSlab)} ::
      f in AllSlots(slab.ps, slab.objectSize, slab.objectsPerSlab) ==> (slab.pool.base + f.block + f.off) % N == 0
  }

  /** The slab header promises that slots are aligned to the next power of two N of the
      object size. For N up to the page size all slots of a slab are so aligned if and
      only if a page has at most 4 MiB of objects, or N is at most 16, and a page has one
      object, or the object size is itself a power of two. */
  lemma SlotsAlignedExactly(slab: Slab, N: nat)
    requires slab.Valid() && IsPow2(N)
    requires slab.objectSize <= N < 2 * slab.objectSize && N <= slab.pool.pageSize
    ensures AllAligned(slab, N) <==>
            && (Times(slab.objectsPerSlab, slab.objectSize) <= MAX_CLASS_SIZE || N <= 16)
            && (slab.objectsPerSlab == 1 || slab.objectSize == N)
  {
    hide Snap, Contents, Rep, Full, TagsOk, Exact, Pow2, SlabOk, Times, AllSlots, IsPow2, OfKind, KindFor, ClassSize,
         AlignedBlock, PageOk;
    var ps, size, n, base := slab.ps, slab.objectSize, slab.objectsPerSlab, slab.pool.base;
    ObjectBlock(slab, 0);
    if AllAligned(slab, N) {
      forall j: nat | j < n ensures (base + ps[0].objects + Times(j, size)) % N == 0 {
        AllSlotsHas(ps, size, n, 0, j);
        assert Slot(ps[0].objects, Times(j, size)) in AllSlots(ps, size, n);
      }
    }
    SlotAlignment(base, slab.pool.pageSize, slab.pool.heap.blocks[ps[0].objects].k, ps[0].objects, size, n, N);
    if (Times(n, size) <= MAX_CLASS_SIZE || N <= 16) && (n == 1 || size == N) {
      forall f | f in AllSlots(ps, size, n) ensures (base + f.block + f.off) % N == 0 {
        var i, j := AllSlotsIn(ps, size, n, f);
        ObjectBlock(slab, i);
        SlotAlignment(base, slab.pool.pageSize, slab.pool.heap.blocks[ps[i].objects].k, ps[i].objects, size, n, N);
      }
    }
  }

  /** The promise fails for two objects of 24 bytes a page, wherever the pool lies. */
  lemma PromiseFails(slab: Slab)
    requires slab.Valid() && slab.objectSize == 24 && slab.objectsPerSlab == 2 && slab.pool.pageSize >= 32
    ensures !AllAligned(slab, 32)
  {
    hide Snap, Contents, Rep, Full, TagsOk, Exact, SlabOk, AllSlots, AllAligned;
    assert Pow2(5) == 32;
    SlotsAlignedExactly(slab, 32);
  }
}
