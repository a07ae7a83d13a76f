/** The pool operations keep the partition of the region and act on the live
    blocks as insertion, removal and renaming in a finite map. */
module HeapOps {
  import opened Words
  import opened SizeClasses
  import opened FreeLists
  import opened Extents
  import opened Heaps
  import opened HeapSteps

  /** Carved blocks are never dissolved, moved, resized or retagged. */
  ghost predicate Grows(h: Heap, g: Heap) {
    && g.page == h.page && g.total == h.total && g.stats.on == h.stats.on
    && h.carved <= g.carved
    && h.extents <= g.extents
    && forall p {:trigger p in g.blocks} {:trigger p in h.blocks} ::
         p in h.blocks ==> p in g.blocks && g.blocks[p] == h.blocks[p]
  }

  /** h and g differ at most in the tier that holds some free blocks. */
  ghost predicate SameButTiers(h: Heap, g: Heap) {
    && g == h.(free := g.free)
    && |g.free| == |h.free| == LISTS
    && forall k :: 0 <= k < LISTS ==> g.free[k].Bag() == h.free[k].Bag()
  }

  lemma GrowsTransitive(a: Heap, b: Heap, c: Heap)
    requires Grows(a, b) && Grows(b, c)
    ensures Grows(a, c)
  {
  }

  // ----- carving ------------------------------------------------------------------

  lemma CarveClassLimbo(h: Heap, c: nat)
    requires Full(h) && c < CLASSES && CarveClass(h, c).1.Some?
    ensures Limbo(CarveClass(h, c).0, c, multiset{h.bump})
    ensures h.blocks.Keys !! Cut(c, h.bump, CarveLen(h.page, c)).Keys
  {
    var len, n, m := CarveLen(h.page, c), CarvePages(h.page, c), PerExtent(h.page, c);
    CarvePagesOk(h.page, c);
    assert m >= 1 by { CarveSplits(h.page, c); }
    FullIsEmptyLimbo(h, c);
    hide CarveLen, CarvePages, PerExtent, ClassSize, Cut, Full, Limbo, CutOk, PageOk;
    var slots := Slots(h.bump, ClassSize(c), m);
    CarveStep(h, c, multiset{}, n);
    SlotsAreBlocks(c, h.bump, len, h.page);
    SlotAt(h.bump, ClassSize(c), m, 0);
    assert slots == [h.bump] + slots[1..];
    assert multiset{} + multiset(Cut(c, h.bump, len).Keys) == multiset{h.bump} + multiset(slots[1..]);
    PutFreeAllStep(Carve(h, c, n), c, multiset{h.bump}, slots[1..]);
  }

  /** The heap g after carving an extent of class c, whose first block is p. */
  ghost predicate ClassCarved(h: Heap, g: Heap, c: nat, p: nat) {
    && |h.free| == |g.free| == LISTS
    && Limbo(g, c, multiset{p}) && Grows(h, g)
    && g.live == h.live && g.stats == h.stats
    && p == h.bump && p in g.blocks && g.blocks[p] == Block(c, ClassSize(c))
    && g.carved == h.carved + CarvePages(h.page, c)
    && g.extents == h.extents + [Extent(h.carved, CarvePages(h.page, c), c)]
    && forall k :: 0 <= k < LISTS && k != c ==> g.free[k] == h.free[k]
  }

  lemma CarveClassStep(h: Heap, c: nat)
    requires Full(h) && c < CLASSES
    ensures CarveClass(h, c).1.None? <==> h.bump + CarveLen(h.page, c) > h.total
    ensures CarveClass(h, c).1.None? ==> CarveClass(h, c).0 == h
    ensures CarveClass(h, c).1.Some? ==>
              ClassCarved(h, CarveClass(h, c).0, c, CarveClass(h, c).1.value)
  {
    if CarveClass(h, c).1.Some? {
      CarveClassLimbo(h, c);
      CarvePagesOk(h.page, c);
      hide Full, Limbo, CarveLen, CarvePages, Cut, ClassSize, PageOk, Slots, PerExtent;
      var n := CarvePages(h.page, c);
      CutHasFirst(c, h.bump, n * h.page);
      GrowsCarve(h, c, n);
    }
  }

  lemma GrowsCarve(h: Heap, c: nat, n: nat)
    requires h.blocks.Keys !! Cut(c, h.bump, n * h.page).Keys
    ensures Grows(h, Carve(h, c, n))
  {
    hide Cut;
  }

  lemma CutHasFirst(c: nat, start: nat, len: nat)
    requires c < CLASSES && len > 0
    ensures start in Cut(c, start, len) && Cut(c, start, len)[start] == Block(c, ClassSize(c))
  {
    assert InSlot(start, start, len, ClassSize(c)) by { ModUnique(0, ClassSize(c), 0, 0); }
  }

  lemma CarveLargeStep(h: Heap, total: nat)
    requires Full(h) && total % h.page == 0 && total > META_SIZE
    ensures CarveLarge(h, total).1.None? <==> h.bump + total > h.total
    ensures CarveLarge(h, total).1.None? ==> CarveLarge(h, total).0 == h
    ensures CarveLarge(h, total).1.Some? ==>
              var (g, p) := CarveLarge(h, total);
              && Limbo(g, LARGE, multiset{p.value}) && Grows(h, g)
              && g.live == h.live && g.stats == h.stats && g.free == h.free
              && p.value in g.blocks && g.blocks[p.value] == Block(LARGE, total)
              && p.value == h.bump + META_SIZE && p.value !in h.blocks
              && g == Carve(h, LARGE, Pages(total, h.page))
  {
    hide Full, Limbo, PageOk, Cut, CutOk;
    LargeCut(h, total);
    if h.bump + total <= h.total {
      FullIsEmptyLimbo(h, LARGE);
      CarveStep(h, LARGE, multiset{}, Pages(total, h.page));
      var p := h.bump + META_SIZE;
      var cut := map[p := Block(LARGE, total)];
      assert multiset{} + multiset(cut.Keys) == multiset{p};
      assert p in cut;
    }
  }

  lemma LargeCut(h: Heap, total: nat)
    requires Full(h) && total % h.page == 0 && total > META_SIZE
    ensures var n := Pages(total, h.page);
            n > 0 && n * h.page == total && CutOk(LARGE, total, h.page)
    ensures Cut(LARGE, h.bump, total) == map[h.bump + META_SIZE := Block(LARGE, total)]
  {
    hide Geometry, Tiled, Carved, Held;
    DivTimes(total, h.page);
  }

  // ----- allocation -----------------------------------------------------------------

  lemma TakeFreeSome(h: Heap, k: nat)
    requires Full(h) && k < LISTS
    ensures TakeFree(h, k).1.None? ==> TakeFree(h, k).0 == h && h.free[k].Bag() == multiset{}
    ensures TakeFree(h, k).1.Some? ==>
              var (g, p) := TakeFree(h, k);
              && Limbo(g, k, multiset{p.value}) && Grows(h, g)
              && p.value in h.blocks && h.blocks[p.value].k == k && p.value !in h.live
              && g == h.(free := g.free)
  {
    FullIsEmptyLimbo(h, k);
    TakeFreeStep(h, k, multiset{});
    var (g, p) := TakeFree(h, k);
    if p.Some? {
      assert multiset{} + multiset{p.value} == multiset{p.value};
      LimboIsUnheld(g, k, multiset{p.value}, p.value);
    }
  }

  lemma HandFull(h: Heap, k: nat, p: nat, usable: nat)
    requires Limbo(h, k, multiset{p}) && k < LISTS
    requires usable > 0 && Meta(k) + usable <= LenOf(h, p)
    requires k < CLASSES ==> usable == LenOf(h, p)
    ensures Full(Hand(h, p, usable)) && p !in h.live && p in h.blocks
  {
    assert multiset{p} == multiset{} + multiset{p};
    LimboIsUnheld(h, k, multiset{p}, p);
    HandStep(h, k, multiset{}, p, usable);
    FullIsEmptyLimbo(Hand(h, p, usable), k);
  }

  /** What a successful allocation of n bytes at p does. */
  ghost predicate Allocated(h: Heap, g: Heap, p: nat, n: nat) {
    && Full(g) && Grows(h, g)
    && p !in h.live && p in g.live && p in g.blocks
    && g.live == h.live[p := g.live[p]]
    && n <= g.live[p]
    && g.stats == CountAlloc(h.stats, g.live[p])
    && (if n <= MAX_CLASS_SIZE
        then g.blocks[p].k == SizeClassForSize(n) && g.live[p] == ClassSize(g.blocks[p].k)
        else g.blocks[p].k == LARGE && g.live[p] == n)
  }

  lemma AllocClassKeeps(h: Heap, n: nat)
    requires Full(h) && 1 <= n <= MAX_CLASS_SIZE
    ensures 0 <= SizeClassForSize(n) < CLASSES
    ensures var (g, p) := AllocClass(h, SizeClassForSize(n));
            if p.None? then g == h else Allocated(h, g, p.value, n)
  {
    hide Full, Limbo, CarveClass, TakeFree, ClassSize, SizeClassForSize, Grows, CountAlloc;
    FullParts(h);
    ClassHolds(n);
    var c := SizeClassForSize(n);
    TakeFreeSome(h, c);
    var (h1, p) := TakeFree(h, c);
    var q, h2 := p, h1;
    if p.None? {
      CarveClassStep(h, c);
      q := CarveClass(h, c).1;
      h2 := CarveClass(h, c).0;
    } else {
      BlockLen(h, p.value);
    }
    if q.Some? {
      HandFull(h2, c, q.value, ClassSize(c));
      GrowsHand(h, h2, q.value, ClassSize(c));
    }
  }

  lemma ClassHolds(n: nat)
    requires 1 <= n <= MAX_CLASS_SIZE
    ensures 0 <= SizeClassForSize(n) < CLASSES && 0 < n <= ClassSize(SizeClassForSize(n))
  {
    ClassChoice(n);
  }

  lemma FullParts(h: Heap)
    requires Full(h)
    ensures |h.free| == LISTS && PageOk(h.page) && h.page > 0
  {
  }

  lemma GrowsHand(h: Heap, g: Heap, p: nat, usable: nat)
    requires Grows(h, g)
    ensures Grows(h, Hand(g, p, usable))
  {
  }

  lemma BlockLen(h: Heap, p: nat)
    requires Full(h) && p in h.blocks
    ensures BlockOk(h.blocks[p])
  {
    assert Within(h.blocks, p, 0, h.bump);
  }

  /** Putting the top large block back leaves the heap as it was, except that a
      block popped from the overflow list ends up in the magazine. */
  lemma PutBack(h: Heap, k: nat)
    requires Full(h) && k < LISTS && TakeFree(h, k).1.Some?
    ensures var (g, p) := TakeFree(h, k);
            Full(PutFree(g, k, p.value)) && SameButTiers(h, PutFree(g, k, p.value))
  {
    TakeFreeSome(h, k);
    var (g, p) := TakeFree(h, k);
    assert multiset{p.value} == multiset{} + multiset{p.value};
    PutFreeStep(g, k, multiset{}, p.value);
    FullIsEmptyLimbo(PutFree(g, k, p.value), k);
    PopBag(h.free[k]);
    PushBag(g.free[k], p.value);
  }

  ghost predicate Picked(h: Heap, g: Heap, p: nat, total: nat) {
    && Limbo(g, LARGE, multiset{p}) && Grows(h, g)
    && g.live == h.live && g.stats == h.stats
    && p in g.blocks && g.blocks[p].k == LARGE && g.blocks[p].len >= total
  }

  lemma SameTiersGrows(h: Heap, g: Heap)
    requires SameButTiers(h, g)
    ensures Grows(h, g)
  {
  }

  lemma PickLargeStep(h: Heap, total: nat)
    requires Full(h) && total % h.page == 0 && total > META_SIZE
    ensures var (g, p) := PickLarge(h, total);
            if p.None? then SameButTiers(h, g) && Full(g) else Picked(h, g, p.value, total)
  {
    TakeFreeSome(h, LARGE);
    var (h1, p) := TakeFree(h, LARGE);
    if p.None? || LenOf(h1, p.value) < total {
      var h2 := if p.Some? then PutFree(h1, LARGE, p.value) else h1;
      if p.Some? {
        PutBack(h, LARGE);
      } else {
        assert SameButTiers(h, h2) by { hide Full; }
      }
      hide TakeFree, PutFree;
      CarveLargeStep(h2, total);
      hide Full, Limbo, CarveLarge;
      SameTiersGrows(h, h2);
      GrowsTransitive(h, h2, CarveLarge(h2, total).0);
    }
  }

  lemma LargeTotalBounds(page: nat, n: nat)
    requires LargeTotal(page, n).Some?
    ensures LargeTotal(page, n).value % page == 0
    ensures META_SIZE + n <= LargeTotal(page, n).value < WORD
    ensures LargeTotal(page, n).value < META_SIZE + n + page
  {
  }

  lemma AllocLargeKeeps(h: Heap, n: nat)
    requires Full(h) && n > MAX_CLASS_SIZE
    ensures var (g, p) := AllocLarge(h, n);
            if p.None? then SameButTiers(h, g) && Full(g) else Allocated(h, g, p.value, n)
  {
    if LargeTotal(h.page, n).Some? {
      var total := LargeTotal(h.page, n).value;
      LargeTotalBounds(h.page, n);
      PickLargeStep(h, total);
      var (h1, p) := PickLarge(h, total);
      hide Full, Limbo, PickLarge;
      if p.Some? {
        HandFull(h1, LARGE, p.value, n);
        hide Grows;
        GrowsHand(h, h1, p.value, n);
      }
    }
  }

  /** Allocation inserts one fresh block into the live map, or fails and leaves
      everything but the tiers of the free lists as it was. */
  lemma AllocateKeeps(h: Heap, n: nat)
    requires Full(h)
    ensures var (g, p) := Allocate(h, n);
            if p.None? then SameButTiers(h, g) && Full(g)
            else n > 0 && Allocated(h, g, p.value, n)
  {
    if n > 0 {
      ClassChoice(n);
      if n > MAX_CLASS_SIZE {
        AllocLargeKeeps(h, n);
      } else {
        AllocClassKeeps(h, n);
      }
    }
  }

  // ----- free -------------------------------------------------------------------------

  /** Freeing removes exactly the freed block from the live map. */
  lemma FreeKeeps(h: Heap, p: int)
    requires Full(h)
    ensures Full(Free(h, p)) && Grows(h, Free(h, p))
    ensures Free(h, p).blocks == h.blocks && Free(h, p).extents == h.extents
    ensures p < 0 || p !in h.live ==> Free(h, p) == h
    ensures p >= 0 && p in h.live ==>
              && Free(h, p).live == h.live - {p}
              && Free(h, p).stats == CountFree(h.stats, h.live[p])
              && h.blocks[p].k < LISTS
              && Free(h, p).free == h.free[h.blocks[p].k := h.free[h.blocks[p].k].Push(p)]
  {
    if p >= 0 && p in h.live {
      DropStep(h, p);
      var k := h.blocks[p].k;
      var h1 := Drop(h, p);
      assert multiset{p} == multiset{} + multiset{p};
      PutFreeStep(h1, k, multiset{}, p);
      var h2 := PutFree(h1, k, p);
      StatsStep(h2, k, multiset{}, CountFree(h2.stats, h.live[p]));
      FullIsEmptyLimbo(Release(h, p), k);
    }
  }

  // ----- reallocate ---------------------------------------------------------------------

  /** A successful reallocation of p to n bytes at q: p is dead unless it is q,
      q is live and long enough, all other live blocks keep place and size. */
  ghost predicate Reallocated(h: Heap, g: Heap, p: nat, q: nat, n: nat) {
    && Full(g) && Grows(h, g)
    && p in h.live && q in g.live
    && g.live == (h.live - {p})[q := g.live[q]]
    && (q == p || q !in h.live)
    && n <= g.live[q]
  }

  lemma InPlaceKeeps(h: Heap, p: nat, n: nat)
    requires Full(h) && p in h.live && n > 0 && InPlace(h, p, n).Some?
    ensures Reallocated(h, InPlace(h, p, n).value, p, p, n)
    ensures InPlace(h, p, n).value.stats == CountResize(h.stats, h.live[p], InPlace(h, p, n).value.live[p])
            || InPlace(h, p, n).value == h
  {
    hide Limbo, Geometry, Tiled, Carved, Held, PageOk, SizeClassForSize, LargeTotal;
    var g := InPlace(h, p, n).value;
    assert LiveFits(h, p);
    ClassChoice(n);
    BlockLen(h, p);
    if h.blocks[p].k == LARGE {
      var k := LARGE;
      DropStep(h, p);
      LargeTotalBounds(h.page, n);
      HandFull(Drop(h, p), LARGE, p, n);
      var g1 := Hand(Drop(h, p), p, n);
      FullIsEmptyLimbo(g1, k);
      StatsStep(g1, k, multiset{}, g.stats);
      FullIsEmptyLimbo(g1.(stats := g.stats), k);
      assert g.live == (h.live - {p})[p := n];
      assert g == g1.(stats := g.stats);
      hide Full, Limbo;
      assert Grows(h, g);
    }
  }

  /** Allocating q and then freeing p is a reallocation of p to q. */
  lemma MoveIsRealloc(h: Heap, h1: Heap, g: Heap, p: nat, q: nat, n: nat)
    requires Allocated(h, h1, q, n) && p in h.live
    requires Full(g) && Grows(h1, g) && g.live == h1.live - {p}
    ensures Reallocated(h, g, p, q, n)
  {
    hide Full;
    GrowsTransitive(h, h1, g);
    hide Grows;
    assert g.live == h.live[q := h1.live[q]] - {p};
  }

  lemma MoveKeeps(h: Heap, p: nat, n: nat)
    requires Full(h) && p in h.live
    ensures var (g, q) := Move(h, p, n);
            if q.None? then SameButTiers(h, g) && Full(g)
            else n > 0 && Reallocated(h, g, p, q.value, n)
  {
    AllocateKeeps(h, n);
    var (h1, q) := Allocate(h, n);
    if q.Some? {
      assert p in h1.live;
      hide Allocate, Grows;
      FreeKeeps(h1, p);
      hide Full, Free;
      MoveIsRealloc(h, h1, Free(h1, p), p, q.value, n);
    }
    hide Reallocated, SameButTiers;
  }

  /** Reallocation renames or resizes one entry of the live map, or fails and
      leaves everything but the tiers of the free lists as it was. */
  lemma ReallocateKeeps(h: Heap, p: nat, n: nat)
    requires Full(h) && p in h.live
    ensures var (g, q) := Reallocate(h, Some(p), n);
            if q.None? then SameButTiers(h, g) && Full(g)
            else n > 0 && Reallocated(h, g, p, q.value, n)
  {
    if n > 0 {
      if InPlace(h, p, n).Some? {
        InPlaceKeeps(h, p, n);
      } else {
        MoveKeeps(h, p, n);
      }
    }
    hide Full, Move, InPlace;
  }
}
