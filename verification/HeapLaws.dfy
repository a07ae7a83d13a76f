/** What each pool operation answers, in terms of the free lists, the block lengths and
    the bump alone. */
module HeapLaws {
  import opened Words
  import opened SizeClasses
  import opened FreeLists
  import opened Extents
  import opened Heaps
  import opened HeapSteps
  import opened HeapOps
  import opened HeapRuns

  /** The block a list gives next: the last of the magazine, else the first of the
      overflow list. */
  function Next(f: FreeList): (p: Option<nat>) {
    if |f.mag| > 0 then Some(f.mag[|f.mag| - 1])
    else if |f.spill| > 0 then Some(f.spill[0])
    else None
  }

  /** What is left of the list then. */
  function Left(f: FreeList): (g: FreeList) {
    if |f.mag| > 0 then FreeList(f.mag[..|f.mag| - 1], f.spill)
    else if |f.spill| > 0 then FreeList([], f.spill[1..])
    else f
  }

  lemma TakesNext(h: Heap, k: nat)
    requires k < |h.free|
    ensures TakeFree(h, k).1 == Next(h.free[k])
    ensures TakeFree(h, k).0 == h.(free := h.free[k := Left(h.free[k])])
  {
    var f := h.free[k];
    if f.mag == [] && f.spill == [] {
      assert h.free[k := f] == h.free;
    } else if f.mag == [] {
      assert f.mag == [];
    }
  }

  // ----- class requests ---------------------------------------------------------------------

  /** Bytes of an extent of class c. */
  function ExtentBytes(page: nat, c: nat): (n: nat) {
    if ClassSize(c) < page then page else ClassSize(c)
  }

  /** A request of class c gets the block its list gives next. With both tiers empty it
      gets the start of a new extent, exactly when the extent fits in the region. */
  ghost predicate ClassServed(h: Heap, g: Heap, q: Option<nat>, c: nat)
    requires c < |h.free| && h.page > 0
  {
    var next, len := Next(h.free[c]), ExtentBytes(h.page, c);
    && (next.Some? ==>
          && q == next && g.free == h.free[c := Left(h.free[c])]
          && g.bump == h.bump && g.extents == h.extents && g.live == h.live[q.value := ClassSize(c)])
    && (next.None? && h.bump + len <= h.total ==>
          && q == Some(h.bump) && g.bump == h.bump + len
          && g.extents == h.extents + [Extent(h.carved, len / h.page, c)]
          && g.live == h.live[h.bump := ClassSize(c)])
    && (next.None? && h.bump + len > h.total ==> q == None && g == h)
  }

  /** Every request of up to 4 MiB is served like this. */
  lemma ClassAnswer(h: Heap, n: nat)
    requires Full(h) && 1 <= n <= MAX_CLASS_SIZE
    ensures |h.free| == LISTS && h.page > 0 && 0 <= SizeClassForSize(n) < CLASSES
    ensures ClassServed(h, Allocate(h, n).0, Allocate(h, n).1, SizeClassForSize(n))
  {
    hide Full, Limbo, CarveClass, TakeFree, ClassSize, SizeClassForSize, CarveLen, PerExtent, Next, Left, PageOk;
    FullParts(h);
    ClassHolds(n);
    var c := SizeClassForSize(n);
    TakesNext(h, c);
    CarveSplits(h.page, c);
    CarvePagesOk(h.page, c);
    if Next(h.free[c]).None? {
      NothingLeft(h, c);
      CarveClassStep(h, c);
      CarveClassBump(h, c);
    }
  }

  lemma NothingLeft(h: Heap, k: nat)
    requires k < |h.free| && Next(h.free[k]).None?
    ensures h.free[k := Left(h.free[k])] == h.free
  {
    assert Left(h.free[k]) == h.free[k];
  }

  lemma CarveClassBump(h: Heap, c: nat)
    requires c < CLASSES && c < |h.free| && h.page > 0 && CarvePages(h.page, c) * h.page == CarveLen(h.page, c)
    ensures CarveClass(h, c).1.Some? ==> CarveClass(h, c).0.bump == h.bump + CarveLen(h.page, c)
  {
    hide Slots, ClassSize, CarvePages, CarveLen, PerExtent, Cut;
  }

  /** Block j of an extent of blocks of size bytes at start. */
  function BlockAt(start: nat, size: nat, j: nat): (p: nat) {
    start + Times(j, size)
  }

  /** Blocks 1, 2, ... of m blocks at start fill the magazine in this order, up to
      fourteen of them; the overflow list holds the others, the last one first. */
  ghost predicate InOrder(f: FreeList, start: nat, size: nat, m: nat) {
    && m >= 1 && |f.mag| == (if m - 1 <= MAG_SIZE then m - 1 else MAG_SIZE) && |f.mag| + |f.spill| == m - 1
    && (forall i :: 0 <= i < |f.mag| ==> f.mag[i] == BlockAt(start, size, i + 1))
    && (forall i :: 0 <= i < |f.spill| ==> f.spill[i] == BlockAt(start, size, m - 1 - i))
  }

  /** Blocks in an extent of class c. */
  function ExtentBlocks(page: nat, c: nat): (m: nat) {
    if 0 < ClassSize(c) < page then page / ClassSize(c) else 1
  }

  function ListOf(h: Heap, k: nat): (f: FreeList) {
    if k < |h.free| then h.free[k] else FreeList([], [])
  }

  /** The list of a class whose two tiers were empty, after carving. */
  lemma CarveOrder(h: Heap, n: nat)
    requires Full(h) && 1 <= n <= MAX_CLASS_SIZE
    requires |h.free| == LISTS && h.page > 0 && Allocate(h, n).1.Some?
    requires SizeClassForSize(n) >= 0 && Next(ListOf(h, SizeClassForSize(n))).None?
    ensures var c := SizeClassForSize(n);
            InOrder(ListOf(Allocate(h, n).0, c), h.bump, ClassSize(c), ExtentBlocks(h.page, c))
  {
    hide Full, Limbo, ClassSize, SizeClassForSize, CarveLen, PerExtent, PageOk, Next, Slots, TakeFree, Carve,
         InOrder, CarveClass;
    FullParts(h);
    ClassHolds(n);
    var c := SizeClassForSize(n);
    TakesNext(h, c);
    NothingLeft(h, c);
    NoTiers(h.free[c]);
    CarveSplits(h.page, c);
    CarveFree(h, c);
    RestInOrder(h.bump, ClassSize(c), PerExtent(h.page, c));
  }

  lemma RestInOrder(start: nat, size: nat, m: nat)
    requires m >= 1
    ensures |Slots(start, size, m)| == m
    ensures InOrder(FreeList([], []).PushAll(Slots(start, size, m)[1..]), start, size, m)
  {
    hide Slots, BlockAt;
    var slots := Slots(start, size, m);
    SlotIs(start, size, m, 0);
    PushAllEmpty(slots[1..]);
    forall i: nat | 1 <= i < m ensures slots[i] == BlockAt(start, size, i) {
      SlotIs(start, size, m, i);
    }
  }

  lemma SlotIs(start: nat, size: nat, m: nat, i: nat)
    requires i < m
    ensures Slots(start, size, m)[i] == BlockAt(start, size, i)
  {
    hide Slots;
    SlotAt(start, size, m, i);
  }

  lemma NoTiers(f: FreeList)
    requires Next(f).None?
    ensures f == FreeList([], [])
  {
    assert f.mag == [] && f.spill == [];
  }

  lemma CarveFree(h: Heap, c: nat)
    requires c < CLASSES && c < |h.free| && h.page > 0 && CarveClass(h, c).1.Some?
    ensures |CarveClass(h, c).0.free| == |h.free|
    ensures var slots := Slots(h.bump, ClassSize(c), PerExtent(h.page, c));
            CarveClass(h, c).0.free[c] == h.free[c].PushAll(if slots == [] then [] else slots[1..])
  {
    hide Slots, ClassSize, PerExtent, CarveLen, CarvePages, Cut;
  }

  lemma {:induction false} PushAllEmpty(ps: seq<nat>)
    ensures var f, k := FreeList([], []).PushAll(ps), if |ps| <= MAG_SIZE then |ps| else MAG_SIZE;
            && f.mag == ps[..k] && |f.spill| == |ps| - k
            && forall i :: 0 <= i < |f.spill| ==> f.spill[i] == ps[|ps| - 1 - i]
    decreases |ps|
  {
    if ps != [] {
      var init := ps[..|ps| - 1];
      PushAllEmpty(init);
      assert ps == init + [ps[|ps| - 1]];
    }
  }

  // ----- large requests -----------------------------------------------------------------------

  /** Bytes of the region a large block for n bytes takes. */
  function LargeBytes(page: nat, n: nat): (t: nat)
    requires page > 0
  {
    RoundUp(META_SIZE + n, page)
  }

  /** A request past 4 MiB gets the block the large list gives next, exactly when that
      block is long enough. Otherwise the block goes back to the list and the request gets
      a new extent, exactly when it fits in the region. */
  lemma LargeAnswer(h: Heap, n: nat)
    requires Full(h) && n > MAX_CLASS_SIZE
    ensures |h.free| == LISTS && h.page > 0
    ensures LargeBytes(h.page, n) >= WORD ==> Allocate(h, n) == (h, None)
    ensures var t, f := LargeBytes(h.page, n), h.free[LARGE];
            var (g, q) := Allocate(h, n);
            t < WORD ==>
              if Next(f).Some? && Next(f).value in h.blocks && h.blocks[Next(f).value].len >= t then
                && q == Next(f) && g.free == h.free[LARGE := Left(f)]
                && g.bump == h.bump && g.extents == h.extents && g.live == h.live[q.value := n]
              else
                && (q.Some? <==> h.bump + t <= h.total)
                && g.free == h.free[LARGE := if Next(f).Some? then Left(f).Push(Next(f).value) else f]
                && (q.Some? ==>
                      && q.value == h.bump + META_SIZE && g.bump == h.bump + t
                      && g.extents == h.extents + [Extent(h.carved, t / h.page, LARGE)]
                      && g.live == h.live[q.value := n])
                && (q.None? ==> g.bump == h.bump && g.extents == h.extents && g.live == h.live)
  {
    hide Full, Limbo, TakeFree, RoundUp, Next, Left, Cut, PageOk;
    FullParts(h);
    LargeClass(n);
    var t, f := LargeBytes(h.page, n), h.free[LARGE];
    LargeTotalExact(h.page, n);
    if t < WORD {
      TakesNext(h, LARGE);
      NextIsCarved(h, LARGE);
      TotalPages(t, h.page);
      if Next(f).None? {
        assert h.free[LARGE := f] == h.free;
      }
    }
  }

  lemma LargeClass(n: nat)
    requires n > MAX_CLASS_SIZE
    ensures SizeClassForSize(n) == -1
  {
  }

  lemma LargeTotalExact(page: nat, n: nat)
    requires page > 0
    ensures LargeTotal(page, n) == if LargeBytes(page, n) < WORD then Some(LargeBytes(page, n)) else None
    ensures LargeBytes(page, n) % page == 0
  {
    hide RoundUp;
  }

  lemma TotalPages(t: nat, page: nat)
    requires page > 0 && t % page == 0
    ensures Pages(t, page) == t / page && Pages(t, page) * page == t
  {
    DivTimes(t, page);
  }

  lemma NextIsCarved(h: Heap, k: nat)
    requires Full(h) && k < LISTS && |h.free| == LISTS
    ensures Next(h.free[k]).Some? ==> Next(h.free[k]).value in h.blocks
  {
    hide Full, Limbo;
    FullIsEmptyLimbo(h, k);
    if Next(h.free[k]).Some? {
      NextInBag(h.free[k]);
      FreeIsUnheld(h, k, multiset{}, k, Next(h.free[k]).value);
    }
  }

  lemma NextInBag(f: FreeList)
    requires Next(f).Some?
    ensures Next(f).value in f.Bag()
  {
    if |f.mag| > 0 {
      assert f.mag[|f.mag| - 1] in multiset(f.mag);
    } else {
      assert f.spill[0] in multiset(f.spill);
    }
  }

  /** Freeing a large block and asking at once for no more than it holds gives the same
      block back exactly when the magazine had room for it, and then nothing is carved. */
  lemma FreeThenAllocateLarge(h: Heap, p: nat, n: nat)
    requires Full(h) && p in h.live && p in h.blocks && h.blocks[p].k == LARGE && n > MAX_CLASS_SIZE
    ensures |h.free| == LISTS && h.page > 0
    ensures LargeBytes(h.page, n) <= h.blocks[p].len < WORD ==>
              var (g, q) := Allocate(Free(h, p), n);
              && (q == Some(p) <==> |h.free[LARGE].mag| < MAG_SIZE)
              && (q == Some(p) ==> g.bump == h.bump && g.free == h.free)
  {
    hide Full, Free, LargeBytes, Allocate, Next, Left, Limbo;
    FullParts(h);
    FreeKeeps(h, p);
    HoldersOf(h, p);
    var g1 := Free(h, p);
    LargeAnswer(g1, n);
    FreedNext(h.free[LARGE], p);
    if LargeBytes(h.page, n) <= h.blocks[p].len < WORD {
      assert g1.blocks == h.blocks && g1.page == h.page;
      FreeKeepsBump(h, p);
      if |h.free[LARGE].mag| < MAG_SIZE {
        assert h.free[LARGE := h.free[LARGE].Push(p)][LARGE := h.free[LARGE]] == h.free;
      } else {
        BumpPast(g1, p);
      }
    }
  }

  lemma FreeKeepsBump(h: Heap, p: nat)
    requires Full(h) && p in h.live
    ensures |h.free| == LISTS && Free(h, p).bump == h.bump && Free(h, p).page == h.page
  {
    hide Limbo;
  }

  /** A carved block lies below the bump. */
  lemma BumpPast(h: Heap, p: nat)
    requires Full(h) && p in h.blocks
    ensures p < h.bump
  {
    hide Full;
    BlockBelow(h, p);
  }

  lemma BlockBelow(h: Heap, p: nat)
    requires Full(h) && p in h.blocks
    ensures p < h.bump
  {
    assert Within(h.blocks, p, 0, h.bump);
    BlockNotEmpty(h.blocks, p, 0, h.bump);
  }

  lemma FreedNext(f: FreeList, p: nat)
    requires p !in f.mag
    ensures Next(f.Push(p)).Some?
    ensures Next(f.Push(p)) == Some(p) <==> |f.mag| < MAG_SIZE
    ensures |f.mag| < MAG_SIZE ==> Left(f.Push(p)) == f
  {
    if |f.mag| < MAG_SIZE {
      assert (f.mag + [p])[..|f.mag|] == f.mag;
    }
  }

  // ----- reallocation ---------------------------------------------------------------------------

  /** A class block stays exactly when the new size has its class; a large block stays, with
      the new size, exactly when its length covers it. Everything else allocates, and frees
      the old block if that succeeds. */
  ghost predicate ReallocServed(h: Heap, p: nat, n: nat, g: Heap, q: Option<nat>)
    requires |h.free| == LISTS && h.page > 0 && p in h.blocks
  {
    var k, len, (h1, r) := h.blocks[p].k, h.blocks[p].len, Allocate(h, n);
    if k < CLASSES && n <= MAX_CLASS_SIZE && SizeClassForSize(n) == k then g == h && q == Some(p)
    else if k == LARGE && n > MAX_CLASS_SIZE && LargeBytes(h.page, n) >= WORD then g == h && q == None
    else if k == LARGE && n > MAX_CLASS_SIZE && LargeBytes(h.page, n) <= len then
      && q == Some(p) && g.live == h.live[p := n]
      && g.free == h.free && g.bump == h.bump && g.extents == h.extents
    else
      && q == r && |h1.free| == LISTS
      && g == (if r.Some? then Free(h1, p) else h1) && (r.Some? ==> r.value != p)
  }

  lemma ReallocateAnswer(h: Heap, p: nat, n: nat)
    requires Full(h) && p in h.live && n > 0
    ensures |h.free| == LISTS && h.page > 0 && p in h.blocks
    ensures ReallocServed(h, p, n, Reallocate(h, Some(p), n).0, Reallocate(h, Some(p), n).1)
  {
    hide Full, Allocate, Free, LargeTotal, LargeBytes, SizeClassForSize, CountResize, Grows;
    FullParts(h);
    LiveBlock(h, p);
    LargeTotalExact(h.page, n);
    ClassChoice(n);
    AllocateKeeps(h, n);
    FullParts(Allocate(h, n).0);
  }

  lemma LiveBlock(h: Heap, p: nat)
    requires Full(h) && p in h.live
    ensures p in h.blocks && h.blocks[p].k < LISTS
  {
    hide Geometry, Tiled, Carved, Held, PageOk;
    assert LiveFits(h, p);
    BlockLen(h, p);
  }
}
