/** Facts about values that the methods of the pool rely on. */
module PoolPlans {
  import opened Words
  import opened SizeClasses
  import opened FreeLists
  import opened Extents
  import opened Heaps
  import opened HeapSteps
  import opened HeapOps
  import opened HeapRuns
  import opened PoolMemory

  // ----- free lists -------------------------------------------------------------

  /** The free-list struct and the memory after pushing the block at ptr. */
  ghost function PushResult(c: Magazine, ptr: nat, base: nat, m: seq<byte>): (r: (Magazine, seq<byte>)) {
    if c.count < MAG_SIZE then
      (if c.count < |c.mag| then PushMag(c, ptr) else c, m)
    else
      (c.(head := ptr), if HasWord(m, ptr - base) then PutWord(m, ptr - base, c.head) else m)
  }

  lemma PushResultRep(h: Heap, base: nat, m: seq<byte>, pools: seq<Magazine>, k: nat, limbo: multiset<nat>, p: nat)
    requires Rep(h, base, m, pools) && Limbo(h, k, limbo) && p in limbo && k < LISTS
    ensures base <= Addr(base, k, p) && HasWord(m, Addr(base, k, p) - base) && pools[k].head < WORD
    ensures |pools[k].mag| == MAG_SIZE && pools[k].count == |h.free[k].mag|
    ensures var r := PushResult(pools[k], Addr(base, k, p), base, m);
            && SameExcept(h, m, r.1, p)
            && Rep(PutFree(h, k, p), base, r.1, pools[k := r.0])
  {
    LimboPlace(h, k, limbo, p);
    assert ListOk(h, base, m, pools, k);
    HeadIsWord(h, base, m, pools, k, limbo);
    assert Addr(base, k, p) - base == p - Meta(k);
    SameExceptRefl(h, m, p);
    if pools[k].count < MAG_SIZE {
      PushMagRep(h, base, m, pools, k, p);
    } else {
      hide Rep, ListOk, Limbo, SameExcept, PutWord;
      SpillWriteRep(h, base, m, pools, k, limbo, p);
    }
  }

  /** What FreeListPush relies on, about values. */
  lemma PushPlan(h: Heap, base: nat, m: seq<byte>, pools: seq<Magazine>, k: nat, limbo: multiset<nat>, p: nat)
    requires Rep(h, base, m, pools) && Limbo(h, k, limbo + multiset{p}) && k < LISTS
    ensures |h.free| == LISTS && PutFree(h, k, p) == h.(free := PutFree(h, k, p).free)
    ensures Limbo(PutFree(h, k, p), k, limbo)
    ensures base <= Addr(base, k, p) && HasWord(m, Addr(base, k, p) - base) && pools[k].head < WORD
    ensures |pools[k].mag| == MAG_SIZE && pools[k].count == |h.free[k].mag|
    ensures var r := PushResult(pools[k], Addr(base, k, p), base, m);
            && SameExcept(h, m, r.1, p)
            && Rep(PutFree(h, k, p), base, r.1, pools[k := r.0])
            && Contents(PutFree(h, k, p), r.1) == Contents(h, m)
  {
    PutFreeStep(h, k, limbo, p);
    PushResultRep(h, base, m, pools, k, limbo + multiset{p}, p);
    hide Rep, SameExcept, PushResult, Limbo, Contents;
    PushKeepsContents(h, k, limbo + multiset{p}, p, m, PushResult(pools[k], Addr(base, k, p), base, m).1);
  }

  /** What FreeListPop relies on, about values. */
  lemma PopPlan(h: Heap, base: nat, m: seq<byte>, pools: seq<Magazine>, k: nat, limbo: multiset<nat>)
    requires Rep(h, base, m, pools) && Limbo(h, k, limbo) && k < LISTS
    ensures |h.free| == LISTS && |pools[k].mag| == MAG_SIZE && pools[k].count <= MAG_SIZE
    ensures pools[k].count == 0 && pools[k].head != 0 ==>
              base <= pools[k].head && HasWord(m, pools[k].head - base)
    ensures Rep(TakeFree(h, k).0, base, m, pools[k := PopMag(pools[k], base, m).0])
    ensures TakeFree(h, k).0 == h.(free := TakeFree(h, k).0.free)
    ensures var (g, p) := TakeFree(h, k);
            if p.Some? then
              && PopMag(pools[k], base, m).1 == Addr(base, k, p.value) > 0
              && Limbo(g, k, limbo + multiset{p.value})
            else PopMag(pools[k], base, m).1 == 0 && g == h
  {
    hide Limbo;
    assert ListOk(h, base, m, pools, k);
    PopRep(h, base, m, pools, k);
    PopList(h, base, m, pools, k);
    TakeFreeStep(h, k, limbo);
    var (g, p) := TakeFree(h, k);
    hide Rep, ListOk, PopMag;
    if p.Some? {
      LimboPlace(g, k, limbo + multiset{p.value}, p.value);
    }
  }

  lemma SameExceptRefl(h: Heap, m: seq<byte>, p: int)
    requires Shape(h) && |m| == h.total
    ensures SameExcept(h, m, m, p)
  {
    hide BlockOk;
    forall q | q in h.blocks ensures SameBlock(h, m, m, q) {
      assert Within(h.blocks, q, 0, h.bump);
      BlockNotEmpty(h.blocks, q, 0, h.bump);
    }
  }

  /** A block in limbo lies inside the region. */
  lemma LimboPlace(h: Heap, k: nat, limbo: multiset<nat>, p: nat)
    requires Limbo(h, k, limbo) && k < LISTS && p in limbo
    ensures p in h.blocks && h.blocks[p].k == k && p !in h.live
    ensures Meta(k) <= p && p - Meta(k) + 16 <= h.total
    ensures Lo(h.blocks, p) + 16 <= Hi(h.blocks, p) <= h.bump <= h.total
  {
    LimboIsUnheld(h, k, limbo, p);
    assert Within(h.blocks, p, 0, h.bump);
  }

  /** Writing the link of p and making p the head of the overflow list. */
  lemma SpillWriteRep(h: Heap, base: nat, m: seq<byte>, pools: seq<Magazine>, k: nat, limbo: multiset<nat>, p: nat)
    requires Rep(h, base, m, pools) && Limbo(h, k, limbo) && k < LISTS && p in limbo
    requires pools[k].count >= MAG_SIZE
    requires p >= Meta(k) && p - Meta(k) + 16 <= |m|
    ensures pools[k].head < WORD
    ensures var n := PutWord(m, p - Meta(k), pools[k].head);
            && SameExcept(h, m, n, p)
            && Rep(PutFree(h, k, p), base, n, pools[k := pools[k].(head := Addr(base, k, p))])
  {
    var o, v := p - Meta(k), pools[k].head;
    LimboPlace(h, k, limbo, p);
    LimboAvoided(h, k, limbo, p);
    HeadIsWord(h, base, m, pools, k, limbo);
    LimboGeometry(h, k, limbo);
    hide Limbo;
    WriteInBlock(h, m, p, o, v);
    GetPutSame(m, o, v);
    var n := PutWord(m, o, v);
    if k == LARGE {
      assert MetaOk(h, m, p);
      GetPutOther(m, o, v, p - 8);
    }
    hide PutWord, Geometry;
    RepKept(h, base, m, n, pools, p);
    PushSpillRep(h, base, n, pools, k, p);
  }

  lemma LimboGeometry(h: Heap, k: nat, limbo: multiset<nat>)
    requires Limbo(h, k, limbo)
    ensures Geometry(h.blocks, 0, h.bump) && Geometry(h.blocks, 0, h.total)
    ensures h.bump <= h.total && h.live.Keys <= h.blocks.Keys
  {
    LiveIsCarved(h);
    forall p | p in h.blocks ensures Within(h.blocks, p, 0, h.total) {
      assert Within(h.blocks, p, 0, h.bump);
    }
  }

  lemma HeadIsWord(h: Heap, base: nat, m: seq<byte>, pools: seq<Magazine>, k: nat, limbo: multiset<nat>)
    requires Rep(h, base, m, pools) && Limbo(h, k, limbo) && k < LISTS
    ensures pools[k].head < WORD
  {
    assert ListOk(h, base, m, pools, k);
    if h.free[k].spill != [] {
      assert HasWord(m, h.free[k].spill[0] - Meta(k));
    }
  }

  // ----- page map -----------------------------------------------------------------

  lemma ShiftIsPage(p: nat, shift: nat, q: nat)
    requires q * Pow2(shift) <= p < (q + 1) * Pow2(shift)
    ensures ShiftRight(p, shift) == q
  {
    var r, d := ShiftRight(p, shift), Pow2(shift);
    ShiftRightDivides(p, shift);
    hide Pow2, ShiftRight;
    if r < q {
      MulMono(r + 1, q, d);
    }
    if q < r {
      MulMono(q + 1, r, d);
    }
  }

  /** The pages of a range of whole pages. */
  lemma ShiftPages(first: nat, pages: nat, shift: nat)
    requires pages > 0
    ensures first * Pow2(shift) + pages * Pow2(shift) >= 1
    ensures ShiftRight(first * Pow2(shift), shift) == first
    ensures ShiftRight(first * Pow2(shift) + pages * Pow2(shift) - 1, shift) == first + pages - 1
  {
    var d := Pow2(shift);
    Distributes(first, 1, d);
    Distributes(first, pages, d);
    Distributes(first + pages - 1, 1, d);
    MulMono(1, pages, d);
    hide Pow2, ShiftRight;
    ShiftIsPage(first * d, shift, first);
    ShiftIsPage(first * d + pages * d - 1, shift, first + pages - 1);
  }

  lemma PageInMap(p: nat, q: nat, page: nat, n: nat)
    requires q * page <= p < n * page
    ensures q < n
  {
    if n <= q {
      MulMono(n, q, page);
    }
  }

  /** The page map entry that free and reallocate look at. */
  lemma TagLookup(h: Heap, tags: seq<byte>, shift: nat, p: nat)
    requires Shape(h) && TagsOk(h, tags) && h.page == Pow2(shift) && p < h.total
    ensures ShiftRight(p, shift) < |tags|
    ensures p in h.blocks ==> tags[ShiftRight(p, shift)] == Tag(h.blocks[p].k)
    ensures p >= h.bump ==> tags[ShiftRight(p, shift)] == TAG_UNASSIGNED
  {
    var q := ShiftRight(p, shift);
    ShiftRightDivides(p, shift);
    hide Geometry, Carved, PageTag, LiveFits, ShiftRight, Pow2, PageOk;
    PageInMap(p, q, h.page, |tags|);
    if p in h.blocks {
      TagOfBlock(h.extents, h.page, h.carved, p, q);
    }
    if p >= h.bump {
      PageNotBefore(h.carved, q, h.page, p);
      PagesAssigned(h.extents, h.page, h.carved, q);
    }
  }

  ghost predicate Retagged(oldTags: seq<byte>, tags: seq<byte>, first: nat, last: nat, val: byte) {
    && |tags| == |oldTags|
    && forall q {:trigger tags[q]} :: 0 <= q < |tags| ==>
         tags[q] == if first <= q <= last then val else oldTags[q]
  }

  lemma CarveTags(h: Heap, oldTags: seq<byte>, tags: seq<byte>, k: nat, n: nat)
    requires TagsOk(h, oldTags) && n > 0
    requires Retagged(oldTags, tags, h.carved, h.carved + n - 1, Tag(k))
    ensures TagsOk(Carve(h, k, n), tags)
  {
    var g := Carve(h, k, n);
    assert g.extents[..|g.extents| - 1] == h.extents;
  }

  lemma TagsSame(h: Heap, g: Heap, tags: seq<byte>)
    requires TagsOk(h, tags) && g.extents == h.extents && g.page == h.page && g.total == h.total
    ensures TagsOk(g, tags)
  {
  }

  // ----- payloads -------------------------------------------------------------------

  lemma ContentsOfLive(h: Heap, g: Heap, m: seq<byte>)
    requires g.live == h.live
    ensures Contents(g, m) == Contents(h, m)
  {
  }

  lemma ContentsInsert(h: Heap, g: Heap, m: seq<byte>, p: nat)
    requires p in g.live && g.live == h.live[p := g.live[p]]
    ensures Contents(g, m) == Contents(h, m)[p := Bytes(m, p, g.live[p])]
  {
  }

  lemma ContentsRemove(h: Heap, g: Heap, m: seq<byte>, p: nat)
    requires g.live == h.live - {p}
    ensures Contents(g, m) == Contents(h, m) - {p}
  {
  }

  lemma LimboShape(h: Heap, k: nat, limbo: multiset<nat>)
    requires Limbo(h, k, limbo)
    ensures Shape(h) && |h.free| == LISTS && h.page > 0
    ensures h.carved * h.page == h.bump <= h.total
  {
    hide Held, BlocksOf, Geometry, Tiled, Carved, LiveFits;
  }

  /** Pushing p keeps what callers have stored. */
  lemma PushKeepsContents(h: Heap, k: nat, limbo: multiset<nat>, p: nat, m: seq<byte>, n: seq<byte>)
    requires Limbo(h, k, limbo) && k < LISTS && p in limbo && SameExcept(h, m, n, p)
    ensures Contents(PutFree(h, k, p), n) == Contents(h, m) && |h.free| == LISTS
  {
    LimboShape(h, k, limbo);
    LimboPlace(h, k, limbo, p);
    hide Limbo, Shape, SameExcept;
    ContentsKept(h, m, n, p);
  }

  // ----- carving ------------------------------------------------------------------

  /** The heap after carving whole pages for class c, with its blocks in limbo. */
  lemma CarveClassPlan(h: Heap, base: nat, m: seq<byte>, pools: seq<Magazine>, c: nat)
    requires Full(h) && Rep(h, base, m, pools) && c < CLASSES
    requires h.bump + CarveLen(h.page, c) <= h.total
    ensures var g := Carve(h, c, CarvePages(h.page, c));
            && Limbo(g, c, multiset{h.bump} + multiset(CarvedRest(h, c)))
            && Rep(g, base, m, pools)
            && g.bump == h.bump + CarveLen(h.page, c)
  {
    var len, n, k := CarveLen(h.page, c), CarvePages(h.page, c), PerExtent(h.page, c);
    CarvePagesOk(h.page, c);
    assert k >= 1 by { CarveSplits(h.page, c); }
    FullIsEmptyLimbo(h, c);
    hide CarveLen, CarvePages, PerExtent, ClassSize, Cut, Full, CutOk, PageOk, Rep;
    var slots := Slots(h.bump, ClassSize(c), k);
    CarveStep(h, c, multiset{}, n);
    SlotsAreBlocks(c, h.bump, len, h.page);
    SlotAt(h.bump, ClassSize(c), k, 0);
    assert slots == [h.bump] + slots[1..];
    assert multiset{} + multiset(Cut(c, h.bump, len).Keys) == multiset{h.bump} + multiset(slots[1..]);
    LimboGeometry(h, c, multiset{});
    hide Limbo;
    CarveRep(h, base, m, pools, c, n);
  }

  /** The steps of BumpAllocateClass add up to CarveClass. */
  lemma CarveClassIs(h: Heap, c: nat)
    requires Full(h) && c < CLASSES && h.bump + CarveLen(h.page, c) <= h.total
    ensures |h.free| == LISTS && PerExtent(h.page, c) >= 1
    ensures CarvedRest(h, c) == Slots(h.bump, ClassSize(c), PerExtent(h.page, c))[1..]
    ensures CarveClass(h, c) ==
            (PutFreeAll(Carve(h, c, CarvePages(h.page, c)), c, CarvedRest(h, c)), Some(h.bump))
    ensures CarvePages(h.page, c) > 0 && CarvePages(h.page, c) * h.page == CarveLen(h.page, c)
  {
    hide CarveLen, CarvePages, PerExtent, ClassSize, Cut, Carve, Slots;
    CarvePagesOk(h.page, c);
    CarveSplits(h.page, c);
  }

  lemma CarveSameFields(h: Heap, k: nat, n: nat, m: seq<byte>)
    ensures Carve(h, k, n) ==
            h.(bump := Carve(h, k, n).bump, carved := Carve(h, k, n).carved,
               extents := Carve(h, k, n).extents, blocks := Carve(h, k, n).blocks)
    ensures Carve(h, k, n).bump == h.bump + n * h.page
    ensures Contents(Carve(h, k, n), m) == Contents(h, m)
  {
    hide Cut;
  }

  /** The blocks of a fresh extent of class c that go to the free list. */
  ghost function CarvedRest(h: Heap, c: nat): (ps: seq<nat>) {
    var slots := Slots(h.bump, ClassSize(c), PerExtent(h.page, c));
    if slots == [] then [] else slots[1..]
  }

  lemma CarveClassFails(h: Heap, c: nat)
    requires Full(h) && c < CLASSES && h.bump + CarveLen(h.page, c) > h.total
    ensures |h.free| == LISTS && CarveClass(h, c) == (h, None)
  {
  }

  /** The method's rounding of the block size is CarveLen, and does not overflow. */
  lemma CarveLenComputed(page: nat, c: nat)
    requires PageOk(page) && c < CLASSES && page < WORD
    ensures page > 0
    ensures ClassSize(c) >= page ==> AlignUp(ClassSize(c), page) == Some(CarveLen(page, c))
    ensures ClassSize(c) < page ==> CarveLen(page, c) == page
    ensures CarveLen(page, c) / ClassSize(c) == PerExtent(page, c)
    ensures 0 < CarveLen(page, c) < WORD
  {
    CarveSplits(page, c);
    ClassSizeBound(c);
  }

  lemma ClassSizeBound(c: nat)
    ensures ClassSize(c) <= MAX_CLASS_SIZE
  {
  }

  lemma PushAllSnoc(h: Heap, c: nat, ps: seq<nat>, i: nat)
    requires c < |h.free| && i < |ps|
    ensures PutFreeAll(h, c, ps[..i + 1]) == PutFree(PutFreeAll(h, c, ps[..i]), c, ps[i])
    ensures multiset(ps[i..]) == multiset{ps[i]} + multiset(ps[i + 1..])
  {
    assert ps[..i + 1][..i] == ps[..i];
    assert ps[i..] == [ps[i]] + ps[i + 1..];
  }

  /** First and last page of the next n pages, as the shifts compute them. */
  lemma TagPages(h: Heap, tags: seq<byte>, shift: nat, n: nat)
    requires TagsOk(h, tags) && h.page == Pow2(shift) && n > 0 && h.bump == h.carved * h.page
    requires h.bump + n * h.page <= h.total
    ensures n * h.page > 0
    ensures ShiftRight(h.bump, shift) == h.carved
    ensures ShiftRight(h.bump + n * h.page - 1, shift) == h.carved + n - 1 < |tags|
  {
    ShiftPages(h.carved, n, shift);
    MulMono(1, n, h.page);
    hide ShiftRight, Pow2, PageTag;
    LastPageInMap(h.carved, n, h.page, h.total, |tags|);
  }

  lemma LastPageInMap(first: nat, n: nat, page: nat, total: nat, entries: nat)
    requires n > 0 && page > 0 && first * page + n * page <= total <= entries * page
    ensures first + n - 1 < entries
  {
    Distributes(first, n, page);
    Distributes(first + n - 1, 1, page);
    PageInMap((first + n - 1) * page, first + n - 1, page, entries);
  }

  lemma ShapeConfig(h: Heap)
    requires Full(h)
    ensures Shape(h) && PageOk(h.page) && h.page > 0
    ensures h.bump == h.carved * h.page <= h.total && |h.free| == LISTS
  {
  }

  // ----- large blocks ---------------------------------------------------------------

  /** Writing the user size of a large block in limbo. */
  lemma WriteUserSize(h: Heap, base: nat, m: seq<byte>, pools: seq<Magazine>, p: nat, v: nat)
    requires Rep(h, base, m, pools) && Limbo(h, LARGE, multiset{p}) && v < WORD
    ensures p >= META_SIZE && p <= |m|
    ensures var n := PutWord(m, p - META_SIZE, v);
            && Rep(h, base, n, pools) && WordAt(n, p - META_SIZE) == v
            && Contents(h, n) == Contents(h, m)
  {
    LimboPlace(h, LARGE, multiset{p}, p);
    LimboAvoided(h, LARGE, multiset{p}, p);
    LimboGeometry(h, LARGE, multiset{p});
    LimboShape(h, LARGE, multiset{p});
    hide Limbo, Shape, SpillsAvoid;
    var o := p - META_SIZE;
    WriteInBlock(h, m, p, o, v);
    GetPutSame(m, o, v);
    assert MetaOk(h, m, p);
    GetPutOther(m, o, v, p - 8);
    var n := PutWord(m, o, v);
    hide PutWord, Geometry;
    RepKept(h, base, m, n, pools, p);
    ContentsKept(h, m, n, p);
  }

  /** The length recorded in front of a large block. */
  lemma TotalSizeRead(h: Heap, base: nat, m: seq<byte>, pools: seq<Magazine>, p: nat)
    requires Rep(h, base, m, pools) && p in h.blocks && h.blocks[p].k == LARGE
    ensures p >= META_SIZE && p <= |m| && GetWord(m, p - 8) == LenOf(h, p)
    ensures p in h.live ==> GetWord(m, p - META_SIZE) == UsableOf(h, p)
  {
    assert MetaOk(h, m, p);
  }

  /** What RecycleLarge relies on. */
  lemma RecyclePlan(h: Heap, total: nat)
    requires Full(h)
    ensures |h.free| == LISTS && Limbo(h, LARGE, multiset{})
    ensures TakeFree(h, LARGE).0 == h.(free := TakeFree(h, LARGE).0.free)
    ensures TakeFree(h, LARGE).1.Some? ==>
              var (g, q) := TakeFree(h, LARGE);
              && q.value >= META_SIZE
              && multiset{} + multiset{q.value} == multiset{q.value}
              && Full(PutFree(g, LARGE, q.value)) && SameButTiers(h, PutFree(g, LARGE, q.value))
    ensures TakeFree(h, LARGE).1.None? ==> TakeFree(h, LARGE).0 == h
  {
    hide Full, Limbo, SameButTiers;
    ShapeConfig(h);
    FullIsEmptyLimbo(h, LARGE);
    TakeFreeSome(h, LARGE);
    var (g, q) := TakeFree(h, LARGE);
    if q.Some? {
      PutBack(h, LARGE);
      LimboPlace(g, LARGE, multiset{q.value}, q.value);
    }
  }

  /** Writing the metadata of a large block about to be carved, then carving it. */
  lemma WriteNewMeta(h: Heap, base: nat, m: seq<byte>, pools: seq<Magazine>, n: nat, user: nat)
    requires Full(h) && Rep(h, base, m, pools)
    requires n * h.page > META_SIZE && h.bump + n * h.page <= h.total && user < WORD
    ensures h.bump + 16 <= |m| && n * h.page < WORD
    ensures var m2 := PutWord(PutWord(m, h.bump + 8, n * h.page), h.bump, user);
            && Rep(Carve(h, LARGE, n), base, m2, pools)
            && WordAt(m2, h.bump) == user
            && Contents(Carve(h, LARGE, n), m2) == Contents(h, m)
  {
    var o, total := h.bump, n * h.page;
    FullIsEmptyLimbo(h, LARGE);
    LimboAvoided(h, LARGE, multiset{}, -1);
    LimboGeometry(h, LARGE, multiset{});
    CarveLargeFresh(h, n);
    var m1 := PutWord(m, o + 8, total);
    var m2 := PutWord(m1, o, user);
    WritePastBump(h, m, o + 8, total);
    WritePastBump(h, m1, o, user);
    GetPutSame(m, o + 8, total);
    GetPutOther(m1, o, user, o + 8);
    GetPutSame(m1, o, user);
    assert Shape(h);
    hide PutWord, Full, Limbo, SpillsAvoid, Geometry, Shape, Cut, SameExcept, Rep;
    SameExceptTransitive(h, m, m1, m2, -1);
    RepKept(h, base, m, m2, pools, -1);
    ContentsKept(h, m, m2, -1);
    CarveRep(h, base, m2, pools, LARGE, n);
    CarveSameFields(h, LARGE, n, m2);
  }

  lemma CarveLargeFresh(h: Heap, n: nat)
    requires Full(h) && n * h.page > META_SIZE && h.bump + n * h.page <= h.total
    ensures h.blocks.Keys !! Cut(LARGE, h.bump, n * h.page).Keys
    ensures n > 0
  {
    FullIsEmptyLimbo(h, LARGE);
    if n > 0 {
      CarveStep(h, LARGE, multiset{}, n);
    }
  }

  /** The steps of carving a large block add up to CarveLarge. */
  lemma CarveLargePlan(h: Heap, total: nat)
    requires Full(h) && total % h.page == 0 && total > META_SIZE
    ensures |h.free| == LISTS && h.page > 0
    ensures Pages(total, h.page) > 0 && Pages(total, h.page) * h.page == total
    ensures h.bump + total > h.total ==> CarveLarge(h, total) == (h, None)
    ensures h.bump + total <= h.total ==>
              && CarveLarge(h, total) == (Carve(h, LARGE, Pages(total, h.page)), Some(h.bump + META_SIZE))
              && Limbo(Carve(h, LARGE, Pages(total, h.page)), LARGE, multiset{h.bump + META_SIZE})
  {
    hide Full, Limbo, Carve;
    ShapeConfig(h);
    CarveLargeStep(h, total);
    DivTimes(total, h.page);
  }

  /** Handing out a block whose metadata are in place. */
  lemma HandRep(h: Heap, base: nat, m: seq<byte>, pools: seq<Magazine>, k: nat, p: nat, usable: nat)
    requires Rep(h, base, m, pools) && Limbo(h, k, multiset{p}) && k < LISTS
    requires usable > 0 && Meta(k) + usable <= LenOf(h, p)
    requires k < CLASSES ==> usable == LenOf(h, p)
    requires k == LARGE ==> WordAt(m, p - META_SIZE) == usable
    ensures Rep(Hand(h, p, usable), base, m, pools) && Full(Hand(h, p, usable))
    ensures Hand(h, p, usable) ==
            h.(live := Hand(h, p, usable).live, stats := CountAlloc(h.stats, usable))
    ensures p !in h.live && Contents(Hand(h, p, usable), m) == Contents(h, m)[p := Bytes(m, p, usable)]
  {
    HandFull(h, k, p, usable);
    LimboShape(h, k, multiset{p});
    LimboIsUnheld(h, k, multiset{p}, p);
    hide Full, Rep, Limbo, Shape;
    LiveRep(h, Hand(h, p, usable), base, m, pools);
    ContentsInsert(h, Hand(h, p, usable), m, p);
  }

  // ----- whole operations -------------------------------------------------------------

  lemma TakeClassPlan(h: Heap, c: nat)
    requires Full(h) && c < CLASSES
    ensures |h.free| == LISTS && h.page > 0 && Limbo(h, c, multiset{})
    ensures var (g, p) := TakeFree(h, c);
            if p.Some? then
              && LenOf(g, p.value) == ClassSize(c) && multiset{} + multiset{p.value} == multiset{p.value}
              && g == h.(free := g.free)
              && AllocClass(h, c) == (Hand(g, p.value, ClassSize(c)), p)
            else
              && g == h
              && AllocClass(h, c) == (match CarveClass(h, c).1
                                      case None => CarveClass(h, c)
                                      case Some(q) => (Hand(CarveClass(h, c).0, q, ClassSize(c)), Some(q)))
    ensures CarveClass(h, c).1.None? ==> CarveClass(h, c).0 == h
    ensures CarveClass(h, c).1.Some? ==> LenOf(CarveClass(h, c).0, CarveClass(h, c).1.value) == ClassSize(c)
  {
    hide Full, Limbo, ClassSize, CarveClass, Grows;
    ShapeConfig(h);
    TakeFreeSome(h, c);
    CarveClassStep(h, c);
    FullIsEmptyLimbo(h, c);
    var (g, p) := TakeFree(h, c);
    if p.Some? {
      BlockLen(h, p.value);
    }
  }

  lemma PickLargePlan(h: Heap, total: nat)
    requires Full(h) && total % h.page == 0 && total > META_SIZE
    ensures |h.free| == LISTS && h.page > 0
    ensures PickLarge(h, total).1.Some? ==>
              LenOf(PickLarge(h, total).0, PickLarge(h, total).1.value) >= total
    ensures PickLarge(h, total).1.None? ==> Full(PickLarge(h, total).0)
    ensures PickLarge(h, total) ==
            if Recycle(h, total).1.Some? then Recycle(h, total) else CarveLarge(Recycle(h, total).0, total)
    ensures Recycle(h, total).0 == h.(free := Recycle(h, total).0.free)
  {
    hide Full, Limbo, Grows, CarveLarge;
    ShapeConfig(h);
    PickLargeStep(h, total);
    RecyclePlan(h, total);
  }

  /** Dropping p from the live blocks before it is pushed. */
  lemma DropPlan(h: Heap, base: nat, m: seq<byte>, pools: seq<Magazine>, p: nat)
    requires Full(h) && Rep(h, base, m, pools) && p in h.live
    ensures p in h.blocks && h.blocks[p].k < LISTS && |h.free| == LISTS
    ensures Limbo(Drop(h, p), h.blocks[p].k, multiset{p})
    ensures Rep(Drop(h, p), base, m, pools)
    ensures Contents(Drop(h, p), m) == Contents(h, m) - {p}
    ensures Meta(h.blocks[p].k) <= p < h.bump <= h.total
    ensures multiset{p} == multiset{} + multiset{p}
    ensures h.blocks[p].k < CLASSES ==> h.live[p] == ClassSize(h.blocks[p].k)
  {
    DropStep(h, p);
    LimboPlace(Drop(h, p), h.blocks[p].k, multiset{p}, p);
    BlockLen(h, p);
    assert LiveFits(h, p);
    hide Full, Limbo, Rep;
    LiveRep(h, Drop(h, p), base, m, pools);
    ContentsRemove(h, Drop(h, p), m, p);
  }

  lemma StatsRep(h: Heap, base: nat, m: seq<byte>, pools: seq<Magazine>, stats: Stats)
    requires Full(h) && Rep(h, base, m, pools)
    ensures Full(h.(stats := stats)) && Rep(h.(stats := stats), base, m, pools)
    ensures Contents(h.(stats := stats), m) == Contents(h, m)
  {
    FullIsEmptyLimbo(h, 0);
    StatsStep(h, 0, multiset{}, stats);
    FullIsEmptyLimbo(h.(stats := stats), 0);
    hide Full, Limbo, Rep;
    LiveRep(h, h.(stats := stats), base, m, pools);
  }

  /** How the two paths of pool_allocate make up Allocate. */
  lemma AllocatePlan(h: Heap, n: nat)
    requires Full(h) && Exact(h)
    ensures |h.free| == LISTS && h.page > 0
    ensures Full(Allocate(h, n).0) && Exact(Allocate(h, n).0)
    ensures n == 0 ==> Allocate(h, n) == (h, None)
    ensures n > 0 ==> SizeClassForSize(n) == -1 || 0 <= SizeClassForSize(n) < CLASSES
    ensures n > 0 && SizeClassForSize(n) >= 0 ==>
              && Allocate(h, n) == AllocClass(h, SizeClassForSize(n))
              && (Fits(h, n) && TakeFree(h, SizeClassForSize(n)).1.None? ==>
                    h.bump + CarveLen(h.page, SizeClassForSize(n)) < WORD)
              && (Allocate(h, n).1.Some? ==>
                    UsableOf(Allocate(h, n).0, Allocate(h, n).1.value) == ClassSize(SizeClassForSize(n)))
    ensures n > 0 && SizeClassForSize(n) == -1 ==>
              && (Fits(h, n) && LargeTotal(h.page, n).Some? && Recycle(h, LargeTotal(h.page, n).value).1.None? ==>
                    h.bump + LargeTotal(h.page, n).value < WORD)
              && Allocate(h, n) ==
                 (match LargeTotal(h.page, n)
                  case None => (h, None)
                  case Some(total) =>
                    var (g, p) := PickLarge(h, total);
                    if p.None? then (g, None) else (Hand(g, p.value, n), p))
              && (Allocate(h, n).1.Some? ==> UsableOf(Allocate(h, n).0, Allocate(h, n).1.value) == n)
  {
    hide Full, Exact, PickLarge, AllocClass, Grows, CarveLen, SizeClassForSize, Recycle, TakeFree;
    ShapeConfig(h);
    AllocateKeeps(h, n);
    AllocateExact(h, n);
    if n > 0 {
      ClassChoice(n);
    }
  }

  /** What the page map and the metadata tell about a live block. */
  lemma LiveLookup(h: Heap, base: nat, m: seq<byte>, pools: seq<Magazine>, tags: seq<byte>, shift: nat, p: nat)
    requires Full(h) && Rep(h, base, m, pools) && TagsOk(h, tags) && h.page == Pow2(shift) && p in h.live
    ensures p < h.total && p in h.blocks && KindOf(h, p) == h.blocks[p].k < LISTS
    ensures Meta(KindOf(h, p)) <= p
    ensures ShiftRight(p, shift) < |tags| && tags[ShiftRight(p, shift)] == Tag(KindOf(h, p))
    ensures KindOf(h, p) < CLASSES ==> UsableOf(h, p) == ClassSize(KindOf(h, p)) == LenOf(h, p)
    ensures KindOf(h, p) == LARGE ==>
              && META_SIZE <= p <= |m| && GetWord(m, p - META_SIZE) == UsableOf(h, p)
              && GetWord(m, p - 8) == LenOf(h, p)
  {
    hide Full, Rep, TagsOk, ShiftRight, Pow2, GetWord, Shape, Drop;
    ShapeConfig(h);
    DropPlan(h, base, m, pools, p);
    BlockLen(h, p);
    TagLookup(h, tags, shift, p);
    if KindOf(h, p) == LARGE {
      TotalSizeRead(h, base, m, pools, p);
    }
  }

  /** Addresses past the bump are neither live nor tagged. */
  lemma IgnoredLookup(h: Heap, tags: seq<byte>, shift: nat, p: nat)
    requires Full(h) && TagsOk(h, tags) && h.page == Pow2(shift) && h.bump <= p < h.total
    ensures ShiftRight(p, shift) < |tags| && tags[ShiftRight(p, shift)] == TAG_UNASSIGNED
  {
    hide Full, TagsOk, ShiftRight, Pow2, Shape;
    ShapeConfig(h);
    TagLookup(h, tags, shift, p);
  }

  lemma LiveBelowBump(h: Heap, p: nat)
    requires Full(h) && p in h.live
    ensures p < h.bump <= h.total
  {
    hide Full;
    LivePayloads(h, p, p);
    LiveFitsAt(h, p);
  }

  lemma LiveFitsAt(h: Heap, p: nat)
    requires Full(h) && p in h.live
    ensures LiveFits(h, p)
  {
  }

  /** How the two paths of pool_free make up Free. */
  lemma FreeIs(h: Heap, p: int)
    requires Full(h) && Exact(h)
    ensures |h.free| == LISTS && Full(Free(h, p)) && Exact(Free(h, p))
    ensures p < 0 || p !in h.live ==> Free(h, p) == h
    ensures p >= 0 && p in h.live && KindOf(h, p) < LISTS ==>
              Free(h, p) ==
              PutFree(Drop(h, p), KindOf(h, p), p).(stats := CountFree(h.stats, UsableOf(h, p)))
  {
    hide Full, Exact;
    ShapeConfig(h);
    FreeKeeps(h, p);
    FreeExact(h, p);
  }

  // ----- payload writes ---------------------------------------------------------------

  lemma LiveSlice(h: Heap, m: seq<byte>, p: nat)
    requires Full(h) && |m| == h.total && p in h.live
    ensures p + h.live[p] <= h.bump <= |m|
    ensures Bytes(m, p, h.live[p]) == m[p..p + h.live[p]]
    ensures p in Contents(h, m) && Contents(h, m)[p] == m[p..p + h.live[p]]
    ensures p in h.live && |Contents(h, m)[p]| == h.live[p] == UsableOf(h, p)
  {
    hide Full;
    LivePayloads(h, p, p);
  }

  lemma SpliceSlice(m: seq<byte>, o: nat, s: seq<byte>, lo: nat, hi: nat)
    requires o + |s| <= |m| && lo <= o && o + |s| <= hi <= |m|
    ensures Splice(m, o, s)[lo..hi] == Splice(m[lo..hi], o - lo, s)
  {
  }

  lemma WordInSlice(m: seq<byte>, lo: nat, hi: nat, o: nat)
    requires lo <= o && o + 8 <= hi <= |m|
    ensures GetWord(m[lo..hi], o - lo) == GetWord(m, o)
  {
    var a, b := m[lo..hi][o - lo..o - lo + 8], m[o..o + 8];
    assert |a| == |b| == 8 && forall i :: 0 <= i < 8 ==> a[i] == b[i];
    assert a == b;
  }

  /** Bytes written inside the payload of a live block: the pool is as it was and
      no other block changes. */
  lemma PayloadWrite(h: Heap, base: nat, m: seq<byte>, pools: seq<Magazine>, p: nat, off: nat, s: seq<byte>)
    requires Full(h) && Rep(h, base, m, pools) && p in h.live && off + |s| <= h.live[p]
    ensures p + h.live[p] <= |m| && p in Contents(h, m) && |Contents(h, m)[p]| == h.live[p]
    ensures Rep(h, base, Splice(m, p + off, s), pools)
    ensures Contents(h, Splice(m, p + off, s)) == Contents(h, m)[p := Splice(Contents(h, m)[p], off, s)]
  {
    hide Full, Shape, Limbo, Splice, Contents, SameExcept, MetaOk, SpillsAvoid, LiveFits, Geometry;
    ShapeConfig(h);
    LiveSlice(h, m, p);
    var n := Splice(m, p + off, s);
    LiveSlice(h, n, p);
    LiveFitsAt(h, p);
    FullIsEmptyLimbo(h, LARGE);
    LimboGeometry(h, LARGE, multiset{});
    LimboAvoided(h, LARGE, multiset{}, p);
    SpliceInBlock(h, m, p, p + off, s);
    if p in h.blocks && h.blocks[p].k == LARGE {
      assert MetaOk(h, m, p);
      SpliceKeepsMeta(h, m, p, p + off, s);
    }
    RepKept(h, base, m, n, pools, p);
    ContentsExcept(h, m, n, p);
    SpliceSlice(m, p + off, s, p, p + h.live[p]);
  }

  // ----- resizing in place --------------------------------------------------------------

  /** b keeps the first n bytes of a, or all of them when a is shorter. */
  ghost predicate SamePrefix(a: seq<byte>, b: seq<byte>, n: nat) {
    var k := if |a| < n then |a| else n;
    k <= |b| && b[..k] == a[..k]
  }

  lemma ResizePlan(h: Heap, p: nat, n: nat, g: Heap)
    requires Full(h) && Exact(h) && p in h.live && p in h.blocks && h.blocks[p].k == LARGE
    requires n > MAX_CLASS_SIZE && InPlace(h, p, n) == Some(g)
    ensures n < WORD && META_SIZE + n <= LenOf(Drop(h, p), p)
    ensures g == Hand(Drop(h, p), p, n).(stats := CountResize(h.stats, h.live[p], n))
    ensures p in g.live && g.live[p] == n && Exact(g)
    ensures g.live == (h.live - {p})[p := n] && g.total == h.total && g == h.(live := g.live, stats := g.stats)
  {
    hide Full, Exact, RoundUp;
    ClassChoice(n);
    InPlaceExact(h, p, n);
    LargeTotalBounds(h.page, n);
    assert g.live == (h.live - {p})[p := n];
  }

  lemma ResizeContents(h: Heap, g: Heap, m: seq<byte>, p: nat, n: nat, v: nat)
    requires Full(h) && Full(g) && |m| == h.total == g.total && META_SIZE <= p && p in h.live
    requires g.live == (h.live - {p})[p := n]
    requires p <= |m|
    requires Contents(Drop(h, p), PutWord(m, p - META_SIZE, v)) == Contents(Drop(h, p), m)
    ensures p in Contents(h, m) && p in Contents(g, PutWord(m, p - META_SIZE, v))
    ensures var m2 := PutWord(m, p - META_SIZE, v);
            && Contents(g, m2) == Contents(h, m)[p := Contents(g, m2)[p]]
            && SamePrefix(Contents(h, m)[p], Contents(g, m2)[p], n)
  {
    hide Full, PutWord, Contents, Bytes;
    var m2 := PutWord(m, p - META_SIZE, v);
    ContentsRemove(h, Drop(h, p), m, p);
    ContentsInsert(Drop(h, p), g, m2, p);
    LiveSlice(h, m, p);
    LiveSlice(g, m2, p);
    var k := if h.live[p] < n then h.live[p] else n;
    PutWordFrame(m, p - META_SIZE, v, p, p + k);
    assert m2[p..p + n][..k] == m2[p..p + k];
    assert m[p..p + h.live[p]][..k] == m[p..p + k];
  }

  // ----- reallocation -------------------------------------------------------------------

  /** The contents d after c when block p has become block q of at least n bytes:
      q starts with the first n bytes of p, or with all of them, p is gone unless
      it is q, and every other block has the bytes it had. */
  ghost predicate Moved(c: map<nat, seq<byte>>, d: map<nat, seq<byte>>, p: int, q: int, n: nat) {
    && p >= 0 && q >= 0 && p in c && q in d
    && d == (c - {p})[q := d[q]]
    && (q == p || q !in c)
    && SamePrefix(c[p], d[q], n) && n <= |d[q]|
  }

  /** The paths of pool_reallocate on a live block. */
  lemma ReallocatePlan(h: Heap, p: nat, n: nat)
    requires Full(h) && Exact(h) && p in h.live && n > 0
    ensures |h.free| == LISTS && h.page > 0
    ensures InPlace(h, p, n).Some? ==> Reallocate(h, Some(p), n) == (InPlace(h, p, n).value, Some(p))
    ensures InPlace(h, p, n).None? && ResizeOverflows(h, p, n) ==> Reallocate(h, Some(p), n) == (h, None)
    ensures InPlace(h, p, n).None? && !ResizeOverflows(h, p, n) ==> Reallocate(h, Some(p), n) == Move(h, p, n)
    ensures SizeClassForSize(n) == -1 || 0 <= SizeClassForSize(n) < CLASSES
    ensures SizeClassForSize(n) == -1 <==> n > MAX_CLASS_SIZE
    ensures KindOf(h, p) < CLASSES && SizeClassForSize(n) == KindOf(h, p) ==>
              InPlace(h, p, n) == Some(h) && n <= UsableOf(h, p)
    ensures KindOf(h, p) < CLASSES && SizeClassForSize(n) != KindOf(h, p) ==>
              InPlace(h, p, n).None? && !ResizeOverflows(h, p, n)
    ensures KindOf(h, p) == LARGE && SizeClassForSize(n) != -1 ==>
              InPlace(h, p, n).None? && !ResizeOverflows(h, p, n)
    ensures KindOf(h, p) == LARGE && SizeClassForSize(n) == -1 ==>
              && (ResizeOverflows(h, p, n) <==> LargeTotal(h.page, n).None?)
              && (LargeTotal(h.page, n).None? ==> InPlace(h, p, n).None?)
              && (LargeTotal(h.page, n).Some? ==>
                    (InPlace(h, p, n).Some? <==> LargeTotal(h.page, n).value <= LenOf(h, p)))
  {
    hide Full, Exact, Move, SizeClassForSize, LargeTotal;
    ShapeConfig(h);
    ClassChoice(n);
    LiveFitsAt(h, p);
    BlockLen(h, p);
  }

  /** The heap of a move, and the contents when q got a copy of p and p is gone. */
  lemma MovePlan(h: Heap, p: nat, n: nat, c0: map<nat, seq<byte>>, c1: map<nat, seq<byte>>,
                 k: nat, freshBytes: seq<byte>)
    requires Full(h) && p in h.live && p in c0 && |h.free| == LISTS && h.page > 0
    requires Allocate(h, n).1.Some?
    requires var q := Allocate(h, n).1.value;
             && c1 == c0[q := freshBytes]
             && k <= |freshBytes| && k == (if |c0[p]| < n then |c0[p]| else n)
    ensures var (g, q) := Allocate(h, n);
            && q.value != p && p in g.live && q.value in g.live && n <= g.live[q.value]
            && g.live[p] == h.live[p]
            && p in c1 && c1[p] == c0[p]
            && Move(h, p, n) == (Free(g, p), q)
            && SamePrefix(c0[p], Splice(freshBytes, 0, c0[p][..k]), n)
  {
    hide Full, Free, Grows, Allocate;
    AllocateKeeps(h, n);
  }

  lemma AllocatedBytes(h: Heap, g: Heap, m: seq<byte>, n: nat, q: nat)
    requires Full(h) && Full(g) && |h.free| == LISTS && h.page > 0 && (g, Some(q)) == Allocate(h, n)
    requires |m| == g.total
    ensures q in Contents(g, m) && n <= |Contents(g, m)[q]| && q !in h.live && q in g.live
    ensures |Contents(g, m)[q]| == g.live[q]
  {
    hide Full, Allocate, Contents, Grows;
    AllocateKeeps(h, n);
    LiveSlice(g, m, q);
  }

  /** The contents d after c when a block q of at least n bytes came to be. */
  ghost predicate Inserted(c: map<nat, seq<byte>>, d: map<nat, seq<byte>>, q: int, n: nat) {
    q >= 0 && q !in c && q in d && d == c[q := d[q]] && n <= |d[q]|
  }

  lemma AllocatedIsInserted(h: Heap, g: Heap, m0: seq<byte>, m: seq<byte>, n: nat, q: nat)
    requires Full(h) && Full(g) && |h.free| == LISTS && h.page > 0 && (g, Some(q)) == Allocate(h, n)
    requires |m| == g.total && |m0| == h.total
    requires exists u :: Contents(g, m) == Contents(h, m0)[q := Bytes(m, q, u)]
    ensures Inserted(Contents(h, m0), Contents(g, m), q, n)
  {
    hide Full, Allocate, Contents, Bytes;
    AllocatedBytes(h, g, m, n, q);
    ContentsDomain(h, m0);
  }

  lemma MovedJoin(c0: map<nat, seq<byte>>, c1: map<nat, seq<byte>>, p: nat, q: nat, n: nat, s: seq<byte>)
    requires p in c0 && q !in c0 && q in c1 && c1 == c0[q := c1[q]]
    requires SamePrefix(c0[p], s, n) && n <= |s|
    ensures Moved(c0, c1[q := s] - {p}, p, q, n)
  {
    hide SamePrefix;
    assert c1[q := s] - {p} == (c0 - {p})[q := s];
  }

  lemma ContentsDomain(h: Heap, m: seq<byte>)
    ensures Contents(h, m).Keys == h.live.Keys
  {
  }

  /** The block a pointer argument stands for: none for NULL. */
  function BlockAt(base: nat, ptr: nat): (p: Option<nat>) {
    if ptr < base then None else Some(ptr - base)
  }

  lemma LargeTotalIs(page: nat, n: nat)
    requires page > 0
    ensures SafeAdd(META_SIZE, n).None? ==> LargeTotal(page, n).None?
    ensures SafeAdd(META_SIZE, n).Some? ==> AlignUp(SafeAdd(META_SIZE, n).value, page) == LargeTotal(page, n)
  {
    hide RoundUp;
  }

  lemma ReallocateTrivial(h: Heap, p: Option<nat>, n: nat)
    requires Full(h)
    ensures |h.free| == LISTS && h.page > 0
    ensures n == 0 ==> Reallocate(h, p, n) == (h, None)
    ensures n > 0 && p.None? ==> Reallocate(h, p, n) == Allocate(h, n)
  {
    hide Full, Allocate, Move, InPlace;
    ShapeConfig(h);
  }

  lemma MovedToItself(h: Heap, m: seq<byte>, p: nat, n: nat)
    requires Full(h) && |m| == h.total && p in h.live && n <= UsableOf(h, p)
    ensures Moved(Contents(h, m), Contents(h, m), p, p, n)
  {
    hide Full, Contents;
    LiveSlice(h, m, p);
    assert Contents(h, m) == (Contents(h, m) - {p})[p := Contents(h, m)[p]];
  }

  lemma ResizedIsMoved(c: map<nat, seq<byte>>, d: map<nat, seq<byte>>, h: Heap, g: Heap, m: seq<byte>, p: nat, n: nat)
    requires p in c && p in d && d == c[p := d[p]] && SamePrefix(c[p], d[p], n)
    requires Full(h) && Exact(h) && n > MAX_CLASS_SIZE && KindOf(h, p) == LARGE && InPlace(h, p, n) == Some(g)
    requires Full(g) && |m| == g.total && d == Contents(g, m) && p in h.live
    ensures Moved(c, d, p, p, n)
  {
    hide Full, Contents, SamePrefix, Exact, InPlace;
    ResizePlan(h, p, n, g);
    LiveSlice(g, m, p);
    assert c[p := d[p]] == (c - {p})[p := d[p]];
  }

  // ----- the empty pool -----------------------------------------------------------------

  /** Zero-filled lists and an unassigned page map represent the new heap. */
  lemma NewPlan(base: nat, page: nat, shift: nat, total: nat, tracking: bool,
                m: seq<byte>, pools: seq<Magazine>, tags: seq<byte>)
    requires page == Pow2(shift) && page >= 16 && base > 0 && base + total <= WORD && total < WORD
    requires |m| == total && |pools| == LISTS
    requires forall k :: 0 <= k < LISTS ==> pools[k] == Magazine(seq(MAG_SIZE, _ => 0), 0, 0)
    requires |tags| * page >= total && forall q :: 0 <= q < |tags| ==> tags[q] == TAG_UNASSIGNED
    ensures var h := NewHeap(page, total, tracking);
            && Full(h) && Exact(h) && Rep(h, base, m, pools) && TagsOk(h, tags) && Contents(h, m) == map[]
  {
    var h := NewHeap(page, total, tracking);
    NewHeapFull(page, total, tracking);
    NewHeapExact(page, total, tracking);
    hide Full, Exact, Pow2;
    forall k | 0 <= k < LISTS ensures ListOk(h, base, m, pools, k) {
      assert h.free[k] == FreeList([], []);
    }
  }
}
