/** What each step of a pool operation does to the partition of the blocks. */
module HeapSteps {
  import opened Words
  import opened SizeClasses
  import opened FreeLists
  import opened Extents
  import opened Heaps

  lemma FullIsEmptyLimbo(h: Heap, k: nat)
    ensures Full(h) <==> Limbo(h, k, multiset{})
  {
    hide PageOk, Tiled, Carved, Geometry, LiveFits, Held, BlocksOf;
  }

  /** In a set split over two bags each element is in exactly one of them, once. */
  lemma SplitCount(a: multiset<nat>, b: multiset<nat>, s: set<nat>, x: nat)
    requires a + b == multiset(s)
    ensures a[x] + b[x] == if x in s then 1 else 0
  {
    assert (a + b)[x] == multiset(s)[x];
  }

  lemma HeldCount(h: Heap, k: nat, x: nat)
    requires k < |h.free|
    ensures Held(h, k)[x] ==
            (if x in LiveOf(h.blocks, h.live, k) then 1 else 0) + h.free[k].Bag()[x]
  {
  }

  /** The holder of a block of kind j: limbo, a caller or the free list, once. */
  lemma HolderCount(h: Heap, k: nat, limbo: multiset<nat>, j: nat, x: nat)
    requires Limbo(h, k, limbo) && j < LISTS && |h.free| == LISTS
    ensures (if x in LiveOf(h.blocks, h.live, j) then 1 else 0) + h.free[j].Bag()[x]
            + (if j == k then limbo[x] else 0)
            == if x in BlocksOf(h.blocks, j) then 1 else 0
  {
    LimboAt(h, k, limbo, j);
    HeldCount(h, j, x);
    hide Limbo, BlocksOf, LiveOf, Held;
    SplitCount(Held(h, j), if j == k then limbo else multiset{}, BlocksOf(h.blocks, j), x);
  }

  /** A block in limbo is carved, of the right kind, and nobody holds it. */
  lemma LimboIsUnheld(h: Heap, k: nat, limbo: multiset<nat>, p: nat)
    requires Limbo(h, k, limbo) && k < LISTS && p in limbo && |h.free| == LISTS
    ensures p in h.blocks && h.blocks[p].k == k
    ensures p !in h.live
    ensures forall j :: 0 <= j < LISTS ==> p !in h.free[j].Bag()
  {
    HolderCount(h, k, limbo, k, p);
    forall j | 0 <= j < LISTS ensures p !in h.free[j].Bag() {
      HolderCount(h, k, limbo, j, p);
    }
  }

  lemma LimboAt(h: Heap, k: nat, limbo: multiset<nat>, j: nat)
    requires Limbo(h, k, limbo) && j < LISTS
    ensures |h.free| == LISTS
    ensures Held(h, j) + (if j == k then limbo else multiset{}) == multiset(BlocksOf(h.blocks, j))
  {
    hide Held, BlocksOf;
    assert Held(h, j) == Held(h, j);
  }

  /** A free block is carved, of the kind of its list, and not live. */
  lemma FreeIsUnheld(h: Heap, k: nat, limbo: multiset<nat>, j: nat, p: nat)
    requires Limbo(h, k, limbo) && j < LISTS && |h.free| == LISTS && p in h.free[j].Bag()
    ensures p in h.blocks && h.blocks[p].k == j
    ensures p !in h.live
    ensures h.free[j].Bag()[p] == 1
  {
    HolderCount(h, k, limbo, j, p);
  }

  /** The tiers of every free list hold no pointer twice. */
  lemma TiersNoDup(h: Heap, k: nat, limbo: multiset<nat>, j: nat)
    requires Limbo(h, k, limbo) && j < LISTS && |h.free| == LISTS
    ensures NoDup(h.free[j].mag + h.free[j].spill)
  {
    var f := h.free[j];
    assert multiset(f.mag + f.spill) == f.Bag();
    forall p ensures f.Bag()[p] <= 1 {
      if p in f.Bag() {
        FreeIsUnheld(h, k, limbo, j, p);
      }
    }
    BagNoDup(f.mag + f.spill);
  }

  // ----- the shape of the heap ----------------------------------------------------

  lemma ShapeFree(h: Heap, k: nat, f: FreeList)
    requires Shape(h) && k < LISTS && |f.mag| <= MAG_SIZE
    ensures Shape(h.(free := h.free[k := f]))
  {
    hide PageOk, Tiled, Carved, Geometry, LiveFits;
    var g := h.(free := h.free[k := f]);
    forall p | p in g.live ensures LiveFits(g, p) {
      assert LiveFits(h, p);
      FitsInBlocks(h, p);
      SameLiveFits(h, g, p);
    }
  }

  lemma SameLiveFits(h: Heap, g: Heap, p: nat)
    requires LiveFits(h, p) && p in g.live && g.live[p] == h.live[p]
    requires p in g.blocks && g.blocks[p] == h.blocks[p]
    ensures LiveFits(g, p)
  {
  }

  lemma ShapeLive(h: Heap, live: map<nat, nat>, stats: Stats)
    requires Shape(h)
    requires forall p :: p in live ==>
               (p in h.live && live[p] == h.live[p]) || LiveFits(h.(live := live), p)
    ensures Shape(h.(live := live, stats := stats))
  {
    hide PageOk, Tiled, Carved, Geometry, LiveFits;
    var g := h.(live := live, stats := stats);
    forall p | p in g.live ensures LiveFits(g, p) {
      if LiveFits(h.(live := live), p) {
        FitsInBlocks(h.(live := live), p);
        SameLiveFits(h.(live := live), g, p);
      } else {
        assert LiveFits(h, p);
        FitsInBlocks(h, p);
        SameLiveFits(h, g, p);
      }
    }
  }

  lemma FitsInBlocks(h: Heap, p: nat)
    requires LiveFits(h, p)
    ensures p in h.blocks
  {
  }

  lemma ShapeCarve(h: Heap, k: nat, n: nat)
    requires Shape(h) && CutOk(k, n * h.page, h.page) && n > 0
    requires h.bump + n * h.page <= h.total
    ensures Shape(Carve(h, k, n))
    ensures Carve(h, k, n).bump == h.bump + n * h.page
    ensures h.blocks.Keys !! Cut(k, h.bump, n * h.page).Keys
  {
    hide PageOk, Tiled, Carved, Geometry, LiveFits, CutOk, Cut;
    var g := Carve(h, k, n);
    TiledAppend(h.extents, h.page, Extent(h.carved, n, k));
    CutGeometry(k, h.bump, n * h.page, h.page);
    GeometryJoin(h.blocks, Cut(k, h.bump, n * h.page), 0, h.bump, h.bump + n * h.page);
    assert g.bump == h.bump + n * h.page;
    forall p | p in g.live ensures LiveFits(g, p) {
      assert LiveFits(h, p);
      FitsInBlocks(h, p);
      SameLiveFits(h, g, p);
    }
  }

  // ----- the steps ------------------------------------------------------------------

  /** Taking from a free list moves one block into limbo. */
  lemma TakeFreeStep(h: Heap, k: nat, limbo: multiset<nat>)
    requires Limbo(h, k, limbo) && k < LISTS && |h.free| == LISTS
    ensures TakeFree(h, k).1.None? ==> TakeFree(h, k).0 == h && h.free[k].Bag() == multiset{}
    ensures TakeFree(h, k).1.Some? ==>
              Limbo(TakeFree(h, k).0, k, limbo + multiset{TakeFree(h, k).1.value})
  {
    PopBag(h.free[k]);
    var (g, r) := TakeFree(h, k);
    if r.Some? {
      var limbo' := limbo + multiset{r.value};
      assert |g.free[k].mag| <= MAG_SIZE by { hide Held; assert |h.free[k].mag| <= MAG_SIZE; }
      ShapeFree(h, k, g.free[k]);
      hide Shape, BlocksOf, LiveOf, FreeList.Pop;
      forall j | 0 <= j < LISTS
        ensures Held(g, j) + (if j == k then limbo' else multiset{}) == multiset(BlocksOf(g.blocks, j))
      {
        LimboAt(h, k, limbo, j);
      }
    }
  }

  /** Pushing a block in limbo hands it to the free list of its kind. */
  lemma PutFreeStep(h: Heap, k: nat, limbo: multiset<nat>, p: nat)
    requires Limbo(h, k, limbo + multiset{p}) && k < LISTS && |h.free| == LISTS
    ensures Limbo(PutFree(h, k, p), k, limbo)
  {
    PushBag(h.free[k], p);
    var g := PutFree(h, k, p);
    assert |h.free[k].mag| <= MAG_SIZE;
    ShapeFree(h, k, g.free[k]);
    hide Shape, BlocksOf, LiveOf, FreeList.Push;
    forall j | 0 <= j < LISTS
      ensures Held(g, j) + (if j == k then limbo else multiset{}) == multiset(BlocksOf(g.blocks, j))
    {
      LimboAt(h, k, limbo + multiset{p}, j);
    }
  }

  lemma PutFreeAllStep(h: Heap, k: nat, limbo: multiset<nat>, ps: seq<nat>)
    requires Limbo(h, k, limbo + multiset(ps)) && k < LISTS && |h.free| == LISTS
    ensures Limbo(PutFreeAll(h, k, ps), k, limbo)
  {
    PushAllBag(h.free[k], ps);
    var g := PutFreeAll(h, k, ps);
    assert |h.free[k].mag| <= MAG_SIZE;
    ShapeFree(h, k, g.free[k]);
    hide Shape, BlocksOf, LiveOf, FreeList.PushAll;
    forall j | 0 <= j < LISTS
      ensures Held(g, j) + (if j == k then limbo else multiset{}) == multiset(BlocksOf(g.blocks, j))
    {
      LimboAt(h, k, limbo + multiset(ps), j);
    }
  }

  /** Carving puts exactly the new blocks into limbo. */
  lemma CarveStep(h: Heap, k: nat, limbo: multiset<nat>, n: nat)
    requires Limbo(h, k, limbo) && k < LISTS && CutOk(k, n * h.page, h.page) && n > 0
    requires h.bump + n * h.page <= h.total
    ensures Limbo(Carve(h, k, n), k, limbo + multiset(Cut(k, h.bump, n * h.page).Keys))
    ensures Carve(h, k, n).bump == h.bump + n * h.page
    ensures h.blocks.Keys !! Cut(k, h.bump, n * h.page).Keys
  {
    var g, cut := Carve(h, k, n), Cut(k, h.bump, n * h.page);
    ShapeCarve(h, k, n);
    CutKinds(k, h.bump, n * h.page);
    forall j | 0 <= j < LISTS
      ensures Held(g, j) + (if j == k then limbo + multiset(cut.Keys) else multiset{})
              == multiset(BlocksOf(g.blocks, j))
    {
      LimboAt(h, k, limbo, j);
      LiveIsCarved(h);
      hide Shape, Limbo, Cut;
      CarveHeld(h, g, cut, k, j);
    }
  }

  lemma LiveIsCarved(h: Heap)
    requires Shape(h)
    ensures h.live.Keys <= h.blocks.Keys
  {
    forall p | p in h.live ensures p in h.blocks {
      assert LiveFits(h, p);
    }
  }

  lemma CarveHeld(h: Heap, g: Heap, cut: map<nat, Block>, k: nat, j: nat)
    requires |h.free| == LISTS && g.free == h.free && g.live == h.live && j < LISTS
    requires g.blocks == h.blocks + cut && h.blocks.Keys !! cut.Keys
    requires h.live.Keys <= h.blocks.Keys
    requires forall p :: p in cut ==> cut[p].k == k
    ensures Held(g, j) == Held(h, j)
    ensures multiset(BlocksOf(g.blocks, j)) ==
            multiset(BlocksOf(h.blocks, j)) + (if j == k then multiset(cut.Keys) else multiset{})
  {
    assert LiveOf(g.blocks, g.live, j) == LiveOf(h.blocks, h.live, j);
    if j == k {
      assert BlocksOf(g.blocks, j) == BlocksOf(h.blocks, j) + cut.Keys;
      assert BlocksOf(h.blocks, j) !! cut.Keys;
    } else {
      assert BlocksOf(g.blocks, j) == BlocksOf(h.blocks, j);
    }
  }

  /** Handing out a block in limbo makes it live. */
  lemma HandStep(h: Heap, k: nat, limbo: multiset<nat>, p: nat, usable: nat)
    requires Limbo(h, k, limbo + multiset{p}) && k < LISTS
    requires usable > 0 && Meta(k) + usable <= LenOf(h, p)
    requires k < CLASSES ==> usable == LenOf(h, p)
    ensures Limbo(Hand(h, p, usable), k, limbo)
    ensures p !in h.live
  {
    LimboIsUnheld(h, k, limbo + multiset{p}, p);
    var g := Hand(h, p, usable);
    assert LiveFits(h.(live := h.live[p := usable]), p);
    ShapeLive(h, h.live[p := usable], g.stats);
    hide Shape;
    forall j | 0 <= j < LISTS
      ensures Held(g, j) + (if j == k then limbo else multiset{}) == multiset(BlocksOf(g.blocks, j))
    {
      LimboAt(h, k, limbo + multiset{p}, j);
      hide Limbo, Shape;
      LiveOfAdd(h.blocks, h.live, p, usable, j);
    }
  }

  lemma LiveOfAdd(blocks: map<nat, Block>, live: map<nat, nat>, p: nat, usable: nat, j: nat)
    requires p in blocks && p !in live
    ensures multiset(LiveOf(blocks, live[p := usable], j)) ==
            multiset(LiveOf(blocks, live, j)) + (if blocks[p].k == j then multiset{p} else multiset{})
  {
    var s := LiveOf(blocks, live, j);
    assert LiveOf(blocks, live[p := usable], j) == if blocks[p].k == j then s + {p} else s;
  }

  lemma LiveKind(h: Heap, p: nat)
    requires Shape(h) && p in h.live
    ensures p in h.blocks && h.blocks[p].k < LISTS
  {
    assert LiveFits(h, p);
    assert Within(h.blocks, p, 0, h.bump);
  }

  lemma DropHeld(h: Heap, p: nat, k: nat, j: nat)
    requires Limbo(h, k, multiset{}) && p in h.live && p in h.blocks && h.blocks[p].k == k && j < LISTS
    ensures |h.free| == LISTS
    ensures Held(Drop(h, p), j) + (if j == k then multiset{p} else multiset{}) == multiset(BlocksOf(h.blocks, j))
  {
    LimboAt(h, k, multiset{}, j);
    hide Limbo, Shape, BlocksOf, LiveOf;
    var g := Drop(h, p);
    LiveOfAdd(h.blocks, g.live, p, h.live[p], j);
    assert g.live[p := h.live[p]] == h.live;
  }

  /** Taking a live block from its caller puts it into limbo. */
  lemma DropStep(h: Heap, p: nat)
    requires Full(h) && p in h.live
    ensures p in h.blocks && h.blocks[p].k < LISTS
    ensures Limbo(Drop(h, p), h.blocks[p].k, multiset{p})
  {
    LiveKind(h, p);
    var g, k := Drop(h, p), h.blocks[p].k;
    FullIsEmptyLimbo(h, k);
    ShapeLive(h, g.live, g.stats);
    hide Shape, Full, Held, BlocksOf;
    forall j | 0 <= j < LISTS
      ensures |g.free| == LISTS
      ensures Held(g, j) + (if j == k then multiset{p} else multiset{}) == multiset(BlocksOf(g.blocks, j))
    {
      DropHeld(h, p, k, j);
    }
  }

  /** Counters play no part in the partition. */
  lemma StatsStep(h: Heap, k: nat, limbo: multiset<nat>, stats: Stats)
    requires Limbo(h, k, limbo)
    ensures Limbo(h.(stats := stats), k, limbo)
  {
    var g := h.(stats := stats);
    ShapeLive(h, h.live, stats);
    assert g.(live := h.live) == g;
    hide Shape;
    forall j | 0 <= j < LISTS
      ensures Held(g, j) + (if j == k then limbo else multiset{}) == multiset(BlocksOf(g.blocks, j))
    {
      LimboAt(h, k, limbo, j);
    }
  }
}
