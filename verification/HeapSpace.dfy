/** How much of the region a run carves: exactly what its peak demand needs. */
module HeapSpace {
  import opened Words
  import opened SizeClasses
  import opened FreeLists
  import opened Extents
  import opened Heaps
  import opened HeapSteps
  import opened HeapOps
  import opened HeapRuns

  ghost function LiveCount(h: Heap, c: nat): (n: nat) {
    |LiveOf(h.blocks, h.live, c)|
  }

  /** The most blocks of class c live at the same time in any heap of hs. */
  ghost function Peak(hs: seq<Heap>, c: nat): (n: nat) {
    if hs == [] then 0
    else
      var before, now := Peak(hs[..|hs| - 1], c), LiveCount(hs[|hs| - 1], c);
      if now > before then now else before
  }

  function CeilDiv(n: nat, d: nat): (r: nat)
    requires d > 0
  {
    (n + d - 1) / d
  }

  // ----- counting the blocks of a class -----------------------------------------------

  lemma BlocksOfJoin(m: map<nat, Block>, n: map<nat, Block>, c: nat)
    requires m.Keys !! n.Keys
    ensures |BlocksOf(m + n, c)| == |BlocksOf(m, c)| + |BlocksOf(n, c)|
  {
    assert BlocksOf(m + n, c) == BlocksOf(m, c) + BlocksOf(n, c);
    assert BlocksOf(m, c) !! BlocksOf(n, c);
  }

  lemma CutCount(k: nat, start: nat, len: nat, page: nat, c: nat)
    requires PageOk(page) && CutOk(k, len, page) && c < CLASSES
    ensures |BlocksOf(Cut(k, start, len), c)| == if k == c then PerExtent(page, c) else 0
  {
    CutKinds(k, start, len);
    var m := Cut(k, start, len);
    if k == c {
      SlotsAreBlocks(k, start, len, page);
      hide Cut, CutOk, PageOk, PerExtent, ClassSize;
      assert BlocksOf(m, c) == m.Keys;
      assert |multiset(m.Keys)| == |m.Keys|;
    } else {
      assert BlocksOf(m, c) == {};
    }
  }

  lemma {:induction false} CarvedCount(es: seq<Extent>, page: nat, n: nat, c: nat)
    requires PageOk(page) && Tiled(es, page, n) && c < CLASSES
    ensures |BlocksOf(Carved(es, page), c)| == CountExtents(es, c) * PerExtent(page, c)
  {
    hide PageOk, CutOk, Cut, PerExtent, Geometry;
    if es == [] {
      assert BlocksOf(Carved(es, page), c) == {};
    } else {
      var init, e := es[..|es| - 1], es[|es| - 1];
      CarvedCount(init, page, e.first, c);
      CarvedGeometry(init, page, e.first);
      CutGeometry(e.k, e.first * page, e.pages * page, page);
      var cut := Cut(e.k, e.first * page, e.pages * page);
      GeometryJoin(Carved(init, page), cut, 0, e.first * page, e.first * page + e.pages * page);
      hide BlocksOf;
      BlocksOfJoin(Carved(init, page), cut, c);
      CutCount(e.k, e.first * page, e.pages * page, page, c);
      Distributes(CountExtents(init, c), if e.k == c then 1 else 0, PerExtent(page, c));
    }
  }

  /** Live and free blocks of a class together fill its extents. */
  lemma ClassCount(h: Heap, c: nat)
    requires Full(h) && c < CLASSES
    ensures |h.free| == LISTS
    ensures LiveCount(h, c) + |h.free[c].Bag()| == CountExtents(h.extents, c) * PerExtent(h.page, c)
  {
    assert |Held(h, c)| == |multiset(BlocksOf(h.blocks, c))|;
    assert |multiset(BlocksOf(h.blocks, c))| == |BlocksOf(h.blocks, c)|;
    CarvedCount(h.extents, h.page, h.carved, c);
  }

  // ----- one operation -----------------------------------------------------------------

  /** An operation carves for class c only to serve one more live block of class
      c than all its extents hold, and then one extent. */
  ghost predicate Frugal(h: Heap, g: Heap, c: nat) {
    || CountExtents(g.extents, c) == CountExtents(h.extents, c)
    || (&& CountExtents(g.extents, c) == CountExtents(h.extents, c) + 1
        && LiveCount(g, c) == CountExtents(h.extents, c) * PerExtent(h.page, c) + 1)
  }

  lemma CountAppend(es: seq<Extent>, e: Extent, c: nat)
    ensures CountExtents(es + [e], c) == CountExtents(es, c) + if e.k == c then 1 else 0
  {
    assert (es + [e])[..|es|] == es;
  }

  lemma LiveCountHand(h: Heap, g: Heap, p: nat, c: nat)
    requires Grows(h, g) && p !in h.live && p in g.live && p in g.blocks
    requires g.live == h.live[p := g.live[p]] && h.live.Keys <= h.blocks.Keys
    ensures LiveCount(g, c) == LiveCount(h, c) + if g.blocks[p].k == c then 1 else 0
  {
    var s := LiveOf(h.blocks, h.live, c);
    assert LiveOf(g.blocks, g.live, c) == if g.blocks[p].k == c then s + {p} else s;
  }

  lemma CarveFrugal(h: Heap, d: nat, c: nat)
    requires Full(h) && d < CLASSES && c < CLASSES
    ensures TakeFree(h, d).1.Some? ==> AllocClass(h, d).0.extents == h.extents
    ensures TakeFree(h, d).1.None? ==> h.free[d].Bag() == multiset{}
    ensures CountExtents(AllocClass(h, d).0.extents, c) ==
            CountExtents(h.extents, c)
            + if d == c && TakeFree(h, d).1.None? && AllocClass(h, d).1.Some? then 1 else 0
  {
    TakeFreeSome(h, d);
    if TakeFree(h, d).1.None? {
      CarveClassStep(h, d);
      hide Full, Limbo, CarveClass;
      CountAppend(h.extents, Extent(h.carved, CarvePages(h.page, d), d), c);
    }
  }

  lemma LargeFrugal(h: Heap, n: nat, c: nat)
    requires Full(h) && n > MAX_CLASS_SIZE && c < CLASSES
    ensures CountExtents(AllocLarge(h, n).0.extents, c) == CountExtents(h.extents, c)
  {
    if LargeTotal(h.page, n).Some? {
      var total := LargeTotal(h.page, n).value;
      var h1 := PickLarge(h, total).0;
      hide Full, Limbo;
      CountAppend(h.extents, Extent(h.carved, Pages(total, h.page), LARGE), c);
    }
  }

  lemma AllocateFrugal(h: Heap, n: nat, c: nat)
    requires Full(h) && c < CLASSES
    ensures Frugal(h, Allocate(h, n).0, c)
  {
    if n > 0 {
      ClassChoice(n);
      if n > MAX_CLASS_SIZE {
        LargeFrugal(h, n, c);
      } else {
        var d := SizeClassForSize(n);
        var (g, p) := Allocate(h, n);
        CarveFrugal(h, d, c);
        AllocateKeeps(h, n);
        ClassCount(h, c);
        LiveIsCarved(h);
        hide Full, Limbo, AllocClass, TakeFree, Grows, LiveCount;
        if p.Some? {
          LiveCountHand(h, g, p.value, c);
        }
      }
    }
  }

  /** A move frees a block of another kind than it allocates. */
  lemma MoveChangesKind(h: Heap, p: nat, n: nat)
    requires Full(h) && p in h.live && n > 0 && InPlace(h, p, n).None? && Allocate(h, n).1.Some?
    ensures var (g, q) := Allocate(h, n);
            p in g.blocks && q.value in g.blocks && g.blocks[q.value].k < CLASSES ==>
              g.blocks[p].k != g.blocks[q.value].k
  {
    AllocateKeeps(h, n);
    assert LiveFits(h, p);
    BlockLen(h, p);
    ClassChoice(n);
    hide Full, Allocate;
  }

  lemma LiveCountDrop(h: Heap, p: nat, c: nat)
    requires Full(h) && p in h.live && p in h.blocks && h.blocks[p].k != c
    ensures Free(h, p).extents == h.extents && LiveCount(Free(h, p), c) == LiveCount(h, c)
  {
    FreeKeeps(h, p);
    var g := Free(h, p);
    hide Full, Free;
    assert LiveOf(g.blocks, g.live, c) == LiveOf(h.blocks, h.live, c);
  }

  /** The intermediate heap of a move, in which old and new block are live, is as
      frugal as its final one. */
  lemma MoveFrugal(h: Heap, p: nat, n: nat, c: nat)
    requires Full(h) && p in h.live && n > 0 && c < CLASSES && InPlace(h, p, n).None?
    ensures Frugal(h, Move(h, p, n).0, c)
  {
    AllocateFrugal(h, n, c);
    AllocateKeeps(h, n);
    var (h1, q) := Allocate(h, n);
    if q.Some? {
      MoveChangesKind(h, p, n);
      hide Allocate, InPlace;
      FreeKeeps(h1, p);
      LiveIsCarved(h1);
      if h1.blocks[q.value].k == c {
        LiveCountDrop(h1, p, c);
      } else {
        LiveOfOther(h, h1, q.value, n, c);
      }
    }
    hide Full, Grows, Free, LiveCount;
  }

  lemma LiveOfOther(h: Heap, g: Heap, p: nat, n: nat, c: nat)
    requires Full(h) && Allocated(h, g, p, n) && g.blocks[p].k != c
    requires c < CLASSES && Frugal(h, g, c)
    ensures CountExtents(g.extents, c) == CountExtents(h.extents, c)
  {
    LiveIsCarved(h);
    ClassCount(h, c);
    hide Full, Limbo;
    LiveCountHand(h, g, p, c);
  }

  lemma ApplyFrugal(h: Heap, op: Op, c: nat)
    requires Full(h) && Legal(h, op) && c < CLASSES
    ensures Frugal(h, Apply(h, op), c)
  {
    match op
    case OpAllocate(n) =>
      AllocateFrugal(h, n, c);
    case OpFree(p) =>
      FreeKeeps(h, p);
    case OpReallocate(q, n) =>
      AllocateFrugal(h, n, c);
      if q.Some? && n > 0 {
        if InPlace(h, q.value, n).None? {
          MoveFrugal(h, q.value, n, c);
        }
      }
      hide Full, Allocate, Move;
  }

  // ----- whole runs -----------------------------------------------------------------------

  /** With e extents of d blocks each: the peak fits in them and not in one fewer. */
  ghost predicate Tight(e: nat, d: nat, peak: nat) {
    && peak <= e * d
    && (e > 0 ==> peak > (e - 1) * d)
  }

  lemma TightIsCeil(e: nat, d: nat, peak: nat)
    requires d > 0 && Tight(e, d, peak)
    ensures e == CeilDiv(peak, d)
  {
    if e > 0 {
      var r := peak - (e - 1) * d - 1;
      assert e * d == (e - 1) * d + d;
      assert peak + d - 1 == e * d + r;
      ModUnique(peak + d - 1, d, e, r);
    } else {
      assert peak == 0;
      ModUnique(d - 1, d, 0, d - 1);
    }
  }

  lemma TightStep(e: nat, f: nat, d: nat, peak: nat, live: nat)
    requires Tight(e, d, peak) && live <= f * d && d > 0
    requires f == e || (f == e + 1 && live == e * d + 1)
    ensures Tight(f, d, if live > peak then live else peak)
  {
    if f == e + 1 {
      assert f * d == e * d + d;
    }
  }

  lemma {:induction false} RunTight(page: nat, total: nat, tracking: bool, ops: seq<Op>, hs: seq<Heap>, c: nat)
    requires PageOk(page) && total < WORD && c < CLASSES
    requires Run(page, total, tracking, ops, hs)
    ensures Tight(CountExtents(hs[|hs| - 1].extents, c), PerExtent(page, c), Peak(hs, c))
    decreases |ops|
  {
    var g := hs[|hs| - 1];
    RunKeeps(page, total, tracking, ops, hs, |hs| - 1);
    ClassCount(g, c);
    CarveSplits(page, c);
    hide PerExtent, CarveLen, ClassSize, PageOk;
    if ops == [] {
      hide Full;
      assert hs[..0] == [];
      assert LiveOf(g.blocks, g.live, c) == {};
    } else {
      var ops', hs' := ops[..|ops| - 1], hs[..|hs| - 1];
      var h, op := hs[|hs| - 2], ops[|ops| - 1];
      assert Stepped(h, op, g);
      assert Run(page, total, tracking, ops', hs') by {
        forall i | 0 <= i < |ops'| ensures Stepped(hs'[i], ops'[i], hs'[i + 1]) {
          assert ops'[i] == ops[i];
        }
      }
      RunTight(page, total, tracking, ops', hs', c);
      RunKeeps(page, total, tracking, ops, hs, |hs| - 2);
      ApplyFrugal(h, op, c);
      hide Full, Apply, Legal, CountExtents, LiveCount, Run;
      TightStep(CountExtents(h.extents, c), CountExtents(g.extents, c), PerExtent(page, c),
                Peak(hs', c), LiveCount(g, c));
    }
  }

  /** Over any run the extents carved for class c are as many as the peak number
      of live blocks of the class needs, at max(1, page / class size) a piece. */
  lemma SpaceIsPeakDemand(page: nat, total: nat, tracking: bool, ops: seq<Op>, hs: seq<Heap>, c: nat)
    requires PageOk(page) && total < WORD && c < CLASSES
    requires Run(page, total, tracking, ops, hs)
    ensures var d := if ClassSize(c) < page then page / ClassSize(c) else 1;
            d > 0 && CountExtents(hs[|hs| - 1].extents, c) == CeilDiv(Peak(hs, c), d)
  {
    RunTight(page, total, tracking, ops, hs, c);
    CarveSplits(page, c);
    hide Run, Peak;
    TightIsCeil(CountExtents(hs[|hs| - 1].extents, c), PerExtent(page, c), Peak(hs, c));
  }
}
