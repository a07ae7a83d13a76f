/** How many pages a slab ever takes, and where its slots start. */
module SlabRuns {
  import opened Words
  import opened SizeClasses
  import opened FreeLists
  import opened Extents
  import opened Heaps
  import opened HeapOps
  import opened HeapRuns
  import opened HeapSpace
  import opened SlabTheory

  // ----- pages over a run -------------------------------------------------------------

  /** Take: slab_allocate, whose page growth succeeds when page_ok. Give: slab_free. */
  datatype SlabOp = Take(pageOk: bool) | Give

  /** Pages and used objects, and the most objects used at the same time so far. */
  datatype SlabCount = SlabCount(slabs: nat, used: nat, peak: nat)

  /** The counts after an operation on a slab with n objects a page: a page is added
      exactly when no slot is free, that is, when all slots of all pages are used. */
  function Step(c: SlabCount, n: nat, op: SlabOp): (d: SlabCount) {
    match op
    case Give => if c.used > 0 then c.(used := c.used - 1) else c
    case Take(pageOk) =>
      var full := c.used == Times(c.slabs, n);
      if full && !pageOk then c
      else
        var used := c.used + 1;
        SlabCount(if full then c.slabs + 1 else c.slabs, used, if used > c.peak then used else c.peak)
  }

  /** From slab_create on. */
  function Run(n: nat, ops: seq<SlabOp>): (c: SlabCount) {
    if ops == [] then SlabCount(1, 0, 0)
    else Step(Run(n, ops[..|ops| - 1]), n, ops[|ops| - 1])
  }

  lemma {:induction false} RunInvariant(n: nat, ops: seq<SlabOp>)
    requires n >= 1
    ensures var c := Run(n, ops);
            && c.slabs >= 1 && c.used <= c.peak <= Times(c.slabs, n)
            && (c.slabs > 1 ==> c.peak > Times(c.slabs - 1, n))
  {
    hide Times;
    if ops != [] {
      var c := Run(n, ops[..|ops| - 1]);
      RunInvariant(n, ops[..|ops| - 1]);
      TimesSucc(c.slabs, n);
    } else {
      TimesSucc(0, n);
    }
  }

  /** A slab never takes more pages than its peak use needs, whatever page growths
      failed in between: slab_count == max(1, ceil(peak / objects_per_slab)). */
  lemma PagesArePeakDemand(n: nat, ops: seq<SlabOp>)
    requires n >= 1
    ensures var c := Run(n, ops);
            c.slabs == if c.peak == 0 then 1 else CeilDiv(c.peak, n)
  {
    hide Run;
    RunInvariant(n, ops);
    var c := Run(n, ops);
    if c.peak > 0 {
      TightIsCeil(c.slabs, n, c.peak);
    }
  }

  // ----- alignment of slots -------------------------------------------------------------

  lemma Pow2NotBetween(a: nat, b: nat)
    requires IsPow2(a) && IsPow2(b) && 2 * a > b
    ensures a >= b
  {
    var i: nat :| a == Pow2(i);
    var j: nat :| b == Pow2(j);
    assert Pow2(i + 1) == 2 * a;
    if i < j {
      Pow2Divides(i + 1, j);
    } else {
      Pow2Divides(j, i);
    }
  }

  lemma ClassBlockAligned(page: nat, k: nat, p: nat, N: nat, size: nat)
    requires PageOk(page) && AlignedBlock(page, k, p) && k < CLASSES
    requires IsPow2(N) && N <= page && size <= ClassSize(k) && N < 2 * size
    ensures N > 0 && p % N == 0
  {
    ClassSizeIsPow2(k);
    Pow2NotBetween(ClassSize(k), N);
    Pow2Ordered(N, page);
    Pow2Ordered(N, ClassSize(k));
    if ClassSize(k) <= page {
      ModTransitive(p, ClassSize(k), N);
    } else {
      ModTransitive(p, page, N);
    }
  }

  lemma LargeBlockAligned(page: nat, p: nat, N: nat)
    requires PageOk(page) && AlignedBlock(page, LARGE, p) && IsPow2(N) && N <= page
    ensures N > 0 && (p % N == 0 <==> N <= 16)
  {
    Pow2Ordered(N, page);
    ModTransitive(p - META_SIZE, page, N);
    ModAdd(META_SIZE, p - META_SIZE, N);
    SixteenIsPow2();
    if N <= 16 {
      Pow2Ordered(N, 16);
    } else {
      ModUnique(16, N, 0, 16);
    }
  }

  lemma SixteenIsPow2()
    ensures IsPow2(16)
  {
    assert Pow2(4) == 16;
  }

  lemma SlotOffsets(p: int, size: nat, n: nat, N: nat)
    requires 0 < size <= N && n >= 1
    ensures (forall j: nat {:trigger Times(j, size)} :: j < n ==> (p + Times(j, size)) % N == 0)
            <==> p % N == 0 && (n == 1 || size == N)
  {
    TimesSucc(0, size);
    if forall j: nat {:trigger Times(j, size)} :: j < n ==> (p + Times(j, size)) % N == 0 {
      assert (p + Times(0, size)) % N == 0;
      if n > 1 {
        assert (p + Times(1, size)) % N == 0;
        ModAdd(size, p, N);
        if size < N {
          ModUnique(size, N, 0, size);
        }
      }
    }
    if p % N == 0 && (n == 1 || size == N) {
      forall j: nat | j < n ensures (p + Times(j, size)) % N == 0 {
        if size == N {
          ModUnique(Times(j, size), N, j, 0);
          ModAdd(p, Times(j, size), N);
        } else {
          assert j == 0;
        }
      }
    }
  }

  /** The slab header promises slots aligned to the next power of two N of the object
      size. For N up to the page size that holds exactly when the objects block is a
      class block, or N is at most 16, and either the page has one object or the
      object size is itself a power of two. */
  lemma SlotAlignment(base: nat, page: nat, k: nat, p: nat, size: nat, n: nat, N: nat)
    requires PageOk(page) && base % page == 0 && AlignedBlock(page, k, p) && k < LISTS
    requires size >= 8 && n >= 1 && IsPow2(N) && size <= N < 2 * size && N <= page
    requires k < CLASSES ==> Times(n, size) <= ClassSize(k)
    ensures (forall j: nat {:trigger Times(j, size)} :: j < n ==> (base + p + Times(j, size)) % N == 0)
            <==> (k < CLASSES || N <= 16) && (n == 1 || size == N)
  {
    hide PageOk, AlignedBlock, ClassSize, IsPow2;
    PageIsPow2(page);
    Pow2Ordered(N, page);
    ModTransitive(base, page, N);
    ModAdd(p, base, N);
    if k < CLASSES {
      TimesMono(1, n, size);
      TimesSucc(0, size);
      ClassBlockAligned(page, k, p, N, size);
    } else {
      LargeBlockAligned(page, p, N);
    }
    hide Times;
    SlotOffsets(base + p, size, n, N);
  }

  lemma PageIsPow2(page: nat)
    requires PageOk(page)
    ensures IsPow2(page) && page > 0
  {
  }

  // ----- the size of a page ---------------------------------------------------------------

  /** The bytes allocate_new_page asks for: the product on size_t. */
  function Requested(n: nat, size: nat): (r: nat) {
    Times(n, size) % WORD
  }

  /** The product is not checked for overflow. A page is safe, because the pool refuses it
      or because all of its slots lie in the block the pool grants, if and only if the
      product is below 2^64 or the pool refuses what it wraps to. */
  lemma PageSafeExactly(h: Heap, n: nat, size: nat)
    requires Full(h) && size >= 8 && n >= 1
    ensures |h.free| == LISTS && h.page > 0
    ensures var (g, q) := Allocate(h, Requested(n, size));
            && (q.Some? ==> q.value in g.live)
            && ((q.Some? ==>
                   forall j: nat {:trigger Times(j, size)} :: j < n ==> Times(j, size) + size <= g.live[q.value])
                <==> (Times(n, size) < WORD || q.None?))
  {
    hide Full, Allocate, Grows, ClassSize, SizeClassForSize;
    FullParts(h);
    AllocateKeeps(h, Requested(n, size));
    var (g, q) := Allocate(h, Requested(n, size));
    TimesSucc(n - 1, size);
    if q.Some? {
      LiveBound(g, q.value);
      if Times(n, size) < WORD {
        ModUnique(Times(n, size), WORD, 0, Times(n, size));
        forall j: nat | j < n ensures Times(j, size) + size <= g.live[q.value] {
          TimesMono(j, n - 1, size);
        }
      } else {
        assert Times(n - 1, size) + size > g.live[q.value];
      }
    }
  }

  lemma LiveBound(h: Heap, p: nat)
    requires Full(h) && p in h.live
    ensures h.live[p] < WORD
  {
    hide Full;
    LivePayloads(h, p, p);
    LiveSums(h);
  }

  /** With 2^61 + 1 slots of 8 bytes a page asks for 8 bytes, gets a block of 16, and its
      third slot starts where the block ends. With 2^61 slots it asks for nothing, which
      the pool refuses. */
  lemma WrappedPages(h: Heap)
    requires |h.free| == LISTS && h.page > 0
    ensures Requested(0x2000_0000_0000_0001, 8) == 8 && ClassSize(SizeClassForSize(8)) == Times(2, 8)
    ensures Requested(0x2000_0000_0000_0000, 8) == 0 && Allocate(h, 0) == (h, None)
  {
  }

  // ----- kinds of object blocks -------------------------------------------------------------

  /** The kind of block the pool grants for n bytes. */
  function KindFor(n: nat): (k: int) {
    if n > MAX_CLASS_SIZE then LARGE else SizeClassForSize(n)
  }

  ghost predicate HasKind(h: Heap, p: int, k: int) {
    p >= 0 && p in h.blocks && h.blocks[p].k == k
  }

  ghost predicate OfKind(h: Heap, ps: seq<Page>, k: int) {
    forall i {:trigger ps[i]} :: 0 <= i < |ps| ==> HasKind(h, ps[i].objects, k)
  }

  lemma AllocateGrows(h: Heap, n: nat)
    requires Full(h)
    ensures |h.free| == LISTS && h.page > 0
    ensures Grows(h, Allocate(h, n).0)
    ensures Allocate(h, n).1.Some? ==> HasKind(Allocate(h, n).0, Allocate(h, n).1.value, KindFor(n))
  {
    hide Full, Allocate, Grows, ClassSize, SizeClassForSize;
    FullParts(h);
    AllocateKeeps(h, n);
    if Allocate(h, n).1.None? {
      SameTiersGrows(h, Allocate(h, n).0);
    }
  }

  lemma FreeGrows(h: Heap, p: int)
    requires Full(h)
    ensures |h.free| == LISTS && Grows(h, Free(h, p))
  {
    hide Full, Free, Grows;
    FullParts(h);
    FreeKeeps(h, p);
  }

  lemma KindsKept(h: Heap, g: Heap, ps: seq<Page>, k: int)
    requires OfKind(h, ps, k) && Grows(h, g)
    ensures OfKind(g, ps, k)
  {
    forall i | 0 <= i < |ps| ensures HasKind(g, ps[i].objects, k) {
      assert HasKind(h, ps[i].objects, k);
    }
  }

  lemma KindsCons(h: Heap, ps: seq<Page>, p: Page, k: int)
    requires OfKind(h, ps, k) && HasKind(h, p.objects, k)
    ensures OfKind(h, [p] + ps, k)
  {
    hide HasKind;
  }
}
