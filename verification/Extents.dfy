/** The bump region as a sequence of extents, the blocks each extent is cut
    into, and the class tag of each page. Offsets are relative to the region base. */
module Extents {
  import opened Words
  import opened SizeClasses
  import opened FreeLists

  /** Kinds of extents and blocks: the nineteen size classes, then large. */
  const LARGE: nat := 19
  const LISTS: nat := 20

  /** Bytes of metadata in front of the payload of a large block. */
  const META_SIZE: nat := 16

  /** Tag bytes of the page map. */
  const TAG_LARGE: byte := 0xFE
  const TAG_UNASSIGNED: byte := 0xFF

  /** A run of whole pages carved for one kind. */
  datatype Extent = Extent(first: nat, pages: nat, k: nat)

  /** A block of kind k that occupies len bytes of the region. Blocks are named
      by the offset of their payload, which is what callers see. */
  datatype Block = Block(k: nat, len: nat)

  function Meta(k: nat): (n: nat) {
    if k == LARGE then META_SIZE else 0
  }

  function Tag(k: nat): (t: byte) {
    if k < CLASSES then k else TAG_LARGE
  }

  function ClassSize(c: nat): (n: nat)
    ensures n >= 16
  {
    if c < CLASSES then CLASS_SIZES[c] else MAX_CLASS_SIZE
  }

  ghost predicate PageOk(page: nat) {
    page >= 16 && IsPow2(page)
  }

  /** Bytes carved at a time for class c. */
  function CarveLen(page: nat, c: nat): (n: nat) {
    if ClassSize(c) < page || page == 0 then page else RoundUp(ClassSize(c), page)
  }

  /** Whole pages in len bytes. */
  function Pages(len: nat, page: nat): (n: nat) {
    if page == 0 then 0 else len / page
  }

  /** The same in pages. */
  function CarvePages(page: nat, c: nat): (n: nat) {
    Pages(CarveLen(page, c), page)
  }

  /** Blocks per extent of class c. */
  function PerExtent(page: nat, c: nat): (n: nat) {
    CarveLen(page, c) / ClassSize(c)
  }

  /** An extent carved for class c is as long as the longer of page and class,
      and splits into max(1, page / class) blocks with nothing left over. */
  lemma CarveSplits(page: nat, c: nat)
    requires PageOk(page) && c < CLASSES
    ensures CarveLen(page, c) == if ClassSize(c) < page then page else ClassSize(c)
    ensures CarveLen(page, c) % ClassSize(c) == 0 && CarveLen(page, c) % page == 0
    ensures PerExtent(page, c) == if ClassSize(c) < page then page / ClassSize(c) else 1
    ensures PerExtent(page, c) >= 1
    ensures PerExtent(page, c) * ClassSize(c) == CarveLen(page, c)
  {
    var size := ClassSize(c);
    ClassSizeIsPow2(c);
    ModSelf(page);
    ModUnique(size, size, 1, 0);
    if size < page {
      Pow2Ordered(size, page);
      DivMono(size, page, size);
    } else {
      Pow2Ordered(page, size);
    }
  }

  lemma CarvePagesOk(page: nat, c: nat)
    requires PageOk(page) && c < CLASSES
    ensures CarvePages(page, c) * page == CarveLen(page, c) && CarvePages(page, c) > 0
    ensures CutOk(c, CarveLen(page, c), page)
  {
    CarveSplits(page, c);
    DivTimes(CarveLen(page, c), page);
  }

  // ----- cutting an extent into blocks ----------------------------------------

  ghost predicate InSlot(p: nat, start: nat, len: nat, size: nat)
    requires size > 0
  {
    start <= p < start + len && (p - start) % size == 0
  }

  /** The blocks of kind k cut from len bytes at start. */
  ghost function Cut(k: nat, start: nat, len: nat): (m: map<nat, Block>) {
    if k < CLASSES then
      map p | start <= p < start + len && InSlot(p, start, len, ClassSize(k)) :: Block(k, ClassSize(k))
    else
      map[start + META_SIZE := Block(LARGE, len)]
  }

  ghost function Carved(es: seq<Extent>, page: nat): (m: map<nat, Block>) {
    if es == [] then map[]
    else
      var e := es[|es| - 1];
      Carved(es[..|es| - 1], page) + Cut(e.k, e.first * page, e.pages * page)
  }

  ghost predicate CutOk(k: nat, len: nat, page: nat) {
    && k < LISTS
    && len > META_SIZE - 1
    && (k < CLASSES ==> len == CarveLen(page, k))
    && (k == LARGE ==> len > META_SIZE)
  }

  /** The extents tile the first n pages of the region. */
  ghost predicate Tiled(es: seq<Extent>, page: nat, n: nat) {
    if es == [] then n == 0
    else
      var e := es[|es| - 1];
      && CutOk(e.k, e.pages * page, page)
      && e.pages > 0
      && e.first + e.pages == n
      && Tiled(es[..|es| - 1], page, e.first)
  }

  lemma TiledAppend(es: seq<Extent>, page: nat, e: Extent)
    requires Tiled(es, page, e.first) && CutOk(e.k, e.pages * page, page) && e.pages > 0
    ensures Tiled(es + [e], page, e.first + e.pages)
    ensures Carved(es + [e], page) == Carved(es, page) + Cut(e.k, e.first * page, e.pages * page)
  {
    hide CutOk, Cut;
    assert (es + [e])[..|es|] == es;
  }

  // ----- geometry of the blocks -----------------------------------------------

  function Lo(blocks: map<nat, Block>, p: nat): (o: int) {
    if p in blocks then p - Meta(blocks[p].k) else p
  }

  function Hi(blocks: map<nat, Block>, p: nat): (o: int) {
    if p in blocks then Lo(blocks, p) + blocks[p].len else p
  }

  ghost predicate Apart(blocks: map<nat, Block>, p: nat, q: nat) {
    Hi(blocks, p) <= Lo(blocks, q) || Hi(blocks, q) <= Lo(blocks, p)
  }

  ghost predicate BlockOk(b: Block) {
    && b.k < LISTS
    && b.len >= 16
    && (b.k < CLASSES ==> b.len == ClassSize(b.k))
    && (b.k == LARGE ==> b.len > META_SIZE)
  }

  ghost predicate Within(blocks: map<nat, Block>, p: nat, lo: int, hi: int) {
    p in blocks && BlockOk(blocks[p]) && lo <= Lo(blocks, p) && Hi(blocks, p) <= hi
  }

  /** Every block lies in [lo, hi) and no two blocks share a byte. */
  ghost predicate Geometry(blocks: map<nat, Block>, lo: int, hi: int) {
    && (forall p {:trigger Within(blocks, p, lo, hi)} {:trigger p in blocks} ::
          p in blocks ==> Within(blocks, p, lo, hi))
    && (forall p, q {:trigger Apart(blocks, p, q)} ::
          p in blocks && q in blocks && p != q ==> Apart(blocks, p, q))
  }

  lemma SlotFits(p: nat, start: nat, len: nat, size: nat)
    requires size > 0 && len % size == 0 && InSlot(p, start, len, size)
    ensures p + size <= start + len
  {
    MultiplesApart(p - start, len, size);
  }

  lemma SlotsApart(p: nat, q: nat, start: nat, len: nat, size: nat)
    requires size > 0 && InSlot(p, start, len, size) && InSlot(q, start, len, size) && p < q
    ensures p + size <= q
  {
    MultiplesApart(p - start, q - start, size);
  }

  lemma CutGeometry(k: nat, start: nat, len: nat, page: nat)
    requires PageOk(page) && CutOk(k, len, page)
    ensures Geometry(Cut(k, start, len), start, start + len)
  {
    var m := Cut(k, start, len);
    if k < CLASSES {
      var size := ClassSize(k);
      CarveSplits(page, k);
      hide PageOk, CarveLen, InSlot, ClassSize, PerExtent;
      forall p | p in m ensures Within(m, p, start, start + len) {
        SlotFits(p, start, len, size);
      }
      forall p, q | p in m && q in m && p != q ensures Apart(m, p, q) {
        if p < q {
          SlotsApart(p, q, start, len, size);
        } else {
          SlotsApart(q, p, start, len, size);
        }
      }
    }
  }

  lemma GeometryJoin(m: map<nat, Block>, n: map<nat, Block>, lo: int, mid: int, hi: int)
    requires lo <= mid <= hi && Geometry(m, lo, mid) && Geometry(n, mid, hi)
    ensures Geometry(m + n, lo, hi)
    ensures m.Keys !! n.Keys
  {
    hide BlockOk;
    var all := m + n;
    forall p | p in m && p in n ensures false {
      assert Within(m, p, lo, mid) && Within(n, p, mid, hi);
      BlockNotEmpty(m, p, lo, mid);
      BlockNotEmpty(n, p, mid, hi);
    }
    forall p | p in all ensures Within(all, p, lo, hi) {
      assert if p in n then Within(n, p, mid, hi) else Within(m, p, lo, mid);
    }
    forall p, q | p in all && q in all && p != q ensures Apart(all, p, q) {
      assert if p in n then Within(n, p, mid, hi) else Within(m, p, lo, mid);
      assert if q in n then Within(n, q, mid, hi) else Within(m, q, lo, mid);
      assert p in m && q in m ==> Apart(m, p, q);
      assert p in n && q in n ==> Apart(n, p, q);
    }
  }

  /** The payload of a block is one of its own bytes. */
  lemma BlockNotEmpty(m: map<nat, Block>, p: nat, lo: int, hi: int)
    requires Within(m, p, lo, hi)
    ensures lo <= Lo(m, p) <= p < Hi(m, p) <= hi
  {
  }

  lemma {:induction false} CarvedGeometry(es: seq<Extent>, page: nat, n: nat)
    requires PageOk(page) && Tiled(es, page, n)
    ensures Geometry(Carved(es, page), 0, n * page)
  {
    hide PageOk, CutOk, Cut, Geometry;
    if es == [] {
      EmptyGeometry(n * page);
    } else {
      var init, e := es[..|es| - 1], es[|es| - 1];
      CarvedGeometry(init, page, e.first);
      CutGeometry(e.k, e.first * page, e.pages * page, page);
      assert e.first * page + e.pages * page == n * page;
      GeometryJoin(Carved(init, page), Cut(e.k, e.first * page, e.pages * page), 0, e.first * page, n * page);
    }
  }

  lemma EmptyGeometry(hi: nat)
    ensures Geometry(map[], 0, hi)
  {
  }

  /** The slot that holds offset x. */
  lemma SlotOf(start: nat, len: nat, size: nat, x: nat) returns (p: nat)
    requires size > 0 && start <= x < start + len
    ensures InSlot(p, start, len, size) && p <= x < p + size
  {
    var d := x - start;
    var q := d / size;
    assert d == q * size + d % size;
    p := start + q * size;
    ModUnique(q * size, size, q, 0);
  }

  lemma ByteInCut(k: nat, start: nat, len: nat, page: nat, x: nat) returns (p: nat)
    requires PageOk(page) && CutOk(k, len, page) && start <= x < start + len
    ensures p in Cut(k, start, len)
    ensures Lo(Cut(k, start, len), p) <= x < Hi(Cut(k, start, len), p)
  {
    hide PageOk, CutOk;
    if k < CLASSES {
      p := SlotOf(start, len, ClassSize(k), x);
      hide InSlot, ClassSize;
      InSlotRange(p, start, len, ClassSize(k));
    } else {
      p := start + META_SIZE;
    }
  }

  lemma InSlotRange(p: nat, start: nat, len: nat, size: nat)
    requires size > 0
    ensures InSlot(p, start, len, size) ==> start <= p < start + len
  {
  }

  /** Every byte of a tiled region belongs to a block: the extents leave no gap. */
  lemma {:induction false} EveryByteInABlock(es: seq<Extent>, page: nat, n: nat, x: nat) returns (p: nat)
    requires PageOk(page) && Tiled(es, page, n) && x < n * page
    ensures p in Carved(es, page)
    ensures Lo(Carved(es, page), p) <= x < Hi(Carved(es, page), p)
  {
    hide PageOk, CutOk, Cut, Geometry;
    var init, e := es[..|es| - 1], es[|es| - 1];
    var start, len := e.first * page, e.pages * page;
    assert start + len == n * page;
    CarvedGeometry(init, page, e.first);
    CutGeometry(e.k, start, len, page);
    GeometryJoin(Carved(init, page), Cut(e.k, start, len), 0, start, start + len);
    if x < start {
      p := EveryByteInABlock(init, page, e.first, x);
    } else {
      p := ByteInCut(e.k, start, len, page, x);
    }
  }

  // ----- alignment --------------------------------------------------------------

  /** Blocks of class c start at multiples of min(class size, page size), large
      blocks at multiples of the page size. */
  ghost predicate AlignedBlock(page: nat, k: nat, p: nat) {
    && page > 0
    && (k < CLASSES && ClassSize(k) <= page ==> p % ClassSize(k) == 0)
    && (k < CLASSES && ClassSize(k) >= page ==> p % page == 0)
    && (k == LARGE ==> p >= META_SIZE && (p - META_SIZE) % page == 0)
  }

  lemma CutAligned(k: nat, first: nat, len: nat, page: nat, p: nat)
    requires PageOk(page) && p in Cut(k, first * page, len)
    ensures AlignedBlock(page, Cut(k, first * page, len)[p].k, p)
  {
    var start, size := first * page, ClassSize(k);
    ModUnique(start, page, first, 0);
    if k < CLASSES {
      ClassSizeIsPow2(k);
      assert (p - start) % size == 0;
      if size <= page {
        Pow2Ordered(size, page);
        ModTransitive(start, page, size);
        ModAdd(p - start, start, size);
      }
      if size >= page {
        Pow2Ordered(page, size);
        ModTransitive(p - start, size, page);
        ModAdd(p - start, start, page);
      }
    }
  }

  lemma {:induction false} CarvedAligned(es: seq<Extent>, page: nat, n: nat, p: nat)
    requires PageOk(page) && Tiled(es, page, n) && p in Carved(es, page)
    ensures AlignedBlock(page, Carved(es, page)[p].k, p)
  {
    hide PageOk, CutOk, Cut, AlignedBlock;
    var init, e := es[..|es| - 1], es[|es| - 1];
    if p in Cut(e.k, e.first * page, e.pages * page) {
      CutAligned(e.k, e.first, e.pages * page, page, p);
    } else {
      CarvedAligned(init, page, e.first, p);
    }
  }

  /** The page that holds offset p. */
  function PageOf(p: nat, page: nat): (q: nat) {
    if page == 0 then 0 else p / page
  }

  // ----- page tags --------------------------------------------------------------

  /** The tag of page q. */
  ghost function PageTag(es: seq<Extent>, q: nat): (t: byte) {
    if es == [] then TAG_UNASSIGNED
    else
      var e := es[|es| - 1];
      if e.first <= q < e.first + e.pages then Tag(e.k) else PageTag(es[..|es| - 1], q)
  }

  /** Pages past the bump are unassigned, all others are not. */
  lemma {:induction false} PagesAssigned(es: seq<Extent>, page: nat, n: nat, q: nat)
    requires Tiled(es, page, n)
    ensures q < n <==> PageTag(es, q) != TAG_UNASSIGNED
  {
    if es != [] {
      PagesAssigned(es[..|es| - 1], page, es[|es| - 1].first, q);
    }
  }

  /** Every page of every extent carries the tag of the extent. */
  lemma {:induction false} TagOfExtent(es: seq<Extent>, page: nat, n: nat, i: nat, q: nat)
    requires Tiled(es, page, n)
    requires i < |es| && es[i].first <= q < es[i].first + es[i].pages
    ensures q < n && PageTag(es, q) == Tag(es[i].k)
  {
    hide CutOk;
    if i < |es| - 1 {
      TagOfExtent(es[..|es| - 1], page, es[|es| - 1].first, i, q);
    }
  }

  /** The page that holds the payload of a block carries the tag of its kind. */
  lemma {:induction false} TagOfBlock(es: seq<Extent>, page: nat, n: nat, p: nat, q: nat)
    requires PageOk(page) && Tiled(es, page, n) && p in Carved(es, page)
    requires q * page <= p < (q + 1) * page
    ensures q < n && PageTag(es, q) == Tag(Carved(es, page)[p].k)
  {
    hide PageOk, Geometry, Cut;
    var init, e := es[..|es| - 1], es[|es| - 1];
    var start, len := e.first * page, e.pages * page;
    if p in Cut(e.k, start, len) {
      CutGeometry(e.k, start, len, page);
      PayloadPage(e, page, p, q);
    } else {
      TagOfBlock(init, page, e.first, p, q);
    }
  }

  /** Every page that any byte x of a block lies on carries the tag of its kind. */
  lemma {:induction false} TagOfBytes(es: seq<Extent>, page: nat, n: nat, p: nat, x: nat, q: nat)
    requires PageOk(page) && Tiled(es, page, n) && p in Carved(es, page)
    requires Lo(Carved(es, page), p) <= x < Hi(Carved(es, page), p)
    requires q * page <= x < (q + 1) * page
    ensures q < n && PageTag(es, q) == Tag(Carved(es, page)[p].k)
  {
    hide PageOk, Geometry, Cut;
    var init, e := es[..|es| - 1], es[|es| - 1];
    var start, len := e.first * page, e.pages * page;
    if p in Cut(e.k, start, len) {
      CutGeometry(e.k, start, len, page);
      CutKinds(e.k, start, len);
      BytesRange(e.k, start, len, p, x);
      PagesBetween(e.first, e.pages, page, x, q);
    } else {
      TagOfBytes(init, page, e.first, p, x, q);
    }
  }

  lemma BytesRange(k: nat, start: nat, len: nat, p: nat, x: nat)
    requires Geometry(Cut(k, start, len), start, start + len) && p in Cut(k, start, len)
    requires Lo(Cut(k, start, len), p) <= x < Hi(Cut(k, start, len), p)
    ensures start <= x < start + len
  {
    hide Cut;
    assert Within(Cut(k, start, len), p, start, start + len);
  }

  lemma PageNotBefore(a: nat, q: nat, page: nat, p: nat)
    requires a * page <= p < (q + 1) * page
    ensures a <= q
  {
    if q < a {
      MulMono(q + 1, a, page);
    }
  }

  lemma PageNotAfter(q: nat, b: nat, page: nat, p: nat)
    requires q * page <= p < b * page
    ensures q < b
  {
    if b <= q {
      MulMono(b, q, page);
    }
  }

  lemma CutKinds(k: nat, start: nat, len: nat)
    requires k < LISTS
    ensures forall p :: p in Cut(k, start, len) ==> Cut(k, start, len)[p].k == k
  {
    hide InSlot, ClassSize;
  }

  lemma CutRange(k: nat, start: nat, len: nat, p: nat)
    requires Geometry(Cut(k, start, len), start, start + len) && p in Cut(k, start, len)
    ensures start <= p < start + len
  {
    hide Cut;
    assert Within(Cut(k, start, len), p, start, start + len);
    BlockNotEmpty(Cut(k, start, len), p, start, start + len);
  }

  lemma PayloadPage(e: Extent, page: nat, p: nat, q: nat)
    requires e.k < LISTS
    requires Geometry(Cut(e.k, e.first * page, e.pages * page), e.first * page, e.first * page + e.pages * page)
    requires p in Cut(e.k, e.first * page, e.pages * page)
    requires q * page <= p < (q + 1) * page
    ensures e.first <= q < e.first + e.pages
    ensures Cut(e.k, e.first * page, e.pages * page)[p].k == e.k
  {
    hide Cut, Geometry;
    CutKinds(e.k, e.first * page, e.pages * page);
    CutRange(e.k, e.first * page, e.pages * page, p);
    PagesBetween(e.first, e.pages, page, p, q);
  }

  lemma PagesBetween(first: nat, pages: nat, page: nat, p: nat, q: nat)
    requires first * page <= p < first * page + pages * page
    requires q * page <= p < (q + 1) * page
    ensures first <= q < first + pages
  {
    Distributes(first, pages, page);
    PageNotBefore(first, q, page, p);
    PageNotAfter(q, first + pages, page, p);
  }

  lemma Distributes(a: nat, b: nat, d: nat)
    ensures (a + b) * d == a * d + b * d
  {
  }

  // ----- counting ---------------------------------------------------------------

  ghost function CountExtents(es: seq<Extent>, k: nat): (n: nat) {
    if es == [] then 0
    else CountExtents(es[..|es| - 1], k) + if es[|es| - 1].k == k then 1 else 0
  }

  /** The payload offsets of n consecutive blocks. */
  function Slots(start: nat, size: nat, n: nat): (s: seq<nat>)
    ensures |s| == n
  {
    if n == 0 then [] else Slots(start, size, n - 1) + [start + (n - 1) * size]
  }

  lemma {:induction false} SlotAt(start: nat, size: nat, n: nat, i: nat)
    requires i < n
    ensures Slots(start, size, n)[i] == start + i * size
  {
    if i < n - 1 {
      SlotAt(start, size, n - 1, i);
    }
  }

  lemma SlotsNoDup(start: nat, size: nat, n: nat)
    requires size > 0
    ensures NoDup(Slots(start, size, n))
  {
    forall i, j | 0 <= i < j < n ensures Slots(start, size, n)[i] != Slots(start, size, n)[j] {
      SlotAt(start, size, n, i);
      SlotAt(start, size, n, j);
      MulMono(i + 1, j, size);
    }
  }

  lemma SlotIndexIn(start: nat, size: nat, n: nat, i: nat)
    requires size > 0 && i < n
    ensures InSlot(start + i * size, start, n * size, size)
  {
    MulMono(i + 1, n, size);
    ModUnique(i * size, size, i, 0);
  }

  lemma SlotIndexOf(start: nat, size: nat, n: nat, p: nat) returns (i: nat)
    requires size > 0 && InSlot(p, start, n * size, size)
    ensures i < n && p == start + i * size
  {
    i := (p - start) / size;
    assert p - start == i * size;
    if i >= n {
      MulMono(n, i, size);
    }
  }

  lemma SlotsMember(start: nat, size: nat, n: nat, p: nat)
    requires size > 0
    ensures p in Slots(start, size, n) <==> InSlot(p, start, n * size, size)
  {
    var s := Slots(start, size, n);
    hide InSlot, Slots;
    if p in s {
      var i :| 0 <= i < n && s[i] == p;
      SlotAt(start, size, n, i);
      SlotIndexIn(start, size, n, i);
    }
    if InSlot(p, start, n * size, size) {
      var i := SlotIndexOf(start, size, n, p);
      SlotAt(start, size, n, i);
      assert s[i] == p;
    }
  }

  /** The slots of a class extent are exactly its blocks, each once. */
  lemma SlotsAreBlocks(k: nat, start: nat, len: nat, page: nat)
    requires PageOk(page) && CutOk(k, len, page) && k < CLASSES
    ensures multiset(Slots(start, ClassSize(k), PerExtent(page, k))) == multiset(Cut(k, start, len).Keys)
  {
    var size, n := ClassSize(k), PerExtent(page, k);
    var s, keys := Slots(start, size, n), Cut(k, start, len).Keys;
    CarveSplits(page, k);
    hide InSlot, ClassSize, PerExtent, PageOk;
    SlotsNoDup(start, size, n);
    NoDupBag(s);
    forall p | p in s || p in keys ensures p in s && p in keys {
      SlotsMember(start, size, n, p);
      assert InSlot(p, start, len, size) ==> start <= p < start + len by {
        InSlotRange(p, start, len, size);
      }
    }
    assert (set x | x in s) == keys;
  }
}
