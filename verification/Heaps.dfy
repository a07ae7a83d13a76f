/** The pool allocator as a state machine over an abstract heap: which blocks
    exist, who holds each of them, and what the counters say. */
module Heaps {
  import opened Words
  import opened SizeClasses
  import opened FreeLists
  import opened Extents

  /** The tracking counters. They are size_t and wrap around. */
  datatype Stats = Stats(on: bool, allocs: nat, frees: nat, active: nat)

  function CountAlloc(s: Stats, bytes: nat): (r: Stats) {
    if !s.on then s
    else s.(allocs := WrapAdd(s.allocs, 1), active := WrapAdd(s.active, bytes))
  }

  function CountFree(s: Stats, bytes: nat): (r: Stats) {
    if !s.on then s
    else s.(frees := WrapAdd(s.frees, 1), active := WrapSub(s.active, bytes))
  }

  function CountResize(s: Stats, oldSize: nat, newSize: nat): (r: Stats) {
    if !s.on then s
    else s.(active := WrapAdd(WrapSub(s.active, oldSize), newSize))
  }

  /** page, total: page size and bytes of the region. bump, carved: bytes and pages
      taken so far. free: the nineteen class lists, then the list of large blocks.
      live: each block in the hands of a caller, with its usable size. */
  datatype Heap = Heap(
    page: nat, total: nat,
    bump: nat, carved: nat, extents: seq<Extent>, blocks: map<nat, Block>,
    free: seq<FreeList>, live: map<nat, nat>, stats: Stats)

  ghost function BlocksOf(blocks: map<nat, Block>, k: nat): (s: set<nat>) {
    set p | p in blocks && blocks[p].k == k
  }

  ghost function LiveOf(blocks: map<nat, Block>, live: map<nat, nat>, k: nat): (s: set<nat>) {
    set p | p in live && p in blocks && blocks[p].k == k
  }

  /** The blocks of kind k that a caller or a free list holds. */
  ghost function Held(h: Heap, k: nat): (b: multiset<nat>)
    requires k < |h.free|
  {
    multiset(LiveOf(h.blocks, h.live, k)) + h.free[k].Bag()
  }

  /** Live payloads fit in their blocks; a class block is usable in full. */
  ghost predicate LiveFits(h: Heap, p: nat) {
    && p in h.blocks
    && p in h.live
    && h.live[p] > 0
    && Meta(h.blocks[p].k) + h.live[p] <= h.blocks[p].len
    && (h.blocks[p].k < CLASSES ==> h.live[p] == h.blocks[p].len)
  }

  ghost predicate Shape(h: Heap) {
    && PageOk(h.page)
    && h.total < WORD
    && h.bump == h.carved * h.page <= h.total
    && |h.free| == LISTS
    && Tiled(h.extents, h.page, h.carved)
    && h.blocks == Carved(h.extents, h.page)
    && Geometry(h.blocks, 0, h.bump)
    && (forall k {:trigger h.free[k]} :: 0 <= k < LISTS ==> |h.free[k].mag| <= MAG_SIZE)
    && (forall p {:trigger LiveFits(h, p)} {:trigger p in h.live} :: p in h.live ==> LiveFits(h, p))
  }

  /** Every block of another kind than k is held exactly once, and so is every
      block of kind k outside limbo: the blocks an operation has taken from their
      holder and not handed on yet. */
  ghost predicate Limbo(h: Heap, k: nat, limbo: multiset<nat>) {
    && Shape(h)
    && forall j {:trigger h.free[j]} {:trigger Held(h, j)} :: 0 <= j < LISTS ==>
         Held(h, j) + (if j == k then limbo else multiset{}) == multiset(BlocksOf(h.blocks, j))
  }

  /** Every block is held exactly once: by one caller, or in one slot of one tier
      of the free list of its own kind. Holds between operations. */
  ghost predicate Full(h: Heap) {
    && Shape(h)
    && forall k {:trigger h.free[k]} {:trigger Held(h, k)} :: 0 <= k < LISTS ==>
         Held(h, k) == multiset(BlocksOf(h.blocks, k))
  }

  // ----- steps ------------------------------------------------------------------

  function PutFree(h: Heap, k: nat, p: nat): (r: Heap)
    requires k < |h.free|
  {
    h.(free := h.free[k := h.free[k].Push(p)])
  }

  function PutFreeAll(h: Heap, k: nat, ps: seq<nat>): (r: Heap)
    requires k < |h.free|
  {
    h.(free := h.free[k := h.free[k].PushAll(ps)])
  }

  function TakeFree(h: Heap, k: nat): (r: (Heap, Option<nat>))
    requires k < |h.free|
  {
    match h.free[k].Pop()
    case None => (h, None)
    case Some((p, f)) => (h.(free := h.free[k := f]), Some(p))
  }

  function Hand(h: Heap, p: nat, usable: nat): (r: Heap) {
    h.(live := h.live[p := usable], stats := CountAlloc(h.stats, usable))
  }

  /** Extends the carved part of the region by n pages for kind k. */
  ghost function Carve(h: Heap, k: nat, n: nat): (r: Heap) {
    h.(bump := h.bump + n * h.page,
       carved := h.carved + n,
       extents := h.extents + [Extent(h.carved, n, k)],
       blocks := h.blocks + Cut(k, h.bump, n * h.page))
  }

  ghost function CarveClass(h: Heap, c: nat): (r: (Heap, Option<nat>))
    requires c < |h.free| && h.page > 0
  {
    var len := CarveLen(h.page, c);
    if h.bump + len > h.total then (h, None)
    else
      var slots := Slots(h.bump, ClassSize(c), PerExtent(h.page, c));
      (PutFreeAll(Carve(h, c, CarvePages(h.page, c)), c, if slots == [] then [] else slots[1..]), Some(h.bump))
  }

  ghost function AllocClass(h: Heap, c: nat): (r: (Heap, Option<nat>))
    requires c < |h.free| && h.page > 0
  {
    var (h1, p) := TakeFree(h, c);
    var (h2, q) := if p.Some? then (h1, p) else CarveClass(h1, c);
    if q.None? then (h2, None) else (Hand(h2, q.value, ClassSize(c)), q)
  }

  function LenOf(h: Heap, p: nat): (n: nat) {
    if p in h.blocks then h.blocks[p].len else 0
  }

  function KindOf(h: Heap, p: nat): (k: nat) {
    if p in h.blocks then h.blocks[p].k else LISTS
  }

  /** Bytes of the region a large request of n bytes needs, when they fit in size_t. */
  function LargeTotal(page: nat, n: nat): (r: Option<nat>) {
    if META_SIZE + n >= WORD || page == 0 then None else AlignUp(META_SIZE + n, page)
  }

  ghost function CarveLarge(h: Heap, total: nat): (r: (Heap, Option<nat>))
    requires h.page > 0
  {
    if h.bump + total > h.total then (h, None)
    else (Carve(h, LARGE, Pages(total, h.page)), Some(h.bump + META_SIZE))
  }

  /** The top free large block when it has at least total bytes; otherwise it is
      put back. */
  function Recycle(h: Heap, total: nat): (r: (Heap, Option<nat>))
    requires LARGE < |h.free|
  {
    var (g, p) := TakeFree(h, LARGE);
    if p.None? then (h, None)
    else if LenOf(g, p.value) >= total then (g, p)
    else (PutFree(g, LARGE, p.value), None)
  }

  /** The large block to use for total bytes: recycled, or else a new one. */
  ghost function PickLarge(h: Heap, total: nat): (r: (Heap, Option<nat>))
    requires LARGE < |h.free| && h.page > 0
  {
    var (h1, p) := Recycle(h, total);
    if p.Some? then (h1, p) else CarveLarge(h1, total)
  }

  ghost function AllocLarge(h: Heap, n: nat): (r: (Heap, Option<nat>))
    requires LARGE < |h.free| && h.page > 0
  {
    match LargeTotal(h.page, n)
    case None => (h, None)
    case Some(total) =>
      var (h1, p) := PickLarge(h, total);
      if p.None? then (h1, None) else (Hand(h1, p.value, n), p)
  }

  ghost function Allocate(h: Heap, n: nat): (r: (Heap, Option<nat>))
    requires |h.free| == LISTS && h.page > 0
  {
    if n == 0 then (h, None)
    else
      var c := SizeClassForSize(n);
      if c < 0 || c >= CLASSES then AllocLarge(h, n) else AllocClass(h, c)
  }

  function Drop(h: Heap, p: nat): (r: Heap) {
    h.(live := h.live - {p})
  }

  function UsableOf(h: Heap, p: nat): (n: nat) {
    if p in h.live then h.live[p] else 0
  }

  /** Returns a live block to the free list of its kind. */
  function Release(h: Heap, p: nat): (r: Heap)
    requires |h.free| == LISTS
  {
    var k, n := KindOf(h, p), UsableOf(h, p);
    if k >= LISTS then h
    else
      var h1 := PutFree(Drop(h, p), k, p);
      h1.(stats := CountFree(h1.stats, n))
  }

  /** Pointers that are not live are ignored; callers may only pass those that
      are outside the carved part of the region. */
  function Free(h: Heap, p: int): (r: Heap)
    requires |h.free| == LISTS
  {
    if p >= 0 && p in h.live then Release(h, p) else h
  }

  /** The resize that leaves the block where it is, when there is one. */
  function InPlace(h: Heap, p: nat, n: nat): (r: Option<Heap>) {
    var k, c := KindOf(h, p), SizeClassForSize(n);
    if k < CLASSES && c == k then Some(h)
    else if k == LARGE && c == -1 then
      match LargeTotal(h.page, n)
      case Some(total) =>
        if total <= LenOf(h, p) then
          Some(h.(live := h.live[p := n], stats := CountResize(h.stats, UsableOf(h, p), n)))
        else None
      case None => None
    else None
  }

  /** Large resize whose rounded size does not fit in size_t. */
  function ResizeOverflows(h: Heap, p: nat, n: nat): (b: bool) {
    KindOf(h, p) == LARGE && SizeClassForSize(n) == -1 && LargeTotal(h.page, n).None?
  }

  ghost function Move(h: Heap, p: nat, n: nat): (r: (Heap, Option<nat>))
    requires |h.free| == LISTS && h.page > 0
  {
    var (h1, q) := Allocate(h, n);
    if q.None? then (h1, None) else (Free(h1, p), q)
  }

  ghost function Reallocate(h: Heap, p: Option<nat>, n: nat): (r: (Heap, Option<nat>))
    requires |h.free| == LISTS && h.page > 0
  {
    if n == 0 then (h, None)
    else if p.None? then Allocate(h, n)
    else if InPlace(h, p.value, n).Some? then (InPlace(h, p.value, n).value, p)
    else if ResizeOverflows(h, p.value, n) then (h, None)
    else Move(h, p.value, n)
  }

  /** Bytes an allocation of n bytes carves: nothing when a free block serves it. */
  function CarveNeed(h: Heap, n: nat): (r: nat) {
    if n == 0 || |h.free| != LISTS then 0
    else
      var c := SizeClassForSize(n);
      if 0 <= c < CLASSES then
        if TakeFree(h, c).1.Some? then 0 else CarveLen(h.page, c)
      else
        match LargeTotal(h.page, n)
        case None => 0
        case Some(total) => if Recycle(h, total).1.Some? then 0 else total
  }

  /** The bump sum of a request of n bytes fits in size_t, if one is taken at all. */
  ghost predicate Fits(h: Heap, n: nat) {
    h.bump + CarveNeed(h, n) < WORD
  }

  /** The same for a reallocation of block p, which allocates only when it cannot stay
      where it is. */
  ghost predicate ReFits(h: Heap, p: Option<nat>, n: nat) {
    n == 0 || (p.Some? && (InPlace(h, p.value, n).Some? || ResizeOverflows(h, p.value, n))) || Fits(h, n)
  }

  /** The same for a request of a bytes followed by one of b bytes. */
  ghost predicate FitsBoth(h: Heap, a: nat, b: nat) {
    Fits(h, a) && |h.free| == LISTS && h.page > 0 && (Allocate(h, a).1.Some? ==> Fits(Allocate(h, a).0, b))
  }

  /** Both requests are granted. */
  ghost predicate GrantsBoth(h: Heap, a: nat, b: nat) {
    && |h.free| == LISTS && h.page > 0 && Allocate(h, a).1.Some?
    && |Allocate(h, a).0.free| == LISTS && Allocate(h, a).0.page > 0 && Allocate(Allocate(h, a).0, b).1.Some?
  }

  ghost function NewHeap(page: nat, total: nat, tracking: bool): (h: Heap) {
    Heap(page, total, 0, 0, [], map[], seq(LISTS, _ => FreeList([], [])), map[], Stats(tracking, 0, 0, 0))
  }
}
