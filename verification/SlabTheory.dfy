/** Slabs as values: pages and free slots threaded through the bytes of pool
    blocks. Blocks are named by their offset in the pool region. */
module SlabTheory {
  import opened Words
  import opened FreeLists

  /** Sizes of the two structs the slab allocates for itself. */
  const SLAB_STRUCT: nat := 56
  const PAGE_STRUCT: nat := 16

  /** A page header block and the block of its objects. */
  datatype Page = Page(page: nat, objects: nat)

  /** The slot at offset off of an objects block. */
  datatype Slot = Slot(block: nat, off: nat)

  type Store = map<nat, seq<byte>>

  ghost function Word(s: Store, b: nat, off: nat): (v: nat) {
    if b in s && off + 8 <= |s[b]| then GetWord(s[b], off) else 0
  }

  ghost predicate Roomy(s: Store, b: nat, n: nat) {
    b in s && n <= |s[b]|
  }

  /** Following page->next from head visits exactly the pages ps. */
  ghost predicate PageChain(s: Store, base: nat, head: nat, ps: seq<Page>, room: nat)
    decreases |ps|
  {
    if ps == [] then head == 0
    else
      && head == base + ps[0].page
      && Roomy(s, ps[0].page, PAGE_STRUCT) && Roomy(s, ps[0].objects, room)
      && Word(s, ps[0].page, 0) == base + ps[0].objects
      && PageChain(s, base, Word(s, ps[0].page, 8), ps[1..], room)
  }

  /** Following the links in free slots from head visits exactly the slots fs. */
  ghost predicate SlotChain(s: Store, base: nat, head: nat, fs: seq<Slot>)
    decreases |fs|
  {
    if fs == [] then head == 0
    else
      && head == base + fs[0].block + fs[0].off
      && Roomy(s, fs[0].block, fs[0].off + 8)
      && SlotChain(s, base, Word(s, fs[0].block, fs[0].off), fs[1..])
  }

  // ----- frames -----------------------------------------------------------------------

  lemma {:induction false} PageChainFrame(s: Store, t: Store, base: nat, head: nat, ps: seq<Page>, room: nat)
    requires PageChain(s, base, head, ps, room)
    requires forall p :: p in ps ==> p.page in t && p.page in s && t[p.page] == s[p.page]
    requires forall p :: p in ps ==> Roomy(t, p.objects, room)
    ensures PageChain(t, base, head, ps, room)
    decreases |ps|
  {
    if ps != [] {
      assert ps[0] in ps;
      forall p | p in ps[1..] ensures p in ps {
      }
      hide Roomy;
      PageChainFrame(s, t, base, Word(s, ps[0].page, 8), ps[1..], room);
    }
  }

  lemma {:induction false} SlotChainFrame(s: Store, t: Store, base: nat, head: nat, fs: seq<Slot>)
    requires SlotChain(s, base, head, fs)
    requires forall f :: f in fs ==> Roomy(t, f.block, f.off + 8) && Word(t, f.block, f.off) == Word(s, f.block, f.off)
    ensures SlotChain(t, base, head, fs)
    decreases |fs|
  {
    hide Roomy, Word;
    if fs != [] {
      assert fs[0] in fs;
      forall f | f in fs[1..] ensures f in fs {
      }
      SlotChainFrame(s, t, base, Word(s, fs[0].block, fs[0].off), fs[1..]);
    }
  }

  ghost predicate Clear(f: Slot, b: nat, off: nat, n: nat) {
    f.block != b || f.off + 8 <= off || off + n <= f.off
  }

  lemma SpliceWord(s: Store, b: nat, off: nat, bytes: seq<byte>, f: Slot)
    requires Roomy(s, b, off + |bytes|) && Clear(f, b, off, |bytes|) && Roomy(s, f.block, f.off + 8)
    ensures var t := s[b := Splice(s[b], off, bytes)];
            Roomy(t, f.block, f.off + 8) && Word(t, f.block, f.off) == Word(s, f.block, f.off)
  {
    if f.block == b {
      SpliceFrame(s[b], off, bytes, f.off, f.off + 8);
    }
  }

  /** Bytes written clear of every free link keep the chain. */
  lemma SlotChainSplice(s: Store, base: nat, head: nat, fs: seq<Slot>, b: nat, off: nat, bytes: seq<byte>)
    requires SlotChain(s, base, head, fs) && Roomy(s, b, off + |bytes|)
    requires forall f :: f in fs ==> Clear(f, b, off, |bytes|)
    ensures SlotChain(s[b := Splice(s[b], off, bytes)], base, head, fs)
  {
    var t := s[b := Splice(s[b], off, bytes)];
    SlotChainRoomy(s, base, head, fs);
    hide Roomy, Word, Splice, Clear, SlotChain;
    forall f | f in fs
      ensures Roomy(t, f.block, f.off + 8) && Word(t, f.block, f.off) == Word(s, f.block, f.off)
    {
      SpliceWord(s, b, off, bytes, f);
    }
    SlotChainFrame(s, t, base, head, fs);
  }

  lemma {:induction false} SlotChainRoomy(s: Store, base: nat, head: nat, fs: seq<Slot>)
    requires SlotChain(s, base, head, fs)
    ensures forall f :: f in fs ==> Roomy(s, f.block, f.off + 8)
    decreases |fs|
  {
    hide Roomy, Word;
    if fs != [] {
      SlotChainRoomy(s, base, Word(s, fs[0].block, fs[0].off), fs[1..]);
      forall f | f in fs ensures Roomy(s, f.block, f.off + 8) {
        assert f == fs[0] || f in fs[1..];
      }
    }
  }

  /** Writing head into slot f and making f the head pushes f. */
  lemma SlotChainPush(s: Store, base: nat, head: nat, fs: seq<Slot>, f: Slot)
    requires SlotChain(s, base, head, fs) && Roomy(s, f.block, f.off + 8) && head < WORD
    requires forall g :: g in fs ==> Clear(g, f.block, f.off, 8)
    ensures SlotChain(s[f.block := PutWord(s[f.block], f.off, head)], base, base + f.block + f.off, [f] + fs)
  {
    var t := s[f.block := PutWord(s[f.block], f.off, head)];
    SlotChainSplice(s, base, head, fs, f.block, f.off, Encode(head, 8));
    GetPutSame(s[f.block], f.off, head);
    hide PutWord, Encode;
    assert Word(t, f.block, f.off) == head;
    assert ([f] + fs)[1..] == fs;
  }

  // ----- the slots of the pages -----------------------------------------------------------

  /** The first n slots of a page, last first: the order in which they end up on
      the free list. */
  function PageSlots(block: nat, size: nat, n: nat): (fs: seq<Slot>)
    ensures |fs| == n
    decreases n
  {
    if n == 0 then [] else [Slot(block, Times(n - 1, size))] + PageSlots(block, size, n - 1)
  }

  /** Slot n - 1 comes first and slot 0 last. */
  lemma {:induction false} PageSlotsOrder(block: nat, size: nat, n: nat, i: nat)
    requires i < n
    ensures PageSlots(block, size, n)[i] == Slot(block, Times(n - 1 - i, size))
    decreases n
  {
    hide Times;
    if i > 0 {
      PageSlotsOrder(block, size, n - 1, i - 1);
    }
  }

  function AllSlots(ps: seq<Page>, size: nat, n: nat): (fs: seq<Slot>)
    decreases |ps|
  {
    if ps == [] then [] else PageSlots(ps[0].objects, size, n) + AllSlots(ps[1..], size, n)
  }

  lemma {:induction false} AllSlotsCount(ps: seq<Page>, size: nat, n: nat)
    ensures |AllSlots(ps, size, n)| == Times(|ps|, n)
    decreases |ps|
  {
    hide Times;
    if ps == [] {
      TimesSucc(0, n);
    } else {
      AllSlotsCount(ps[1..], size, n);
      TimesSucc(|ps| - 1, n);
    }
  }

  lemma {:induction false} PageSlotsIn(block: nat, size: nat, n: nat, f: Slot) returns (j: nat)
    requires f in PageSlots(block, size, n)
    ensures f.block == block && j < n && f.off == Times(j, size)
    ensures f.off + size <= Times(n, size)
    decreases n
  {
    hide Times;
    TimesSucc(n - 1, size);
    if f == PageSlots(block, size, n)[0] {
      j := n - 1;
    } else {
      assert f in PageSlots(block, size, n - 1);
      j := PageSlotsIn(block, size, n - 1, f);
    }
  }

  lemma {:induction false} AllSlotsIn(ps: seq<Page>, size: nat, n: nat, f: Slot) returns (i: nat, j: nat)
    requires f in AllSlots(ps, size, n)
    ensures i < |ps| && f.block == ps[i].objects && j < n && f.off == Times(j, size)
    ensures f.off + size <= Times(n, size)
    decreases |ps|
  {
    hide Times, PageSlots;
    if f in PageSlots(ps[0].objects, size, n) {
      i := 0;
      j := PageSlotsIn(ps[0].objects, size, n, f);
    } else {
      i, j := AllSlotsIn(ps[1..], size, n, f);
      i := i + 1;
    }
  }

  /** Slot j of page i is one of the slots. */
  lemma {:induction false} AllSlotsHas(ps: seq<Page>, size: nat, n: nat, i: nat, j: nat)
    requires i < |ps| && j < n
    ensures Slot(ps[i].objects, Times(j, size)) in AllSlots(ps, size, n)
    decreases i
  {
    hide Times;
    if i == 0 {
      PageSlotsAt(ps[0].objects, size, n, j);
    } else {
      AllSlotsHas(ps[1..], size, n, i - 1, j);
    }
  }

  lemma {:induction false} PageSlotsAt(block: nat, size: nat, n: nat, j: nat)
    requires j < n
    ensures Slot(block, Times(j, size)) in PageSlots(block, size, n)
    decreases n
  {
    hide Times;
    if j < n - 1 {
      PageSlotsAt(block, size, n - 1, j);
    }
  }

  lemma {:induction false} PageSlotsNoDup(block: nat, size: nat, n: nat)
    requires size > 0
    ensures NoDup(PageSlots(block, size, n))
    decreases n
  {
    hide Times;
    if n > 0 {
      var rest := PageSlots(block, size, n - 1);
      PageSlotsNoDup(block, size, n - 1);
      forall f | f in rest ensures f.off < Times(n - 1, size) {
        var j := PageSlotsIn(block, size, n - 1, f);
      }
    }
  }

  /** The blocks a slab holds: its struct, its page headers, its objects. */
  function PageBlocks(ps: seq<Page>): (bs: seq<nat>)
    ensures |bs| == |ps|
  {
    seq(|ps|, i requires 0 <= i < |ps| => ps[i].page)
  }

  function ObjectBlocks(ps: seq<Page>): (bs: seq<nat>)
    ensures |bs| == |ps|
  {
    seq(|ps|, i requires 0 <= i < |ps| => ps[i].objects)
  }

  function Blocks(self: nat, ps: seq<Page>): (bs: seq<nat>) {
    [self] + PageBlocks(ps) + ObjectBlocks(ps)
  }

  lemma {:induction false} AllSlotsNoDup(ps: seq<Page>, size: nat, n: nat)
    requires size > 0 && NoDup(ObjectBlocks(ps))
    ensures NoDup(AllSlots(ps, size, n))
    decreases |ps|
  {
    hide Times;
    if ps != [] {
      var first, rest := PageSlots(ps[0].objects, size, n), AllSlots(ps[1..], size, n);
      assert forall i :: 0 <= i < |ps| - 1 ==> ObjectBlocks(ps[1..])[i] == ObjectBlocks(ps)[i + 1];
      AllSlotsNoDup(ps[1..], size, n);
      PageSlotsNoDup(ps[0].objects, size, n);
      forall f, g | f in first && g in rest ensures f != g {
        var _ := PageSlotsIn(ps[0].objects, size, n, f);
        var i, _ := AllSlotsIn(ps[1..], size, n, g);
        assert ObjectBlocks(ps)[0] != ObjectBlocks(ps)[i + 1];
      }
      NoDupConcat(first, rest);
    }
  }

  lemma NoDupConcat<T>(a: seq<T>, b: seq<T>)
    requires NoDup(a) && NoDup(b) && forall x, y :: x in a && y in b ==> x != y
    ensures NoDup(a + b)
  {
    forall i, j | 0 <= i < j < |a + b| ensures (a + b)[i] != (a + b)[j] {
      if i < |a| <= j {
        assert a[i] in a && b[j - |a|] in b;
      }
    }
  }

  /** Two different slots do not overlap. */
  lemma SlotsDisjoint(ps: seq<Page>, size: nat, n: nat, f: Slot, g: Slot)
    requires size > 0 && f in AllSlots(ps, size, n) && g in AllSlots(ps, size, n) && f != g
    ensures f.block != g.block || f.off + size <= g.off || g.off + size <= f.off
  {
    hide AllSlots, Times;
    var i, j := AllSlotsIn(ps, size, n, f);
    var k, l := AllSlotsIn(ps, size, n, g);
    if f.block == g.block {
      if j < l {
        TimesMono(j + 1, l, size);
        TimesSucc(j, size);
      } else {
        TimesMono(l + 1, j, size);
        TimesSucc(l, size);
      }
    }
  }

  // ----- the slab invariant -----------------------------------------------------------------

  /** The slab with struct self, free list head and page list head pages: the pages
      are ps, the free slots fs in list order, the slots in use us. Every slot of
      every page is in use or free, and not both. */
  ghost predicate SlabOk(s: Store, base: nat, self: nat, head: nat, pages: nat,
                         ps: seq<Page>, fs: seq<Slot>, us: set<Slot>, size: nat, n: nat)
  {
    && size >= 8 && n >= 1
    && Roomy(s, self, SLAB_STRUCT)
    && PageChain(s, base, pages, ps, Times(n, size))
    && SlotChain(s, base, head, fs)
    && NoDup(Blocks(self, ps))
    && multiset(us) + multiset(fs) == multiset(AllSlots(ps, size, n))
  }

  lemma {:induction false} PageChainAt(s: Store, base: nat, head: nat, ps: seq<Page>, room: nat, i: nat)
    requires PageChain(s, base, head, ps, room) && i < |ps|
    ensures Roomy(s, ps[i].page, PAGE_STRUCT) && Roomy(s, ps[i].objects, room)
    decreases i
  {
    hide Roomy, Word;
    if i > 0 {
      PageChainAt(s, base, Word(s, ps[0].page, 8), ps[1..], room, i - 1);
    }
  }

  lemma BlockIndex(self: nat, ps: seq<Page>, i: nat)
    requires i < |ps|
    ensures |Blocks(self, ps)| == 1 + 2 * |ps|
    ensures Blocks(self, ps)[0] == self
    ensures Blocks(self, ps)[1 + i] == ps[i].page
    ensures Blocks(self, ps)[1 + |ps| + i] == ps[i].objects
  {
  }

  /** Every block of the slab is one of the store. */
  lemma BlocksStored(s: Store, base: nat, self: nat, pages: nat, ps: seq<Page>, room: nat)
    requires Roomy(s, self, SLAB_STRUCT) && PageChain(s, base, pages, ps, room)
    ensures forall b :: b in Blocks(self, ps) ==> b in s
  {
    hide PageChain;
    forall b | b in Blocks(self, ps) ensures b in s {
      var i :| 0 <= i < |Blocks(self, ps)| && Blocks(self, ps)[i] == b;
      if 1 <= i <= |ps| {
        BlockIndex(self, ps, i - 1);
        PageChainAt(s, base, pages, ps, room, i - 1);
      } else if i > |ps| {
        BlockIndex(self, ps, i - 1 - |ps|);
        PageChainAt(s, base, pages, ps, room, i - 1 - |ps|);
      }
    }
  }

  lemma ObjectsNoDup(self: nat, ps: seq<Page>)
    requires NoDup(Blocks(self, ps))
    ensures NoDup(ObjectBlocks(ps))
    ensures forall i, j :: 0 <= i < |ps| && 0 <= j < |ps| ==> ps[i].page != ps[j].objects
    ensures forall i :: 0 <= i < |ps| ==> ps[i].objects != self && ps[i].page != self
  {
    var bs := Blocks(self, ps);
    forall i, j | 0 <= i < j < |ps| ensures ObjectBlocks(ps)[i] != ObjectBlocks(ps)[j] {
      assert bs[1 + |ps| + i] != bs[1 + |ps| + j];
    }
    forall i, j | 0 <= i < |ps| && 0 <= j < |ps| ensures ps[i].page != ps[j].objects {
      assert bs[1 + i] != bs[1 + |ps| + j];
    }
    forall i | 0 <= i < |ps| ensures ps[i].objects != self && ps[i].page != self {
      assert bs[0] != bs[1 + |ps| + i] && bs[0] != bs[1 + i];
    }
  }

  /** A slot in use or free belongs to a page, and is held once. */
  lemma SlotHeld(ps: seq<Page>, fs: seq<Slot>, us: set<Slot>, size: nat, n: nat, f: Slot)
    requires size > 0 && NoDup(ObjectBlocks(ps))
    requires multiset(us) + multiset(fs) == multiset(AllSlots(ps, size, n))
    requires f in us || f in fs
    ensures f in AllSlots(ps, size, n)
    ensures f in us ==> f !in fs
    ensures multiset(fs)[f] <= 1
  {
    hide AllSlots;
    AllSlotsNoDup(ps, size, n);
    NoDupBag(AllSlots(ps, size, n));
    var all := multiset(us) + multiset(fs);
    assert f in all;
    assert all[f] == multiset(us)[f] + multiset(fs)[f];
  }

  /** used_objects and the free list add up to all slots of all pages. */
  lemma SlotCount(ps: seq<Page>, fs: seq<Slot>, us: set<Slot>, size: nat, n: nat)
    requires multiset(us) + multiset(fs) == multiset(AllSlots(ps, size, n))
    ensures |us| + |fs| == Times(|ps|, n)
  {
    hide AllSlots;
    AllSlotsCount(ps, size, n);
    assert |multiset(us) + multiset(fs)| == |multiset(AllSlots(ps, size, n))|;
  }

  /** Slots in use never overlap one another, nor a free slot. */
  lemma HeldSlotsDisjoint(ps: seq<Page>, fs: seq<Slot>, us: set<Slot>, size: nat, n: nat, f: Slot, g: Slot)
    requires size >= 8 && NoDup(ObjectBlocks(ps))
    requires multiset(us) + multiset(fs) == multiset(AllSlots(ps, size, n))
    requires f in us && (g in us || g in fs) && f != g
    ensures f.block != g.block || f.off + size <= g.off || g.off + size <= f.off
  {
    hide AllSlots;
    SlotHeld(ps, fs, us, size, n, f);
    SlotHeld(ps, fs, us, size, n, g);
    SlotsDisjoint(ps, size, n, f, g);
  }

  // ----- steps --------------------------------------------------------------------------------

  /** Everything outside the blocks of the slab. */
  ghost function Outside(s: Store, bs: seq<nat>): (r: Store) {
    map b | b in s && b !in bs :: s[b]
  }

  lemma SlabFrame(s: Store, t: Store, base: nat, self: nat, head: nat, pages: nat,
                  ps: seq<Page>, fs: seq<Slot>, us: set<Slot>, size: nat, n: nat)
    requires SlabOk(s, base, self, head, pages, ps, fs, us, size, n)
    requires forall b :: b in Blocks(self, ps) ==> b in t && (b in s ==> t[b] == s[b])
    ensures SlabOk(t, base, self, head, pages, ps, fs, us, size, n)
  {
    hide AllSlots, Times, PageChain, SlotChain, Blocks;
    BlocksStored(s, base, self, pages, ps, Times(n, size));
    ObjectsNoDup(self, ps);
    assert self in Blocks(self, ps) by { SelfInBlocks(self, ps); }
    forall p | p in ps
      ensures p.page in t && p.page in s && t[p.page] == s[p.page]
      ensures p.objects in t && p.objects in s && t[p.objects] == s[p.objects]
      ensures Roomy(t, p.objects, Times(n, size))
    {
      var i :| 0 <= i < |ps| && ps[i] == p;
      PageInBlocks(self, ps, i);
      PageChainAt(s, base, pages, ps, Times(n, size), i);
    }
    PageChainFrame(s, t, base, pages, ps, Times(n, size));
    SlotChainRoomy(s, base, head, fs);
    forall f | f in fs
      ensures Roomy(t, f.block, f.off + 8) && Word(t, f.block, f.off) == Word(s, f.block, f.off)
    {
      SlotHeld(ps, fs, us, size, n, f);
      var i, _ := AllSlotsIn(ps, size, n, f);
      assert ps[i] in ps;
    }
    SlotChainFrame(s, t, base, head, fs);
  }

  lemma SelfInBlocks(self: nat, ps: seq<Page>)
    ensures self in Blocks(self, ps)
  {
    assert Blocks(self, ps)[0] == self;
  }

  lemma PageInBlocks(self: nat, ps: seq<Page>, i: nat)
    requires i < |ps|
    ensures ps[i].page in Blocks(self, ps) && ps[i].objects in Blocks(self, ps)
  {
    BlockIndex(self, ps, i);
  }

  /** Bytes written into an objects block, clear of the free links, keep the slab. */
  lemma SlabSplice(s: Store, base: nat, self: nat, head: nat, pages: nat, ps: seq<Page>, fs: seq<Slot>,
                   us: set<Slot>, size: nat, n: nat, i: nat, off: nat, bytes: seq<byte>)
    requires SlabOk(s, base, self, head, pages, ps, fs, us, size, n)
    requires i < |ps| && off + |bytes| <= Times(n, size)
    requires forall f :: f in fs ==> Clear(f, ps[i].objects, off, |bytes|)
    ensures Roomy(s, ps[i].objects, off + |bytes|)
    ensures SlabOk(s[ps[i].objects := Splice(s[ps[i].objects], off, bytes)],
                   base, self, head, pages, ps, fs, us, size, n)
  {
    hide AllSlots, Times, PageChain, SlotChain, Blocks, Splice, Clear, NoDup;
    var b := ps[i].objects;
    PageChainAt(s, base, pages, ps, Times(n, size), i);
    SlotChainSplice(s, base, head, fs, b, off, bytes);
    PageChainSplice(s, base, self, pages, ps, Times(n, size), i, off, bytes);
  }

  lemma PageChainSplice(s: Store, base: nat, self: nat, pages: nat, ps: seq<Page>, room: nat,
                        i: nat, off: nat, bytes: seq<byte>)
    requires PageChain(s, base, pages, ps, room) && NoDup(Blocks(self, ps))
    requires i < |ps| && Roomy(s, ps[i].objects, off + |bytes|) && Roomy(s, self, SLAB_STRUCT)
    ensures var t := s[ps[i].objects := Splice(s[ps[i].objects], off, bytes)];
            PageChain(t, base, pages, ps, room) && Roomy(t, self, SLAB_STRUCT)
  {
    hide PageChain, Blocks, Splice;
    ObjectsNoDup(self, ps);
    var t := s[ps[i].objects := Splice(s[ps[i].objects], off, bytes)];
    forall p | p in ps
      ensures p.page in t && p.page in s && t[p.page] == s[p.page]
      ensures Roomy(t, p.objects, room)
    {
      var j :| 0 <= j < |ps| && ps[j] == p;
      PageChainAt(s, base, pages, ps, room, j);
    }
    PageChainFrame(s, t, base, pages, ps, room);
  }

  lemma MoveToFree(all: multiset<Slot>, us: set<Slot>, fs: seq<Slot>, f: Slot)
    requires multiset(us) + multiset(fs) == all && f in us
    ensures multiset(us - {f}) + multiset([f] + fs) == all
  {
    assert multiset(us) == multiset(us - {f}) + multiset{f} by {
      assert us == (us - {f}) + {f};
    }
  }

  lemma MoveToUsed(all: multiset<Slot>, us: set<Slot>, fs: seq<Slot>)
    requires multiset(us) + multiset(fs) == all && fs != [] && fs[0] !in us
    ensures multiset(us + {fs[0]}) + multiset(fs[1..]) == all
  {
    assert fs == [fs[0]] + fs[1..];
  }

  /** slab_free: a slot in use gets the old head as its link and becomes the head. */
  lemma FreeStep(s: Store, base: nat, self: nat, head: nat, pages: nat, ps: seq<Page>, fs: seq<Slot>,
                 us: set<Slot>, size: nat, n: nat, f: Slot)
    requires SlabOk(s, base, self, head, pages, ps, fs, us, size, n) && f in us && head < WORD
    ensures Roomy(s, f.block, f.off + 8) && f.block in Blocks(self, ps)
    ensures SlabOk(s[f.block := PutWord(s[f.block], f.off, head)], base, self, base + f.block + f.off, pages,
                   ps, [f] + fs, us - {f}, size, n)
  {
    hide AllSlots, Times, PageChain, SlotChain, Blocks, PutWord, NoDup, Roomy;
    ObjectsNoDup(self, ps);
    SlotHeld(ps, fs, us, size, n, f);
    var i, j := AllSlotsIn(ps, size, n, f);
    PageInBlocks(self, ps, i);
    PageChainAt(s, base, pages, ps, Times(n, size), i);
    RoomyLess(s, f.block, Times(n, size), f.off + 8);
    forall g | g in fs ensures Clear(g, f.block, f.off, 8) {
      HeldSlotsDisjoint(ps, fs, us, size, n, f, g);
    }
    SlotChainPush(s, base, head, fs, f);
    PutIsSplice(s, f, head);
    PageChainSplice(s, base, self, pages, ps, Times(n, size), i, f.off, Encode(head, 8));
    MoveToFree(multiset(AllSlots(ps, size, n)), us, fs, f);
  }

  lemma PutIsSplice(s: Store, f: Slot, v: nat)
    requires Roomy(s, f.block, f.off + 8)
    ensures |Encode(v, 8)| == 8 && PutWord(s[f.block], f.off, v) == Splice(s[f.block], f.off, Encode(v, 8))
  {
  }

  lemma RoomyLess(s: Store, b: nat, n: nat, m: nat)
    requires Roomy(s, b, n) && m <= n
    ensures Roomy(s, b, m)
  {
  }

  /** slab_allocate: the head slot goes into use, its link becomes the head. */
  lemma PopStep(s: Store, base: nat, self: nat, head: nat, pages: nat, ps: seq<Page>, fs: seq<Slot>,
                us: set<Slot>, size: nat, n: nat)
    requires SlabOk(s, base, self, head, pages, ps, fs, us, size, n) && base > 0
    ensures head == 0 <==> fs == []
    ensures fs != [] ==>
              && head == base + fs[0].block + fs[0].off
              && Roomy(s, fs[0].block, fs[0].off + 8) && fs[0] !in us && fs[0] in AllSlots(ps, size, n)
              && SlabOk(s, base, self, Word(s, fs[0].block, fs[0].off), pages, ps, fs[1..], us + {fs[0]}, size, n)
  {
    hide AllSlots, Times, PageChain, Blocks, NoDup, Roomy, Word;
    ObjectsNoDup(self, ps);
    if fs != [] {
      assert fs[0] in fs;
      SlotHeld(ps, fs, us, size, n, fs[0]);
      MoveToUsed(multiset(AllSlots(ps, size, n)), us, fs);
    }
  }

  ghost function SlotSet(fs: seq<Slot>): (r: set<Slot>) {
    set f | f in fs
  }

  /** The store after a page header pg and an objects block ob came to be and the
      header was filled in. */
  ghost predicate PageAdded(s: Store, t: Store, base: nat, pages: nat, pg: nat, ob: nat, room: nat) {
    && pg !in s && ob !in s && pg != ob
    && t.Keys == s.Keys + {pg, ob}
    && (forall b :: b in s ==> t[b] == s[b])
    && Roomy(t, pg, PAGE_STRUCT) && Roomy(t, ob, room)
    && Word(t, pg, 0) == base + ob && Word(t, pg, 8) == pages
  }

  lemma BlocksCons(self: nat, ps: seq<Page>, p: Page, bs: set<nat>)
    requires NoDup(Blocks(self, ps)) && (forall b :: b in Blocks(self, ps) ==> b in bs)
    requires p.page !in bs && p.objects !in bs && p.page != p.objects
    ensures NoDup(Blocks(self, [p] + ps))
    ensures forall b :: b in Blocks(self, [p] + ps) <==> b in Blocks(self, ps) || b == p.page || b == p.objects
  {
    var qs := [p] + ps;
    var pb, ob := PageBlocks(ps), ObjectBlocks(ps);
    assert PageBlocks(qs) == [p.page] + pb;
    assert ObjectBlocks(qs) == [p.objects] + ob;
    var oldBs, newBs := Blocks(self, ps), Blocks(self, qs);
    assert newBs == [self, p.page] + pb + [p.objects] + ob;
    assert oldBs == [self] + pb + ob;
    forall i, j | 0 <= i < j < |newBs| ensures newBs[i] != newBs[j] {
      var i', j' := OldIndex(i, |ps|), OldIndex(j, |ps|);
      assert i' >= 0 ==> newBs[i] == oldBs[i'];
      assert j' >= 0 ==> newBs[j] == oldBs[j'];
    }
  }

  /** Where a block of the longer list was in the shorter one, or -1. */
  function OldIndex(i: nat, n: nat): (j: int) {
    if i == 0 then 0 else if i == 1 || i == 2 + n then -1 else if i < 2 + n then i - 1 else i - 2
  }

  lemma PageSlotsSet(block: nat, size: nat, n: nat, us: set<Slot>)
    requires size > 0 && forall f :: f in us ==> f.block != block
    ensures multiset(us + SlotSet(PageSlots(block, size, n))) == multiset(us) + multiset(PageSlots(block, size, n))
  {
    var fs := PageSlots(block, size, n);
    PageSlotsNoDup(block, size, n);
    NoDupBag(fs);
    forall f | f in us ensures f !in fs {
      if f in fs {
        var _ := PageSlotsIn(block, size, n, f);
      }
    }
    hide PageSlots;
    assert us !! SlotSet(fs);
  }

  /** A page added to a slab, with all of its slots in use for the moment. */
  lemma PageStep(s: Store, t: Store, base: nat, self: nat, head: nat, pages: nat, ps: seq<Page>, fs: seq<Slot>,
                 us: set<Slot>, size: nat, n: nat, pg: nat, ob: nat)
    requires SlabOk(s, base, self, head, pages, ps, fs, us, size, n)
    requires PageAdded(s, t, base, pages, pg, ob, Times(n, size))
    ensures SlabOk(t, base, self, head, base + pg, [Page(pg, ob)] + ps, fs,
                   us + SlotSet(PageSlots(ob, size, n)), size, n)
    ensures Outside(t, Blocks(self, [Page(pg, ob)] + ps)) == Outside(s, Blocks(self, ps))
    ensures forall f :: f in us || f in fs ==> f !in PageSlots(ob, size, n)
  {
    hide Times, SlotChain, Blocks, NoDup, PageSlots, Word;
    var p := Page(pg, ob);
    BlocksStored(s, base, self, pages, ps, Times(n, size));
    ObjectsNoDup(self, ps);
    BlocksCons(self, ps, p, s.Keys);
    SlabFrame(s, t, base, self, head, pages, ps, fs, us, size, n);
    assert ([p] + ps)[1..] == ps;
    forall f | f in us || f in fs ensures f.block != ob && f !in PageSlots(ob, size, n) {
      SlotHeld(ps, fs, us, size, n, f);
      var i, _ := AllSlotsIn(ps, size, n, f);
      PageInBlocks(self, ps, i);
      if f in PageSlots(ob, size, n) {
        var _ := PageSlotsIn(ob, size, n, f);
      }
    }
    PageSlotsSet(ob, size, n, us);
  }

  // ----- threading a new page -----------------------------------------------------------------

  /** The slots in use while the first i slots of the new page are on the free list. */
  ghost function InUse(us: set<Slot>, ob: nat, size: nat, n: nat, i: nat): (r: set<Slot>) {
    us + (SlotSet(PageSlots(ob, size, n)) - SlotSet(PageSlots(ob, size, i)))
  }

  lemma {:induction false} PageSlotsHas(ob: nat, size: nat, n: nat, i: nat)
    requires i < n
    ensures Slot(ob, Times(i, size)) in PageSlots(ob, size, n)
    decreases n
  {
    hide Times;
    if i < n - 1 {
      PageSlotsHas(ob, size, n - 1, i);
    }
  }

  lemma ThreadSlot(us: set<Slot>, fs: seq<Slot>, ob: nat, size: nat, n: nat, i: nat)
    requires i < n && size > 0 && forall f :: f in us ==> f !in PageSlots(ob, size, n)
    ensures var f := Slot(ob, Times(i, size));
            && f in InUse(us, ob, size, n, i)
            && InUse(us, ob, size, n, i) - {f} == InUse(us, ob, size, n, i + 1)
            && [f] + (PageSlots(ob, size, i) + fs) == PageSlots(ob, size, i + 1) + fs
  {
    hide Times;
    var f := Slot(ob, Times(i, size));
    PageSlotsHas(ob, size, n, i);
    if f in PageSlots(ob, size, i) {
      var _ := PageSlotsIn(ob, size, i, f);
    }
    ThreadSets(us, fs, f, PageSlots(ob, size, n), PageSlots(ob, size, i), PageSlots(ob, size, i + 1));
  }

  lemma ThreadSets(us: set<Slot>, fs: seq<Slot>, f: Slot, all: seq<Slot>, before: seq<Slot>, after: seq<Slot>)
    requires f in all && f !in before && f !in us && after == [f] + before
    ensures f in us + (SlotSet(all) - SlotSet(before))
    ensures (us + (SlotSet(all) - SlotSet(before))) - {f} == us + (SlotSet(all) - SlotSet(after))
    ensures [f] + (before + fs) == after + fs
  {
    assert SlotSet(after) == SlotSet(before) + {f};
  }

  lemma ThreadEnds(us: set<Slot>, fs: seq<Slot>, ob: nat, size: nat, n: nat)
    ensures InUse(us, ob, size, n, n) == us
    ensures InUse(us, ob, size, n, 0) == us + SlotSet(PageSlots(ob, size, n))
    ensures PageSlots(ob, size, 0) + fs == fs
  {
    assert SlotSet(PageSlots(ob, size, 0)) == {};
  }

  /** The store after pool_allocate for the header and for the objects, and the two
      words written into the header. */
  lemma PageAddedIs(s0: Store, s1: Store, s2: Store, base: nat, pages: nat, pg: nat, ob: nat, room: nat)
    requires pg !in s0 && pg in s1 && s1 == s0[pg := s1[pg]] && |s1[pg]| >= PAGE_STRUCT
    requires ob !in s1 && ob in s2 && s2 == s1[ob := s2[ob]] && |s2[ob]| >= room
    requires base + ob < WORD && pages < WORD
    ensures var s3 := s2[pg := PutWord(s2[pg], 0, base + ob)];
            PageAdded(s0, s3[pg := PutWord(s3[pg], 8, pages)], base, pages, pg, ob, room)
  {
    var m := s2[pg];
    var m1 := PutWord(m, 0, base + ob);
    GetPutSame(m, 0, base + ob);
    GetPutSame(m1, 8, pages);
    GetPutOther(m1, 8, pages, 0);
    hide PutWord;
  }

  lemma ChainHeadIsWord(s: Store, base: nat, head: nat, fs: seq<Slot>)
    requires SlotChain(s, base, head, fs) && forall b :: b in s ==> base + b + |s[b]| <= WORD
    ensures head < WORD
  {
  }

  lemma PagesIsWord(s: Store, base: nat, head: nat, ps: seq<Page>, room: nat)
    requires PageChain(s, base, head, ps, room) && forall b :: b in s ==> base + b + |s[b]| <= WORD
    ensures head < WORD
  {
  }

  lemma OutsideSame(s: Store, t: Store, bs: seq<nat>, b: nat)
    requires b in bs && b in s && b in t && t == s[b := t[b]]
    ensures Outside(t, bs) == Outside(s, bs)
  {
  }

  /** Bytes written into a slot in use. */
  lemma WriteStep(s: Store, base: nat, self: nat, head: nat, pages: nat, ps: seq<Page>, fs: seq<Slot>,
                  us: set<Slot>, size: nat, n: nat, f: Slot, off: nat, bytes: seq<byte>)
    requires SlabOk(s, base, self, head, pages, ps, fs, us, size, n) && f in us
    requires f.off <= off && off + |bytes| <= f.off + size
    ensures Roomy(s, f.block, off + |bytes|) && f.block in Blocks(self, ps)
    ensures SlabOk(s[f.block := Splice(s[f.block], off, bytes)], base, self, head, pages, ps, fs, us, size, n)
  {
    hide AllSlots, Times, PageChain, SlotChain, Blocks, Splice, NoDup, Roomy;
    ObjectsNoDup(self, ps);
    SlotHeld(ps, fs, us, size, n, f);
    var i, j := AllSlotsIn(ps, size, n, f);
    PageInBlocks(self, ps, i);
    forall g | g in fs ensures Clear(g, f.block, off, |bytes|) {
      SlotHeld(ps, fs, us, size, n, f);
      HeldSlotsDisjoint(ps, fs, us, size, n, f, g);
    }
    SlabSplice(s, base, self, head, pages, ps, fs, us, size, n, i, off, bytes);
  }

  // ----- destroying ---------------------------------------------------------------------------

  lemma NewSlabOutside(s: Store, t: Store, self: nat)
    requires self !in s && self in t && t == s[self := t[self]] && |t[self]| >= SLAB_STRUCT
    ensures Roomy(t, self, SLAB_STRUCT) && Outside(t, Blocks(self, [])) == s
  {
    assert Blocks(self, []) == [self];
  }

  lemma BlocksTail(self: nat, ps: seq<Page>)
    requires ps != [] && NoDup(Blocks(self, ps))
    ensures NoDup(Blocks(self, ps[1..]))
    ensures ps[0].page != ps[0].objects && ps[0].page != self && ps[0].objects != self
    ensures ps[0].page !in Blocks(self, ps[1..]) && ps[0].objects !in Blocks(self, ps[1..])
    ensures forall b :: b in Blocks(self, ps) <==>
                        b in Blocks(self, ps[1..]) || b == ps[0].page || b == ps[0].objects
  {
    var n := |ps| - 1;
    var pb, ob := PageBlocks(ps[1..]), ObjectBlocks(ps[1..]);
    assert PageBlocks(ps) == [ps[0].page] + pb;
    assert ObjectBlocks(ps) == [ps[0].objects] + ob;
    var long, short := Blocks(self, ps), Blocks(self, ps[1..]);
    assert long == [self, ps[0].page] + pb + [ps[0].objects] + ob;
    assert short == [self] + pb + ob;
    assert long[0] == self && long[1] == ps[0].page && long[2 + n] == ps[0].objects;
    forall i | 0 <= i < |short| ensures short[i] == long[NewIndex(i, n)] {
    }
    forall i, j | 0 <= i < j < |short| ensures short[i] != short[j] {
      assert long[NewIndex(i, n)] != long[NewIndex(j, n)];
    }
    forall i | 0 <= i < |short| ensures short[i] != ps[0].page && short[i] != ps[0].objects {
      assert long[NewIndex(i, n)] == short[i];
    }
  }

  /** Where a block of the shorter list is in the longer one. */
  function NewIndex(i: nat, n: nat): (j: nat) {
    if i == 0 then 0 else if i <= n then i + 1 else i + 2
  }

  /** Freeing the first page: its objects, then its header. */
  lemma DropPage(s: Store, base: nat, self: nat, head: nat, ps: seq<Page>, room: nat)
    requires PageChain(s, base, head, ps, room) && head != 0
    requires NoDup(Blocks(self, ps)) && Roomy(s, self, SLAB_STRUCT)
    ensures ps != [] && head == base + ps[0].page
    ensures ps[0].page in s && 16 <= |s[ps[0].page]| && ps[0].objects in s && ps[0].page != ps[0].objects
    ensures GetWord(s[ps[0].page], 0) == base + ps[0].objects
    ensures var t := s - {ps[0].objects} - {ps[0].page};
            && PageChain(t, base, GetWord(s[ps[0].page], 8), ps[1..], room)
            && NoDup(Blocks(self, ps[1..])) && Roomy(t, self, SLAB_STRUCT)
            && Outside(t, Blocks(self, ps[1..])) == Outside(s, Blocks(self, ps))
  {
    hide Blocks, PageChain, Word, Outside, GetWord, NoDup;
    PageChainHead(s, base, head, ps, room);
    BlocksTail(self, ps);
    var t := s - {ps[0].objects} - {ps[0].page};
    var next := Word(s, ps[0].page, 8);
    ObjectsNoDup(self, ps);
    forall p | p in ps[1..]
      ensures p.page in t && p.page in s && t[p.page] == s[p.page]
      ensures Roomy(t, p.objects, room)
    {
      var i :| 0 <= i < |ps[1..]| && ps[1..][i] == p;
      PageChainAt(s, base, next, ps[1..], room, i);
      PageInBlocks(self, ps[1..], i);
    }
    PageChainFrame(s, t, base, next, ps[1..], room);
    DropOutside(s, self, ps);
  }

  lemma PageChainHead(s: Store, base: nat, head: nat, ps: seq<Page>, room: nat)
    requires PageChain(s, base, head, ps, room) && head != 0
    ensures ps != [] && head == base + ps[0].page
    ensures ps[0].page in s && 16 <= |s[ps[0].page]| && ps[0].objects in s
    ensures GetWord(s[ps[0].page], 0) == base + ps[0].objects
    ensures Word(s, ps[0].page, 8) == GetWord(s[ps[0].page], 8)
    ensures PageChain(s, base, Word(s, ps[0].page, 8), ps[1..], room)
  {
    hide GetWord;
  }

  lemma DropOutside(s: Store, self: nat, ps: seq<Page>)
    requires ps != [] && ps[0].page in s && ps[0].objects in s
    requires ps[0].page !in Blocks(self, ps[1..]) && ps[0].objects !in Blocks(self, ps[1..])
    requires forall b :: b in Blocks(self, ps) <==>
                         b in Blocks(self, ps[1..]) || b == ps[0].page || b == ps[0].objects
    ensures Outside(s - {ps[0].objects} - {ps[0].page}, Blocks(self, ps[1..])) == Outside(s, Blocks(self, ps))
  {
    hide Blocks;
  }

  lemma DropSelf(s: Store, base: nat, self: nat, ps: seq<Page>, room: nat)
    requires PageChain(s, base, 0, ps, room) && base > 0 && Roomy(s, self, SLAB_STRUCT)
    ensures self in s && s - {self} == Outside(s, Blocks(self, ps))
  {
    assert ps == [];
    assert Blocks(self, []) == [self];
  }
}
