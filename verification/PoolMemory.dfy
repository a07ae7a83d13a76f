/** How the region memory, the page map and the magazines represent an abstract
    heap: links inside freed blocks, metadata in front of large payloads. */
module PoolMemory {
  import opened Words
  import opened SizeClasses
  import opened FreeLists
  import opened Extents
  import opened Heaps
  import opened HeapSteps
  import opened HeapOps

  /** The free-list struct: a pointer array of which the first count entries are
      in use, and the address of the first block of the overflow list, or 0. */
  datatype Magazine = Magazine(mag: seq<nat>, count: nat, head: nat)

  /** Address stored for block p of kind k: its first byte, metadata included. */
  function Addr(base: nat, k: nat, p: nat): (a: nat) {
    if p >= Meta(k) then base + p - Meta(k) else 0
  }

  /** The address a call answers: NULL for no block. */
  function PtrOf(base: nat, p: Option<nat>): (a: nat) {
    if p.Some? then base + p.value else 0
  }

  ghost predicate MagOk(f: FreeList, c: Magazine, base: nat, k: nat) {
    && |c.mag| == MAG_SIZE
    && c.count == |f.mag| <= MAG_SIZE
    && forall i {:trigger c.mag[i]} {:trigger f.mag[i]} :: 0 <= i < |f.mag| ==> c.mag[i] == Addr(base, k, f.mag[i])
  }

  ghost predicate HasWord(mem: seq<byte>, o: int) {
    0 <= o && o + 8 <= |mem|
  }

  ghost function WordAt(mem: seq<byte>, o: int): (v: nat) {
    if HasWord(mem, o) then GetWord(mem, o) else 0
  }

  /** Following the links from head visits exactly the blocks of spill, in order,
      and ends at NULL. */
  ghost predicate Chain(mem: seq<byte>, base: nat, k: nat, head: nat, spill: seq<nat>)
    decreases |spill|
  {
    if spill == [] then head == 0
    else
      && spill[0] >= Meta(k)
      && HasWord(mem, spill[0] - Meta(k))
      && head == Addr(base, k, spill[0])
      && Chain(mem, base, k, WordAt(mem, spill[0] - Meta(k)), spill[1..])
  }

  /** In front of a large payload: its user size while live, then the length of
      its block for ever. */
  ghost predicate MetaOk(h: Heap, mem: seq<byte>, p: nat) {
    && HasWord(mem, p - 16) && HasWord(mem, p - 8)
    && p in h.blocks
    && WordAt(mem, p - 8) == h.blocks[p].len
    && (p in h.live ==> WordAt(mem, p - 16) == h.live[p])
  }

  ghost predicate ListOk(h: Heap, base: nat, mem: seq<byte>, pools: seq<Magazine>, k: nat) {
    && k < |h.free| && k < |pools|
    && MagOk(h.free[k], pools[k], base, k)
    && Chain(mem, base, k, pools[k].head, h.free[k].spill)
  }

  ghost predicate TagsOk(h: Heap, tags: seq<byte>) {
    && h.page > 0
    && |tags| * h.page >= h.total
    && forall q {:trigger tags[q]} :: 0 <= q < |tags| ==> tags[q] == PageTag(h.extents, q)
  }

  ghost predicate Rep(h: Heap, base: nat, mem: seq<byte>, pools: seq<Magazine>) {
    && base > 0 && base + h.total <= WORD
    && |mem| == h.total
    && |pools| == |h.free| == LISTS
    && (forall k {:trigger ListOk(h, base, mem, pools, k)} {:trigger pools[k]} {:trigger h.free[k]} ::
          0 <= k < LISTS ==> ListOk(h, base, mem, pools, k))
    && (forall p {:trigger MetaOk(h, mem, p)} {:trigger p in h.blocks} ::
          p in h.blocks && h.blocks[p].k == LARGE ==> MetaOk(h, mem, p))
  }

  // ----- writes that leave the representation alone -------------------------------

  ghost predicate SameBlock(h: Heap, m: seq<byte>, n: seq<byte>, q: nat) {
    && q in h.blocks
    && |m| == |n| && 0 <= Lo(h.blocks, q) <= Hi(h.blocks, q) <= |m|
    && n[Lo(h.blocks, q)..Hi(h.blocks, q)] == m[Lo(h.blocks, q)..Hi(h.blocks, q)]
  }

  /** Every byte of every block but p is as before. */
  ghost predicate SameExcept(h: Heap, m: seq<byte>, n: seq<byte>, p: int) {
    && |m| == |n|
    && forall q {:trigger SameBlock(h, m, n, q)} {:trigger q in h.blocks} ::
         q in h.blocks && q != p ==> SameBlock(h, m, n, q)
  }

  lemma SliceOfSlice(m: seq<byte>, n: seq<byte>, lo: int, hi: int, a: int, b: int)
    requires |m| == |n| && 0 <= lo <= a <= b <= hi <= |m| && n[lo..hi] == m[lo..hi]
    ensures n[a..b] == m[a..b]
  {
    forall i | a <= i < b ensures n[i] == m[i] {
      assert n[lo..hi][i - lo] == m[lo..hi][i - lo];
    }
  }

  lemma SameBlockWord(h: Heap, m: seq<byte>, n: seq<byte>, q: nat, o: int)
    requires SameBlock(h, m, n, q) && Lo(h.blocks, q) <= o && o + 8 <= Hi(h.blocks, q)
    ensures HasWord(m, o) && HasWord(n, o) && WordAt(n, o) == WordAt(m, o)
  {
    SliceOfSlice(m, n, Lo(h.blocks, q), Hi(h.blocks, q), o, o + 8);
  }

  /** A word written inside block p changes no other block. */
  lemma WriteInBlock(h: Heap, m: seq<byte>, p: nat, o: nat, v: nat)
    requires Geometry(h.blocks, 0, |m|) && p in h.blocks
    requires Lo(h.blocks, p) <= o && o + 8 <= Hi(h.blocks, p)
    ensures o + 8 <= |m|
    ensures SameExcept(h, m, PutWord(m, o, v), p)
  {
    assert Within(h.blocks, p, 0, |m|);
    forall q | q in h.blocks && q != p ensures SameBlock(h, m, PutWord(m, o, v), q) {
      assert Within(h.blocks, q, 0, |m|);
      assert Apart(h.blocks, p, q);
      hide PutWord, BlockOk;
      PutWordFrame(m, o, v, Lo(h.blocks, q), Hi(h.blocks, q));
    }
  }

  /** A word written past every block changes none. */
  lemma WritePastBump(h: Heap, m: seq<byte>, o: nat, v: nat)
    requires Geometry(h.blocks, 0, h.bump) && h.bump <= o && o + 8 <= |m|
    ensures SameExcept(h, m, PutWord(m, o, v), -1)
  {
    forall q | q in h.blocks ensures SameBlock(h, m, PutWord(m, o, v), q) {
      assert Within(h.blocks, q, 0, h.bump);
      hide PutWord, BlockOk;
      PutWordFrame(m, o, v, Lo(h.blocks, q), Hi(h.blocks, q));
    }
  }

  lemma SameExceptTransitive(h: Heap, a: seq<byte>, b: seq<byte>, c: seq<byte>, p: int)
    requires SameExcept(h, a, b, p) && SameExcept(h, b, c, p)
    ensures SameExcept(h, a, c, p)
  {
    forall q | q in h.blocks && q != p ensures SameBlock(h, a, c, q) {
      assert SameBlock(h, a, b, q) && SameBlock(h, b, c, q);
    }
  }

  lemma {:induction false} ChainFrame(m: seq<byte>, n: seq<byte>, base: nat, k: nat, head: nat, spill: seq<nat>)
    requires Chain(m, base, k, head, spill)
    requires forall i :: 0 <= i < |spill| ==>
               HasWord(n, spill[i] - Meta(k)) && WordAt(n, spill[i] - Meta(k)) == WordAt(m, spill[i] - Meta(k))
    ensures Chain(n, base, k, head, spill)
    decreases |spill|
  {
    if spill != [] {
      hide WordAt, HasWord, Addr;
      assert forall i :: 0 <= i < |spill[1..]| ==> spill[1..][i] == spill[i + 1];
      ChainFrame(m, n, base, k, WordAt(m, spill[0] - Meta(k)), spill[1..]);
    }
  }

  /** The blocks on the overflow lists are carved, and p is not one of them. */
  ghost predicate SpillsAvoid(h: Heap, p: int) {
    && |h.free| == LISTS
    && forall k, i {:trigger h.free[k].spill[i]} :: 0 <= k < LISTS && 0 <= i < |h.free[k].spill| ==>
         && h.free[k].spill[i] in h.blocks
         && h.blocks[h.free[k].spill[i]].k == k
         && h.free[k].spill[i] != p
  }

  lemma LimboAvoided(h: Heap, k: nat, limbo: multiset<nat>, p: int)
    requires Limbo(h, k, limbo) && k < LISTS
    requires p < 0 || p in limbo || p in h.live
    ensures SpillsAvoid(h, p)
  {
    if p >= 0 && p in limbo {
      LimboIsUnheld(h, k, limbo, p);
    }
    hide Shape, BlocksOf, Held;
    assert |h.free| == LISTS by { LimboAt(h, k, limbo, k); }
    forall j, i | 0 <= j < LISTS && 0 <= i < |h.free[j].spill|
      ensures h.free[j].spill[i] in h.blocks && h.blocks[h.free[j].spill[i]].k == j && h.free[j].spill[i] != p
    {
      var q := h.free[j].spill[i];
      assert q in h.free[j].Bag();
      FreeIsUnheld(h, k, limbo, j, q);
    }
  }

  lemma ListKept(h: Heap, base: nat, m: seq<byte>, n: seq<byte>, pools: seq<Magazine>, p: int, k: nat)
    requires ListOk(h, base, m, pools, k) && k < LISTS && Geometry(h.blocks, 0, h.bump)
    requires SameExcept(h, m, n, p) && SpillsAvoid(h, p)
    ensures ListOk(h, base, n, pools, k)
  {
    var spill := h.free[k].spill;
    forall i | 0 <= i < |spill|
      ensures HasWord(n, spill[i] - Meta(k)) && WordAt(n, spill[i] - Meta(k)) == WordAt(m, spill[i] - Meta(k))
    {
      var q := h.free[k].spill[i];
      assert Within(h.blocks, q, 0, h.bump);
      assert SameBlock(h, m, n, q);
      SameBlockWord(h, m, n, q, Lo(h.blocks, q));
    }
    ChainFrame(m, n, base, k, pools[k].head, spill);
  }

  lemma MetaKept(h: Heap, m: seq<byte>, n: seq<byte>, q: nat)
    requires MetaOk(h, m, q) && SameBlock(h, m, n, q) && h.blocks[q].k == LARGE && BlockOk(h.blocks[q])
    ensures MetaOk(h, n, q)
  {
    SameBlockWord(h, m, n, q, q - 8);
    SameBlockWord(h, m, n, q, q - 16);
  }

  /** A write confined to block p, which no overflow list links through, leaves
      the representation intact when the metadata of p is right afterwards. */
  lemma RepKept(h: Heap, base: nat, m: seq<byte>, n: seq<byte>, pools: seq<Magazine>, p: int)
    requires Rep(h, base, m, pools) && Geometry(h.blocks, 0, h.bump)
    requires SameExcept(h, m, n, p) && SpillsAvoid(h, p)
    requires p >= 0 && p in h.blocks && h.blocks[p].k == LARGE ==> MetaOk(h, n, p)
    ensures Rep(h, base, n, pools)
  {
    hide SpillsAvoid;
    forall k | 0 <= k < LISTS ensures ListOk(h, base, n, pools, k) {
      assert ListOk(h, base, m, pools, k);
      ListKept(h, base, m, n, pools, p, k);
    }
    forall q | q in h.blocks && h.blocks[q].k == LARGE ensures MetaOk(h, n, q) {
      if q != p {
        assert MetaOk(h, m, q) && SameBlock(h, m, n, q) && Within(h.blocks, q, 0, h.bump);
        MetaKept(h, m, n, q);
      }
    }
  }

  // ----- the free-list steps, concretely --------------------------------------------

  function PushMag(c: Magazine, a: nat): (r: Magazine)
    requires c.count < |c.mag|
  {
    c.(mag := c.mag[c.count := a], count := c.count + 1)
  }

  /** Pushing where the magazine has room writes no memory. */
  lemma PushMagRep(h: Heap, base: nat, m: seq<byte>, pools: seq<Magazine>, k: nat, p: nat)
    requires Rep(h, base, m, pools) && k < LISTS && pools[k].count < MAG_SIZE
    ensures |pools[k].mag| == MAG_SIZE
    ensures Rep(PutFree(h, k, p), base, m, pools[k := PushMag(pools[k], Addr(base, k, p))])
  {
    assert ListOk(h, base, m, pools, k);
    var g, pools' := PutFree(h, k, p), pools[k := PushMag(pools[k], Addr(base, k, p))];
    forall j | 0 <= j < LISTS ensures ListOk(g, base, m, pools', j) {
      assert ListOk(h, base, m, pools, j);
    }
    forall q | q in g.blocks && g.blocks[q].k == LARGE ensures MetaOk(g, m, q) {
      assert MetaOk(h, m, q);
    }
  }

  /** Pushing past the magazine links the block in front of the overflow list. */
  lemma PushSpillRep(h: Heap, base: nat, m: seq<byte>, pools: seq<Magazine>, k: nat, p: nat)
    requires Rep(h, base, m, pools) && k < LISTS && pools[k].count >= MAG_SIZE
    requires p >= Meta(k) && HasWord(m, p - Meta(k)) && WordAt(m, p - Meta(k)) == pools[k].head
    ensures Rep(PutFree(h, k, p), base, m, pools[k := pools[k].(head := Addr(base, k, p))])
  {
    assert ListOk(h, base, m, pools, k);
    var g, pools' := PutFree(h, k, p), pools[k := pools[k].(head := Addr(base, k, p))];
    assert g.free[k].spill[1..] == h.free[k].spill;
    hide WordAt, HasWord;
    forall j | 0 <= j < LISTS ensures ListOk(g, base, m, pools', j) {
      assert ListOk(h, base, m, pools, j);
    }
    forall q | q in g.blocks && g.blocks[q].k == LARGE ensures MetaOk(g, m, q) {
      assert MetaOk(h, m, q);
      SameMeta(h, g, m, q);
    }
  }

  lemma SameMeta(h: Heap, g: Heap, m: seq<byte>, q: nat)
    requires MetaOk(h, m, q) && q in g.blocks && g.blocks[q] == h.blocks[q]
    requires q in g.live ==> q in h.live && g.live[q] == h.live[q]
    ensures MetaOk(g, m, q)
  {
  }

  /** The free-list struct after a pop, and the address popped. */
  ghost function PopMag(c: Magazine, base: nat, m: seq<byte>): (r: (Magazine, nat)) {
    if 0 < c.count <= |c.mag| then (c.(count := c.count - 1), c.mag[c.count - 1])
    else if c.head != 0 then (c.(head := WordAt(m, c.head - base)), c.head)
    else (c, 0)
  }

  lemma PopList(h: Heap, base: nat, m: seq<byte>, pools: seq<Magazine>, k: nat)
    requires ListOk(h, base, m, pools, k) && base > 0
    ensures |pools[k].mag| == MAG_SIZE && pools[k].count <= MAG_SIZE
    ensures var (g, p) := TakeFree(h, k);
            && ListOk(g, base, m, pools[k := PopMag(pools[k], base, m).0], k)
            && (p.Some? ==> PopMag(pools[k], base, m).1 == Addr(base, k, p.value))
            && (p.None? ==> PopMag(pools[k], base, m) == (pools[k], 0))
    ensures pools[k].count == 0 && pools[k].head != 0 ==>
              base <= pools[k].head && HasWord(m, pools[k].head - base)
  {
    hide WordAt, HasWord;
  }

  /** Popping: the address returned is that of the popped block. */
  lemma PopRep(h: Heap, base: nat, m: seq<byte>, pools: seq<Magazine>, k: nat)
    requires Rep(h, base, m, pools) && k < LISTS
    ensures Rep(TakeFree(h, k).0, base, m, pools[k := PopMag(pools[k], base, m).0])
  {
    assert ListOk(h, base, m, pools, k);
    var g, pools' := TakeFree(h, k).0, pools[k := PopMag(pools[k], base, m).0];
    PopList(h, base, m, pools, k);
    hide PopMag, MagOk, Chain, FreeList.Pop;
    forall j | 0 <= j < LISTS ensures ListOk(g, base, m, pools', j) {
      assert ListOk(h, base, m, pools, j);
    }
    forall q | q in g.blocks && g.blocks[q].k == LARGE ensures MetaOk(g, m, q) {
      assert MetaOk(h, m, q);
      SameMeta(h, g, m, q);
    }
  }

  // ----- carving, handing out, taking back --------------------------------------------

  lemma ListSame(h: Heap, g: Heap, base: nat, m: seq<byte>, pools: seq<Magazine>, k: nat)
    requires ListOk(h, base, m, pools, k) && g.free == h.free
    ensures ListOk(g, base, m, pools, k)
  {
  }

  lemma CarveRep(h: Heap, base: nat, m: seq<byte>, pools: seq<Magazine>, k: nat, n: nat)
    requires Rep(h, base, m, pools) && k < LISTS
    requires h.blocks.Keys !! Cut(k, h.bump, n * h.page).Keys
    requires h.live.Keys <= h.blocks.Keys
    requires k == LARGE ==>
               && HasWord(m, h.bump) && HasWord(m, h.bump + 8)
               && WordAt(m, h.bump + 8) == n * h.page
    ensures Rep(Carve(h, k, n), base, m, pools)
  {
    var g := Carve(h, k, n);
    hide WordAt, HasWord, MagOk, Chain;
    forall j | 0 <= j < LISTS ensures ListOk(g, base, m, pools, j) {
      assert ListOk(h, base, m, pools, j);
      ListSame(h, g, base, m, pools, j);
    }
    CutKinds(k, h.bump, n * h.page);
    forall q | q in g.blocks && g.blocks[q].k == LARGE ensures MetaOk(g, m, q) {
      if q in h.blocks {
        assert MetaOk(h, m, q);
        SameMeta(h, g, m, q);
      }
    }
  }

  lemma LiveRep(h: Heap, g: Heap, base: nat, m: seq<byte>, pools: seq<Magazine>)
    requires Rep(h, base, m, pools) && g == h.(live := g.live, stats := g.stats)
    requires forall q :: q in g.live && q in h.blocks && h.blocks[q].k == LARGE ==>
               (q in h.live && g.live[q] == h.live[q]) || WordAt(m, q - 16) == g.live[q]
    ensures Rep(g, base, m, pools)
  {
    hide WordAt, HasWord, MagOk, Chain;
    forall j | 0 <= j < LISTS ensures ListOk(g, base, m, pools, j) {
      assert ListOk(h, base, m, pools, j);
      ListSame(h, g, base, m, pools, j);
    }
    forall q | q in g.blocks && g.blocks[q].k == LARGE ensures MetaOk(g, m, q) {
      assert MetaOk(h, m, q);
    }
  }

  // ----- payloads ---------------------------------------------------------------------

  function Bytes(mem: seq<byte>, p: nat, n: nat): (s: seq<byte>) {
    if p + n <= |mem| then mem[p..p + n] else []
  }

  /** What callers have stored: the bytes of every live block. */
  function Contents(h: Heap, mem: seq<byte>): (m: map<nat, seq<byte>>) {
    map p | p in h.live :: Bytes(mem, p, h.live[p])
  }

  /** A live payload lies in its block. */
  lemma LiveRoom(h: Heap, q: nat)
    requires Shape(h) && q in h.live
    ensures q in h.blocks && 0 <= Lo(h.blocks, q) <= q && q + h.live[q] <= Hi(h.blocks, q)
  {
    hide Tiled, Carved;
    assert LiveFits(h, q);
    assert Within(h.blocks, q, 0, h.bump);
  }

  lemma PayloadKept(h: Heap, m: seq<byte>, n: seq<byte>, p: int, q: nat)
    requires Shape(h) && SameExcept(h, m, n, p) && q in h.live && q != p
    ensures Bytes(n, q, h.live[q]) == Bytes(m, q, h.live[q])
  {
    hide Shape;
    LiveRoom(h, q);
    assert SameBlock(h, m, n, q);
    SliceOfSlice(m, n, Lo(h.blocks, q), Hi(h.blocks, q), q, q + h.live[q]);
  }

  /** A write confined to a block that is not live changes no live payload. */
  lemma ContentsKept(h: Heap, m: seq<byte>, n: seq<byte>, p: int)
    requires Shape(h) && SameExcept(h, m, n, p) && (p < 0 || p !in h.live)
    ensures Contents(h, n) == Contents(h, m)
  {
    forall q | q in h.live ensures Bytes(n, q, h.live[q]) == Bytes(m, q, h.live[q]) {
      PayloadKept(h, m, n, p, q);
    }
  }

  /** A write confined to live block p changes no other live payload. */
  lemma ContentsExcept(h: Heap, m: seq<byte>, n: seq<byte>, p: nat)
    requires Shape(h) && SameExcept(h, m, n, p) && p in h.live
    ensures Contents(h, n) == Contents(h, m)[p := Bytes(n, p, h.live[p])]
  {
    forall q | q in h.live && q != p ensures Bytes(n, q, h.live[q]) == Bytes(m, q, h.live[q]) {
      PayloadKept(h, m, n, p, q);
    }
  }

  /** Bytes replaced inside the payload of p leave all other blocks alone. */
  lemma SpliceInBlock(h: Heap, m: seq<byte>, p: nat, o: nat, s: seq<byte>)
    requires Geometry(h.blocks, 0, |m|) && p in h.blocks && LiveFits(h, p)
    requires p <= o && o + |s| <= p + h.live[p]
    ensures p + h.live[p] <= |m|
    ensures SameExcept(h, m, Splice(m, o, s), p)
  {
    assert Within(h.blocks, p, 0, |m|);
    forall q | q in h.blocks && q != p ensures SameBlock(h, m, Splice(m, o, s), q) {
      assert Within(h.blocks, q, 0, |m|);
      assert Apart(h.blocks, p, q);
      hide Splice, BlockOk;
      SpliceFrame(m, o, s, Lo(h.blocks, q), Hi(h.blocks, q));
    }
  }

  /** They leave the words in front of the payload alone, too. */
  lemma SpliceKeepsMeta(h: Heap, m: seq<byte>, p: nat, o: nat, s: seq<byte>)
    requires MetaOk(h, m, p) && p <= o && o + |s| <= |m|
    ensures MetaOk(h, Splice(m, o, s), p)
  {
    SpliceFrame(m, o, s, p - 8, p);
    SpliceFrame(m, o, s, p - 16, p - 8);
    hide Splice;
  }
}
