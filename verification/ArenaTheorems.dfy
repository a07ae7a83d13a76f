/** What the arena invariant says about the memory handed out, for every state the
    operations of ArenaContext can reach. */
module ArenaTheorems {
  import opened Words
  import opened FreeLists
  import opened ArenaTheory
  import opened ArenaWorld
  import opened ArenaSteps

  /** All requests of an arena since its last reset, oldest first. */
  ghost function Requests(logs: seq<Log>): (r: seq<Req>)
    decreases |logs|
  {
    if logs == [] then [] else Requests(logs[..|logs| - 1]) + logs[|logs| - 1].reqs
  }

  /** An allocation adds one request to its arena and moves none: not the earlier ones
      of the same arena, not those of others, whether or not the arena grew. One that
      grew the arena in vain adds none. */
  lemma AllocationExtends(w: World, v: World, a: nat, m: nat, ptr: nat, size: nat, align: nat)
    requires a in w.logs && w.logs[a] != [] && a in w.chains && align > 0
    requires PlacedIn(w, v, a, ptr, size, align) || GrownFor(w, v, a, m, ptr, size, align)
    ensures v.logs.Keys == w.logs.Keys
    ensures ptr != 0 ==> Requests(v.logs[a]) == Requests(w.logs[a]) + [Req(ptr, size, align)]
    ensures ptr == 0 ==> Requests(v.logs[a]) == Requests(w.logs[a]) || PlacedIn(w, v, a, ptr, size, align)
    ensures forall x :: x in w.logs && x != a ==> v.logs[x] == w.logs[x]
    ensures a in v.chains && w.chains[a] <= v.chains[a]
  {
    hide Place, LogOk;
    var before, after := w.logs[a], v.logs[a];
    var n := |before| - 1;
    if PlacedIn(w, v, a, ptr, size, align) {
      assert after[..n] == before[..n];
      assert after[n].reqs == before[n].reqs + [Req(ptr, size, align)];
    } else {
      assert after[..n + 1] == before;
    }
  }

  /** Chunk i of arena a: a mapping of its own, with its memory past the headers. */
  lemma ChunkHome(w: World, page: nat, a: nat, i: nat)
    requires Inv(w, page, {}, {}) && a in w.chains && i < |w.chains[a]|
    ensures a in w.logs && |w.logs[a]| == |w.chains[a]|
    ensures var b, l := w.chains[a][i], w.logs[a][i];
            && b in w.mapped && b in w.owner && w.owner[b] == a
            && b < l.base && l.base + l.cap == b + w.mapped[b] && LogOk(l)
  {
    hide Chain, NoDup, LogOk, Spilled;
    assert ArenaOk(w, a, page);
    assert ChunkOk(w, a, w.chains[a][i], w.logs[a][i]);
    assert LogOk(w.logs[a][i]);
  }

  /** Every range handed out is aligned as asked and lies in the used part of its chunk. */
  lemma RequestHome(w: World, page: nat, a: nat, i: nat, x: nat)
    requires Inv(w, page, {}, {}) && a in w.chains && a in w.logs && i < |w.chains[a]| && i < |w.logs[a]|
    requires x < |w.logs[a][i].reqs|
    ensures var l := w.logs[a][i]; var r := l.reqs[x];
            && r.align > 0 && r.lo % r.align == 0 && r.size > 0
            && l.base <= r.lo && r.lo + r.size <= l.base + l.used && l.used <= l.cap
  {
    hide Inv;
    ChunkHome(w, page, a, i);
    RequestInside(w.logs[a][i].base, w.logs[a][i].reqs, x);
    RequestSized(w.logs[a][i].base, w.logs[a][i].reqs, x);
  }

  lemma {:induction false} RequestSized(base: nat, reqs: seq<Req>, x: nat)
    requires Packed(base, reqs) && x < |reqs|
    ensures reqs[x].size > 0
    decreases |reqs|
  {
    if x < |reqs| - 1 {
      RequestSized(base, reqs[..|reqs| - 1], x);
    }
  }

  lemma DifferentBlocks(w: World, page: nat, a: nat, i: nat, c: nat, j: nat)
    requires Inv(w, page, {}, {}) && a in w.chains && c in w.chains && i < |w.chains[a]| && j < |w.chains[c]|
    requires a != c || i != j
    ensures w.chains[a][i] != w.chains[c][j]
    ensures MappedOk(w.mapped)
  {
    hide LogsOk, Chain, ChunkOk, CacheOk, MappedOk;
    ChunkHome(w, page, a, i);
    ChunkHome(w, page, c, j);
    assert ArenaOk(w, a, page);
  }

  /** Two ranges handed out since the last reset of their arenas never overlap, in
      whichever chunks of whichever arenas they are. */
  lemma RequestsApart(w: World, page: nat, a: nat, i: nat, x: nat, c: nat, j: nat, y: nat)
    requires Inv(w, page, {}, {}) && a in w.chains && c in w.chains && a in w.logs && c in w.logs
    requires i < |w.chains[a]| && i < |w.logs[a]| && x < |w.logs[a][i].reqs|
    requires j < |w.chains[c]| && j < |w.logs[c]| && y < |w.logs[c][j].reqs|
    requires a != c || i != j || x != y
    ensures var r, s := w.logs[a][i].reqs[x], w.logs[c][j].reqs[y];
            r.lo + r.size <= s.lo || s.lo + s.size <= r.lo
  {
    hide Inv, LogOk;
    ChunkHome(w, page, a, i);
    ChunkHome(w, page, c, j);
    if a == c && i == j {
      LogPacked(w.logs[a][i]);
      RequestsDisjoint(w.logs[a][i].base, w.logs[a][i].reqs, if x < y then x else y, if x < y then y else x);
    } else {
      RequestHome(w, page, a, i, x);
      RequestHome(w, page, c, j, y);
      DifferentBlocks(w, page, a, i, c, j);
      assert MapsApart(w.mapped, w.chains[a][i], w.chains[c][j]);
    }
  }

  lemma LogPacked(l: Log)
    requires LogOk(l)
    ensures Packed(l.base, l.reqs)
  {
  }

  /** The current chunk is the one chunk of the chain without a successor, and the chain
      visits no chunk twice. */
  lemma CurrentIsLast(w: World, page: nat, a: nat, i: nat)
    requires Inv(w, page, {}, {}) && a in w.chains && i < |w.chains[a]|
    ensures NoDup(w.chains[a]) && w.chains[a][i] in w.chunks && a in w.arenas
    ensures w.chunks[w.chains[a][i]].next == 0 <==> w.chains[a][i] == w.arenas[a].currentChunk
  {
    hide LogsOk, ChunkOk, Owning;
    assert ArenaOk(w, a, page);
    var chain := w.chains[a];
    ChainNext(w.chunks, a, chain, i);
    if i + 1 < |chain| {
      ChainNext(w.chunks, a, chain, i + 1);
    }
  }

  /** Every mapping is owned by exactly one arena, or kept by the cache, never both. */
  lemma OneOwner(w: World, page: nat, b: nat)
    requires Inv(w, page, {}, {}) && b in w.mapped
    ensures Cached(w, b) <==> b !in w.owner
    ensures b in w.owner ==> w.owner[b] in w.chains && b in w.chains[w.owner[b]]
    ensures forall a :: a in w.chains && b in w.chains[a] ==> b in w.owner && w.owner[b] == a
  {
    hide LogsOk, Chain, NoDup, MappedOk, CacheOk;
    if b in w.owner {
      assert ArenaOk(w, w.owner[b], page);
    }
    forall a | a in w.chains && b in w.chains[a] ensures b in w.owner && w.owner[b] == a {
      assert ArenaOk(w, a, page);
      var i :| 0 <= i < |w.chains[a]| && w.chains[a][i] == b;
      assert ChunkOk(w, a, w.chains[a][i], w.logs[a][i]);
    }
  }

  /** The chunk an arena grew by is a stray one exactly when size + alignment wrapped
      around; it then holds nothing, and the request got no address. */
  lemma StrayExactly(w: World, v: World, page: nat, a: nat, m: nat, ptr: nat, size: nat, align: nat)
    requires Inv(w, page, {}, {}) && Inv(v, page, {}, {}) && a in w.chains && page > 0
    requires 0 < size < WORD && 0 < align < WORD
    requires PlaceLast(w, a, size, align).None? && GrowLast(w, a, WrapAdd(size, align), page) == Some(m)
    requires GrownFor(w, v, a, m, ptr, size, align)
    ensures a in v.logs && |v.logs[a]| == |w.logs[a]| + 1
    ensures var l := v.logs[a][|w.logs[a]|];
            && (l.stray <==> size + align >= WORD) && (l.stray <==> l.reqs == []) && (l.stray <==> ptr == 0)
  {
    hide Inv, Place, GrowSize, GrownLog;
    var b := v.arenas[a].currentChunk;
    GrownLogIs(b, m, size, align);
    LastChunk(w, page, {}, a);
    GrownBlock(v, page, a, b, m);
    ListedLogs(w, page, a);
    GrowKeepsLogs(w.logs[a], page, w.arenas[a].maxChunkSize, size, align, b, m);
  }

  lemma ListedLogs(w: World, page: nat, a: nat)
    requires Inv(w, page, {}, {}) && a in w.chains
    ensures a in w.logs && LogsOk(w.logs[a], page)
  {
    hide Owning, LogsOk, Chain, NoDup, ChunksOk, BlocksIn, RequestCount;
    assert ArenaOk(w, a, page);
  }

  lemma GrownBlock(v: World, page: nat, a: nat, b: nat, m: nat)
    requires Inv(v, page, {}, {}) && b in v.owned && v.owned[b] == m
    ensures b > 0 && b + m < WORD
  {
    hide ArenaOk;
  }

  /** With D the sum of size plus alignment since the last reset, an arena of several
      chunks, none of them stray, holds less than 2 * D bytes before its last chunk, and
      the last is smaller than twice its predecessor or the request that opened it, plus
      a page. */
  lemma ArenaSpace(w: World, page: nat, a: nat)
    requires Inv(w, page, {}, {}) && a in w.chains
    ensures a in w.logs && w.logs[a] != []
    ensures |w.logs[a]| > 1 && NoStray(w.logs[a]) ==>
              TotalCap(w.logs[a][..|w.logs[a]| - 1]) < 2 * TotalWeight(w.logs[a])
    ensures |w.logs[a]| > 1 && NoStray(w.logs[a]) ==>
              var prev, last := w.logs[a][|w.logs[a]| - 2], w.logs[a][|w.logs[a]| - 1];
              && last.reqs != []
              && var d := last.reqs[0].size + last.reqs[0].align;
                 last.cap < (if 2 * prev.cap > d then 2 * prev.cap else d) + page
  {
    hide Owning, Chain, NoDup, ChunkOk, LogsOk, NoStray;
    assert ArenaOk(w, a, page);
    LogsNonempty(w.logs[a], page);
    if |w.logs[a]| > 1 && NoStray(w.logs[a]) {
      AmortisedSpace(w.logs[a], page);
    }
  }

  lemma LogsNonempty(logs: seq<Log>, page: nat)
    requires LogsOk(logs, page)
    ensures logs != []
  {
  }

  // ----- the block cache ---------------------------------------------------------------------

  /** A block released while there was room is there for the next request of its size. */
  lemma ReleasedIsStocked(w: World, b: nat)
    requires b in w.mapped && |w.cache| < CACHE_SIZE
    ensures Stocked(Released(w, b), w.mapped[b])
  {
    hide Released;
    assert Released(w, b).cache[|w.cache|] == Entry(b, w.mapped[b]);
  }

  /** After an arena was destroyed, the next requests for mappings of the sizes it had are
      answered from the cache, as many as there was room for: chunk i of its chain, counted
      from the second on, the first one last. */
  lemma DestroyedIsStocked(w: World, v: World, a: nat, i: nat)
    requires Destroyed(w, v, a) && i < |w.chains[a]| && w.chains[a][0] == a
    requires |w.cache| + (if i == 0 then |w.chains[a]| else i) <= CACHE_SIZE
    ensures w.chains[a][i] in w.owned ==> Stocked(v, w.owned[w.chains[a][i]])
  {
    var chain := w.chains[a];
    var released := chain[1..] + [a];
    var at := if i == 0 then |chain| - 1 else i - 1;
    assert released[at] == chain[i];
    var all := w.cache + EntriesOf(w.owned, released);
    assert all[|w.cache| + at] == EntriesOf(w.owned, released)[at];
    assert v.cache[|w.cache| + at] == all[|w.cache| + at];
  }

  /** An arena with one block, destroyed while the cache had room, makes the next arena
      whose first block has the same size without asking the kernel. */
  lemma DestroyThenCreate(w: World, v: World, x: World, page: nat, a: nat, b: nat, capacity: nat, h: Header)
    requires Inv(w, page, {}, {}) && Destroyed(w, v, a) && w.chains[a] == [a] && |w.cache| < CACHE_SIZE
    requires FirstSize(capacity, page).Some? && a in w.owned && w.owned[a] == FirstSize(capacity, page).value
    requires NewArena(v, x, b, capacity, page, h) && x.owned[b] == FirstSize(capacity, page).value
    ensures Stocked(v, FirstSize(capacity, page).value)
    ensures x.mapped == v.mapped
    ensures !Stocked(w, w.owned[a]) ==> b == a
  {
    hide Inv, FirstSize, CacheWithout;
    DestroyedIsStocked(w, v, a, 0);
    assert w.chains[a][1..] + [a] == [a];
    assert v.cache == w.cache + [Entry(a, w.owned[a])];
  }
}
