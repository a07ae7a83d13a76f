/** Who owns which mapping: the chunk chains of the arenas, the block cache of the
    context, and the kernel's view of what is mapped. */
module ArenaWorld {
  import opened Words
  import opened Kernel
  import opened FreeLists
  import opened ArenaTheory
  import opened Sums

  const CACHE_SIZE: nat := 4

  /** A chunk header. Chunks are named by the address of the mapping that holds
      them; next is 0 at the end of the chain. */
  datatype Chunk = Chunk(next: nat, mmapSize: nat, capacity: nat, used: nat, memoryStart: nat)

  /** An arena header, which lies in the first mapping of its arena. */
  datatype Header = Header(
    firstChunk: nat, currentChunk: nat, allocationCount: nat,
    initialChunkSize: nat, maxChunkSize: nat, growable: bool)

  datatype Entry = Entry(block: nat, mmapSize: nat)

  /** mapped: what the kernel has mapped. chunks, arenas: the headers that can be
      read; releasing a mapping removes the headers in it. cache: the blocks the
      context keeps. owned, owner: size and arena of each block in use. chains,
      logs: the chunks of each arena and the requests placed in them. */
  datatype World = World(
    mapped: map<nat, nat>, chunks: map<nat, Chunk>, arenas: map<nat, Header>, cache: seq<Entry>,
    owned: map<nat, nat>, owner: map<nat, nat>,
    chains: map<nat, seq<nat>>, logs: map<nat, seq<Log>>)

  // ----- mappings ---------------------------------------------------------------------------

  ghost predicate MapsApart(m: map<nat, nat>, b: nat, c: nat) {
    b in m && c in m ==> b + m[b] <= c || c + m[c] <= b
  }

  ghost predicate MappedOk(m: map<nat, nat>) {
    && (forall b {:trigger m[b]} {:trigger b in m} :: b in m ==> b > 0 && m[b] > 0 && b + m[b] < WORD)
    && (forall b, c {:trigger MapsApart(m, b, c)} :: b in m && c in m && b != c ==> MapsApart(m, b, c))
  }

  ghost predicate Cached(w: World, b: nat) {
    exists i {:trigger w.cache[i]} :: 0 <= i < |w.cache| && w.cache[i].block == b
  }

  ghost predicate CacheOk(w: World) {
    && |w.cache| <= CACHE_SIZE
    && (forall i {:trigger w.cache[i]} :: 0 <= i < |w.cache| ==>
          w.cache[i].block in w.mapped && w.mapped[w.cache[i].block] == w.cache[i].mmapSize)
    && (forall i, j {:trigger w.cache[i], w.cache[j]} :: 0 <= i < j < |w.cache| ==>
          w.cache[i].block != w.cache[j].block)
  }

  /** Every mapping is owned by an arena, or cached, or in limbo, and only one of
      the three. closing: arenas being taken apart. */
  ghost predicate Owning(w: World, limbo: set<nat>, closing: set<nat>) {
    && MappedOk(w.mapped) && CacheOk(w)
    && w.owned.Keys == w.owner.Keys
    && (forall b {:trigger b in w.mapped} :: b in w.mapped <==> b in w.owned || Cached(w, b) || b in limbo)
    && (forall b {:trigger b in w.owned} :: b in w.owned ==> !Cached(w, b) && b !in limbo && w.owned[b] == w.mapped[b])
    && (forall b {:trigger b in limbo} :: b in limbo ==> !Cached(w, b))
    && (forall b {:trigger w.owner[b]} :: b in w.owner ==> w.owner[b] in w.chains || w.owner[b] in closing)
  }

  // ----- arenas -----------------------------------------------------------------------------

  /** Following next from head visits exactly the chunks of chain. */
  ghost predicate Chain(chunks: map<nat, Chunk>, head: nat, chain: seq<nat>)
    decreases |chain|
  {
    if chain == [] then head == 0
    else head == chain[0] && head > 0 && head in chunks && Chain(chunks, chunks[head].next, chain[1..])
  }

  function Overhead(a: nat, b: nat): (n: nat) {
    if a == b then ARENA_HEADER + CHUNK_HEADER else CHUNK_HEADER
  }

  /** Chunk b of arena a matches its mapping and its log. */
  ghost predicate ChunkOk(w: World, a: nat, b: nat, l: Log) {
    && b in w.chunks && b in w.owned && b in w.owner && w.owner[b] == a
    && w.chunks[b].mmapSize == w.owned[b]
    && w.chunks[b].capacity + Overhead(a, b) == w.owned[b]
    && w.chunks[b].memoryStart == b + Overhead(a, b)
    && l.base == w.chunks[b].memoryStart && l.cap == w.chunks[b].capacity && l.used == w.chunks[b].used
  }

  ghost predicate ChunksOk(w: World, a: nat, chain: seq<nat>, logs: seq<Log>) {
    && |chain| == |logs|
    && forall i {:trigger chain[i]} :: 0 <= i < |chain| ==> ChunkOk(w, a, chain[i], logs[i])
  }

  /** All blocks of arena a are in chain. */
  ghost predicate BlocksIn(w: World, a: nat, chain: seq<nat>) {
    forall b {:trigger w.owner[b]} :: b in w.owner && w.owner[b] == a ==> b in chain
  }

  ghost predicate ArenaOk(w: World, a: nat, page: nat) {
    && a in w.arenas && a in w.chains && a in w.logs
    && var chain, logs, h := w.chains[a], w.logs[a], w.arenas[a];
       && chain != [] && |chain| == |logs| && chain[0] == a
       && h.firstChunk == a && h.currentChunk == chain[|chain| - 1]
       && Chain(w.chunks, a, chain) && NoDup(chain)
       && ChunksOk(w, a, chain, logs) && BlocksIn(w, a, chain)
       && LogsOk(logs, page)
       && (!h.growable ==> |logs| == 1)
       && h.allocationCount == RequestCount(logs) % WORD
  }

  ghost predicate Inv(w: World, page: nat, limbo: set<nat>, closing: set<nat>) {
    && page > 0
    && Owning(w, limbo, closing)
    && w.chains.Keys == w.logs.Keys
    && w.arenas.Keys == w.chains.Keys + closing && w.chains.Keys !! closing
    && forall a {:trigger ArenaOk(w, a, page)} {:trigger a in w.chains} :: a in w.chains ==> ArenaOk(w, a, page)
  }

  // ----- frames -----------------------------------------------------------------------------

  lemma {:induction false} ChainFrame(m: map<nat, Chunk>, n: map<nat, Chunk>, head: nat, chain: seq<nat>)
    requires Chain(m, head, chain)
    requires forall b :: b in chain ==> b in m && b in n && n[b].next == m[b].next
    ensures Chain(n, head, chain)
    decreases |chain|
  {
    if chain != [] {
      assert chain[0] in chain;
      forall b | b in chain[1..] ensures b in chain {
      }
      ChainFrame(m, n, m[head].next, chain[1..]);
    }
  }

  lemma ArenaParts(w: World, a: nat, page: nat)
    requires ArenaOk(w, a, page)
    ensures a in w.arenas && a in w.chains && a in w.logs
    ensures w.chains[a] != [] && |w.chains[a]| == |w.logs[a]| && w.chains[a][0] == a
  {
  }

  /** What arena a depends on: its header, its chain, its logs, its blocks. */
  ghost predicate SameArena(w: World, v: World, a: nat) {
    && a in w.arenas && a in v.arenas && v.arenas[a] == w.arenas[a]
    && a in w.chains && a in v.chains && v.chains[a] == w.chains[a]
    && a in w.logs && a in v.logs && v.logs[a] == w.logs[a]
    && (forall b {:trigger b in w.owner} {:trigger w.owner[b]} :: b in w.owner && w.owner[b] == a ==>
          && b in v.owner && v.owner[b] == a
          && b in w.owned && b in v.owned && v.owned[b] == w.owned[b]
          && (b in w.chunks ==> b in v.chunks && v.chunks[b] == w.chunks[b]))
    && (forall b {:trigger v.owner[b]} :: b in v.owner && v.owner[b] == a ==> b in w.owner && w.owner[b] == a)
  }

  lemma ArenaFrame(w: World, v: World, a: nat, page: nat)
    requires ArenaOk(w, a, page) && SameArena(w, v, a)
    ensures ArenaOk(v, a, page)
  {
    hide LogsOk, NoDup;
    var chain := w.chains[a];
    forall i | 0 <= i < |chain| ensures ChunkOk(v, a, chain[i], w.logs[a][i]) {
      assert ChunkOk(w, a, chain[i], w.logs[a][i]);
    }
    forall b | b in chain ensures b in w.chunks && b in v.chunks && v.chunks[b].next == w.chunks[b].next {
      var i :| 0 <= i < |chain| && chain[i] == b;
      assert ChunkOk(w, a, chain[i], w.logs[a][i]);
    }
    ChainFrame(w.chunks, v.chunks, a, chain);
  }

  /** v differs from w at most in arena a. */
  ghost predicate OthersSame(w: World, v: World, a: nat) {
    && (forall x {:trigger x in v.arenas} {:trigger x in w.arenas} :: x != a ==>
          (x in v.arenas <==> x in w.arenas) && (x in v.arenas ==> v.arenas[x] == w.arenas[x]))
    && (forall x {:trigger x in v.chains} {:trigger x in w.chains} :: x != a ==>
          (x in v.chains <==> x in w.chains) && (x in v.chains ==> v.chains[x] == w.chains[x]))
    && (forall x {:trigger x in v.logs} {:trigger x in w.logs} :: x != a ==>
          (x in v.logs <==> x in w.logs) && (x in v.logs ==> v.logs[x] == w.logs[x]))
    && (forall b {:trigger b in w.owner} {:trigger w.owner[b]} :: b in w.owner && w.owner[b] != a ==>
          && b in v.owner && v.owner[b] == w.owner[b]
          && b in w.owned && b in v.owned && v.owned[b] == w.owned[b]
          && (b in w.chunks ==> b in v.chunks && v.chunks[b] == w.chunks[b]))
    && (forall b {:trigger v.owner[b]} :: b in v.owner && v.owner[b] != a ==>
          b in w.owner && w.owner[b] == v.owner[b])
  }

  lemma SameFromOthers(w: World, v: World, a: nat, x: nat)
    requires OthersSame(w, v, a) && x != a && x in w.arenas && x in w.chains && x in w.logs
    ensures SameArena(w, v, x)
  {
  }

  /** A step that touches one arena leaves the others intact. */
  lemma OthersFrame(w: World, v: World, page: nat, limbo: set<nat>, closing: set<nat>, a: nat)
    requires Inv(w, page, limbo, closing) && OthersSame(w, v, a)
    ensures forall x {:trigger ArenaOk(v, x, page)} {:trigger x in v.chains} ::
              x in v.chains && x != a ==> ArenaOk(v, x, page)
  {
    hide ArenaOk, Owning, SameArena;
    forall x | x in v.chains && x != a ensures ArenaOk(v, x, page) {
      OtherListed(w, v, a, x);
      assert ArenaOk(w, x, page);
      ArenaParts(w, x, page);
      SameFromOthers(w, v, a, x);
      ArenaFrame(w, v, x, page);
    }
  }

  lemma OtherListed(w: World, v: World, a: nat, x: nat)
    requires OthersSame(w, v, a) && x != a && x in v.chains
    ensures x in w.chains
  {
  }

  /** An invariant step that leaves the arenas alone, except for blocks in limbo. */
  lemma AllArenasFrame(w: World, v: World, page: nat, limbo: set<nat>, closing: set<nat>)
    requires Inv(w, page, limbo, closing)
    requires v.arenas == w.arenas && v.chains == w.chains && v.logs == w.logs
    requires v.owned == w.owned && v.owner == w.owner
    requires forall b {:trigger b in w.chunks} :: b in w.chunks && b in w.owner ==>
               b in v.chunks && v.chunks[b] == w.chunks[b]
    ensures w.owned.Keys == w.owner.Keys
    ensures forall a {:trigger ArenaOk(v, a, page)} {:trigger a in v.chains} :: a in v.chains ==> ArenaOk(v, a, page)
  {
    hide LogsOk, Chain, NoDup, ChunkOk, ArenaOk, MappedOk, CacheOk;
    forall a | a in v.chains ensures ArenaOk(v, a, page) {
      assert ArenaOk(w, a, page);
      ArenaParts(w, a, page);
      ArenaFrame(w, v, a, page);
    }
  }

  // ----- mapping and releasing ------------------------------------------------------------

  lemma MapFreshStep(w: World, page: nat, limbo: set<nat>, closing: set<nat>, b: nat, size: nat)
    requires Inv(w, page, limbo, closing) && FreshRange(w.mapped, page, b, size) && size > 0
    ensures Inv(w.(mapped := w.mapped[b := size]), page, limbo + {b}, closing)
    ensures b !in w.owned && b !in limbo
  {
    hide ArenaOk, Owning, FreshRange;
    MapFreshOwning(w, page, limbo, closing, b, size);
    AllArenasFrame(w, w.(mapped := w.mapped[b := size]), page, limbo, closing);
  }

  lemma MapFreshOwning(w: World, page: nat, limbo: set<nat>, closing: set<nat>, b: nat, size: nat)
    requires Owning(w, limbo, closing) && FreshRange(w.mapped, page, b, size) && size > 0
    ensures Owning(w.(mapped := w.mapped[b := size]), limbo + {b}, closing)
    ensures b !in w.owned && b !in limbo
  {
    var v := w.(mapped := w.mapped[b := size]);
    forall c, d | c in v.mapped && d in v.mapped && c != d ensures MapsApart(v.mapped, c, d) {
      if c != b && d != b {
        assert MapsApart(w.mapped, c, d);
      }
    }
    forall c ensures Cached(v, c) <==> Cached(w, c) {
    }
  }

  /** Taking entry i out of the cache: the last entry moves into its place. */
  function CacheWithout(cache: seq<Entry>, i: nat): (r: seq<Entry>)
    requires i < |cache|
    ensures |r| == |cache| - 1
    ensures forall j {:trigger r[j]} :: 0 <= j < |r| ==> r[j] == cache[if j == i then |cache| - 1 else j]
  {
    cache[i := cache[|cache| - 1]][..|cache| - 1]
  }

  lemma CacheTakeStep(w: World, page: nat, limbo: set<nat>, closing: set<nat>, i: nat)
    requires Inv(w, page, limbo, closing) && i < |w.cache|
    ensures Inv(w.(cache := CacheWithout(w.cache, i)), page, limbo + {w.cache[i].block}, closing)
    ensures w.cache[i].block in w.mapped && w.mapped[w.cache[i].block] == w.cache[i].mmapSize
    ensures w.cache[i].block !in w.owned && w.cache[i].block !in limbo
  {
    hide ArenaOk, Owning, CacheWithout;
    CacheTakeOwning(w, limbo, closing, i);
    AllArenasFrame(w, w.(cache := CacheWithout(w.cache, i)), page, limbo, closing);
  }

  lemma CacheTakeMembers(w: World, i: nat)
    requires CacheOk(w) && i < |w.cache|
    ensures var v := w.(cache := CacheWithout(w.cache, i));
            CacheOk(v) && forall c :: Cached(v, c) <==> Cached(w, c) && c != w.cache[i].block
  {
    var b, v := w.cache[i].block, w.(cache := CacheWithout(w.cache, i));
    var last := |w.cache| - 1;
    forall c ensures Cached(v, c) <==> Cached(w, c) && c != b {
      if Cached(w, c) && c != b {
        var j :| 0 <= j < |w.cache| && w.cache[j].block == c;
        assert v.cache[if j == last then i else j].block == c;
      }
      if Cached(v, c) {
        var j :| 0 <= j < |v.cache| && v.cache[j].block == c;
        assert w.cache[if j == i then last else j].block == c;
      }
    }
    forall j, k | 0 <= j < k < |v.cache| ensures v.cache[j].block != v.cache[k].block {
      assert w.cache[if j == i then last else j].block == v.cache[j].block;
      assert w.cache[if k == i then last else k].block == v.cache[k].block;
    }
  }

  lemma CacheTakeOwning(w: World, limbo: set<nat>, closing: set<nat>, i: nat)
    requires Owning(w, limbo, closing) && i < |w.cache|
    ensures Owning(w.(cache := CacheWithout(w.cache, i)), limbo + {w.cache[i].block}, closing)
    ensures w.cache[i].block in w.mapped && w.mapped[w.cache[i].block] == w.cache[i].mmapSize
    ensures w.cache[i].block !in w.owned && w.cache[i].block !in limbo
  {
    hide CacheWithout, MappedOk;
    assert Cached(w, w.cache[i].block);
    CacheTakeMembers(w, i);
  }

  /** Keeping a block: its header can no longer be read. */
  lemma CachePutStep(w: World, page: nat, limbo: set<nat>, closing: set<nat>, b: nat)
    requires Inv(w, page, limbo, closing) && b in limbo && |w.cache| < CACHE_SIZE && b in w.mapped
    ensures Inv(w.(cache := w.cache + [Entry(b, w.mapped[b])], chunks := w.chunks - {b}), page, limbo - {b}, closing)
  {
    hide ArenaOk, Owning;
    CachePutOwning(w, limbo, closing, b);
    AllArenasFrame(w, w.(cache := w.cache + [Entry(b, w.mapped[b])], chunks := w.chunks - {b}), page, limbo, closing);
  }

  lemma CachePutOwning(w: World, limbo: set<nat>, closing: set<nat>, b: nat)
    requires Owning(w, limbo, closing) && b in limbo && |w.cache| < CACHE_SIZE && b in w.mapped
    ensures Owning(w.(cache := w.cache + [Entry(b, w.mapped[b])], chunks := w.chunks - {b}), limbo - {b}, closing)
    ensures b !in w.owned && w.owned.Keys == w.owner.Keys
  {
    var v := w.(cache := w.cache + [Entry(b, w.mapped[b])], chunks := w.chunks - {b});
    forall c ensures Cached(v, c) <==> Cached(w, c) || c == b {
      if Cached(w, c) {
        var j :| 0 <= j < |w.cache| && w.cache[j].block == c;
        assert v.cache[j].block == c;
      }
      assert v.cache[|w.cache|].block == b;
    }
    forall j, k | 0 <= j < k < |v.cache| ensures v.cache[j].block != v.cache[k].block {
      if k == |w.cache| {
        assert w.cache[j].block == v.cache[j].block;
        assert Cached(w, w.cache[j].block);
      }
    }
  }

  /** Unmapping a block: it was mapped, and is no longer. */
  lemma UnmapStep(w: World, page: nat, limbo: set<nat>, closing: set<nat>, b: nat)
    requires Inv(w, page, limbo, closing) && b in limbo
    ensures b in w.mapped
    ensures Inv(w.(mapped := w.mapped - {b}, chunks := w.chunks - {b}), page, limbo - {b}, closing)
  {
    hide ArenaOk, Owning;
    UnmapOwning(w, limbo, closing, b);
    AllArenasFrame(w, w.(mapped := w.mapped - {b}, chunks := w.chunks - {b}), page, limbo, closing);
  }

  lemma UnmapOwning(w: World, limbo: set<nat>, closing: set<nat>, b: nat)
    requires Owning(w, limbo, closing) && b in limbo
    ensures b in w.mapped && b !in w.owned && w.owned.Keys == w.owner.Keys
    ensures Owning(w.(mapped := w.mapped - {b}, chunks := w.chunks - {b}), limbo - {b}, closing)
  {
    var v := w.(mapped := w.mapped - {b}, chunks := w.chunks - {b});
    forall c, d | c in v.mapped && d in v.mapped && c != d ensures MapsApart(v.mapped, c, d) {
      assert MapsApart(w.mapped, c, d);
    }
    forall c ensures Cached(v, c) <==> Cached(w, c) {
    }
    forall i | 0 <= i < |v.cache|
      ensures v.cache[i].block in v.mapped && v.mapped[v.cache[i].block] == v.cache[i].mmapSize
    {
      assert Cached(w, w.cache[i].block);
    }
  }

  // ----- creating an arena ------------------------------------------------------------------

  /** The world after the block b of m bytes became the first of a new arena. */
  ghost function WithArena(w: World, b: nat, m: nat, h: Header): (v: World) {
    var base, cap := b + Overhead(b, b), if m >= Overhead(b, b) then m - Overhead(b, b) else 0;
    w.(chunks := w.chunks[b := Chunk(0, m, cap, 0, base)],
       arenas := w.arenas[b := h],
       owned := w.owned[b := m], owner := w.owner[b := b],
       chains := w.chains[b := [b]], logs := w.logs[b := [Log(base, cap, 0, [], false)]])
  }

  /** An arena has its own first block. */
  lemma ArenaFirstOwned(w: World, page: nat, limbo: set<nat>, closing: set<nat>, a: nat)
    requires Inv(w, page, limbo, closing) && a in w.chains
    ensures a in w.owned && a in w.owner && w.owner[a] == a && a !in limbo && a in w.chunks && a in w.arenas
    ensures a in w.logs && w.chains[a] != [] && |w.chains[a]| == |w.logs[a]|
    ensures ChunkOk(w, a, a, w.logs[a][0])
  {
    hide LogsOk, Chain, NoDup;
    assert ArenaOk(w, a, page);
    assert ChunkOk(w, a, w.chains[a][0], w.logs[a][0]);
  }

  lemma NewArenaOk(w: World, page: nat, b: nat, m: nat, h: Header)
    requires b > 0 && b + m < WORD && m > Overhead(b, b)
    requires forall c :: c in w.owner ==> w.owner[c] != b
    requires h.firstChunk == h.currentChunk == b && h.allocationCount == 0
    ensures ArenaOk(WithArena(w, b, m, h), b, page)
  {
    var v := WithArena(w, b, m, h);
    assert v.chains[b] == [b];
    assert v.chains[b][1..] == [];
  }

  lemma WithArenaStep(w: World, page: nat, limbo: set<nat>, b: nat, m: nat, h: Header)
    requires Inv(w, page, limbo, {}) && b in limbo && b in w.mapped && w.mapped[b] == m && m > Overhead(b, b)
    requires h.firstChunk == h.currentChunk == b && h.allocationCount == 0
    ensures Inv(WithArena(w, b, m, h), page, limbo - {b}, {}) && b !in w.chains && b > 0
  {
    hide ArenaOk, Owning, OthersSame, WithArena, ChunkOk;
    var v := WithArena(w, b, m, h);
    forall a | a in w.chains ensures a != b {
      ArenaFirstOwned(w, page, limbo, {}, a);
    }
    WithArenaOwning(w, limbo, b, m, h);
    NewArenaOk(w, page, b, m, h);
    WithArenaOthers(w, b, m, h);
    WithArenaKeys(w, b, m, h);
    OthersFrame(w, v, page, limbo, {}, b);
  }

  lemma WithArenaOthers(w: World, b: nat, m: nat, h: Header)
    requires b !in w.owner && w.owned.Keys == w.owner.Keys
    ensures OthersSame(w, WithArena(w, b, m, h), b)
  {
    hide Overhead;
  }

  lemma WithArenaKeys(w: World, b: nat, m: nat, h: Header)
    ensures var v := WithArena(w, b, m, h);
            && v.arenas.Keys == w.arenas.Keys + {b} && v.chains.Keys == w.chains.Keys + {b}
            && v.logs.Keys == w.logs.Keys + {b}
  {
    hide Overhead;
  }

  lemma WithArenaOwning(w: World, limbo: set<nat>, b: nat, m: nat, h: Header)
    requires Owning(w, limbo, {}) && b in limbo && b in w.mapped && w.mapped[b] == m && b !in w.chains
    ensures Owning(WithArena(w, b, m, h), limbo - {b}, {})
    ensures b > 0 && b + m < WORD && b !in w.owner && w.owned.Keys == w.owner.Keys
    ensures forall c :: c in w.owner ==> w.owner[c] != b
  {
    var v := WithArena(w, b, m, h);
    forall c ensures Cached(v, c) <==> Cached(w, c) {
    }
  }

  // ----- placing a request ----------------------------------------------------------------

  /** The world after a request was placed at offset off in the last chunk of a. */
  ghost function WithPlaced(w: World, a: nat, off: nat, size: nat, align: nat): (v: World)
    requires a in w.arenas && a in w.logs && w.logs[a] != [] && w.arenas[a].currentChunk in w.chunks
  {
    var cur, logs := w.arenas[a].currentChunk, w.logs[a];
    w.(chunks := w.chunks[cur := w.chunks[cur].(used := off + size)],
       arenas := w.arenas[a := w.arenas[a].(allocationCount := WrapAdd(w.arenas[a].allocationCount, 1))],
       logs := w.logs[a := logs[|logs| - 1 := Placed(logs[|logs| - 1], off, size, align)]])
  }

  lemma CurrentChunk(w: World, page: nat, limbo: set<nat>, closing: set<nat>, a: nat)
    requires Inv(w, page, limbo, closing) && a in w.chains
    ensures a in w.arenas && a in w.logs && w.logs[a] != [] && w.chains[a] != []
    ensures w.arenas[a].currentChunk == w.chains[a][|w.chains[a]| - 1]
    ensures w.arenas[a].currentChunk in w.chunks && w.arenas[a].currentChunk !in limbo
    ensures w.arenas[a].currentChunk in w.owner && w.owner[w.arenas[a].currentChunk] == a
    ensures ChunkOk(w, a, w.arenas[a].currentChunk, w.logs[a][|w.logs[a]| - 1])
    ensures LogsOk(w.logs[a], page) && LogOk(w.logs[a][|w.logs[a]| - 1])
  {
    hide Chain, NoDup;
    assert ArenaOk(w, a, page);
    var n := |w.chains[a]| - 1;
    assert ChunkOk(w, a, w.chains[a][n], w.logs[a][n]);
  }

  lemma ChunkAt(w: World, a: nat, chain: seq<nat>, logs: seq<Log>, i: nat)
    requires ChunksOk(w, a, chain, logs) && i < |chain|
    ensures i < |logs| && ChunkOk(w, a, chain[i], logs[i])
    ensures chain[i] in w.chunks && chain[i] in w.owner && w.owner[chain[i]] == a
  {
  }

  /** When only the current chunk changes, the others still match. */
  lemma PlacedChunks(w: World, a: nat, chain: seq<nat>, logs: seq<Log>, off: nat, size: nat, align: nat)
    requires ChunksOk(w, a, chain, logs) && NoDup(chain) && chain != []
    requires a in w.arenas && a in w.logs && w.logs[a] == logs && w.arenas[a].currentChunk == chain[|chain| - 1]
    requires w.arenas[a].currentChunk in w.chunks
    ensures var v := WithPlaced(w, a, off, size, align);
            && ChunksOk(v, a, chain, v.logs[a])
            && forall b :: b in chain ==> b in w.chunks && b in v.chunks && v.chunks[b].next == w.chunks[b].next
  {
    var v, n := WithPlaced(w, a, off, size, align), |chain| - 1;
    forall i | 0 <= i < |chain| ensures ChunkOk(v, a, chain[i], v.logs[a][i]) {
      assert ChunkOk(w, a, chain[i], logs[i]);
      assert i != n ==> chain[i] != chain[n];
    }
    forall b | b in chain ensures b in w.chunks && b in v.chunks && v.chunks[b].next == w.chunks[b].next {
      var i :| 0 <= i < |chain| && chain[i] == b;
      assert ChunkOk(w, a, chain[i], logs[i]);
    }
  }

  /** One request more. */
  lemma PlacedCount(logs: seq<Log>, off: nat, size: nat, align: nat, count: nat)
    requires logs != [] && count == RequestCount(logs) % WORD
    ensures var n := |logs| - 1;
            WrapAdd(count, 1) == RequestCount(logs[n := Placed(logs[n], off, size, align)]) % WORD
  {
    var n := |logs| - 1;
    var after := logs[n := Placed(logs[n], off, size, align)];
    assert after[..n] == logs[..n];
    assert RequestCount(after) == RequestCount(logs) + 1;
  }

  lemma PlacedArenaOk(w: World, page: nat, a: nat, off: nat, size: nat, align: nat)
    requires ArenaOk(w, a, page) && size > 0 && align > 0
    requires var l := w.logs[a][|w.logs[a]| - 1]; Place(l.base, l.cap, l.used, size, align) == Some(off)
    ensures w.arenas[a].currentChunk in w.chunks
    ensures ArenaOk(WithPlaced(w, a, off, size, align), a, page)
  {
    hide LogsOk, Place, ChunksOk, Chain, NoDup, RequestCount, Placed;
    var chain, logs, n := w.chains[a], w.logs[a], |w.chains[a]| - 1;
    ChunkAt(w, a, chain, logs, n);
    PlaceKeepsLogs(logs, page, size, align);
    PlacedChunks(w, a, chain, logs, off, size, align);
    PlacedCount(logs, off, size, align, w.arenas[a].allocationCount);
    ChainFrame(w.chunks, WithPlaced(w, a, off, size, align).chunks, a, chain);
  }

  lemma PlaceStep(w: World, page: nat, a: nat, off: nat, size: nat, align: nat)
    requires Inv(w, page, {}, {}) && a in w.chains && size > 0 && align > 0
    requires a in w.logs && w.logs[a] != []
    requires var l := w.logs[a][|w.logs[a]| - 1]; Place(l.base, l.cap, l.used, size, align) == Some(off)
    ensures a in w.arenas && w.arenas[a].currentChunk in w.chunks
    ensures Inv(WithPlaced(w, a, off, size, align), page, {}, {})
  {
    hide ArenaOk, Owning, OthersSame, WithPlaced, ChunkOk, Place, LogsOk, LogOk;
    CurrentChunk(w, page, {}, {}, a);
    assert ArenaOk(w, a, page);
    PlacedArenaOk(w, page, a, off, size, align);
    PlacedOwning(w, a, off, size, align);
    OthersFrame(w, WithPlaced(w, a, off, size, align), page, {}, {}, a);
  }

  lemma PlacedOwning(w: World, a: nat, off: nat, size: nat, align: nat)
    requires a in w.arenas && a in w.logs && w.logs[a] != [] && w.arenas[a].currentChunk in w.chunks
    requires w.arenas[a].currentChunk in w.owner && w.owner[w.arenas[a].currentChunk] == a
    requires Owning(w, {}, {})
    ensures var v := WithPlaced(w, a, off, size, align);
            && Owning(v, {}, {}) && OthersSame(w, v, a)
            && v.arenas.Keys == w.arenas.Keys && v.chains == w.chains && v.logs.Keys == w.logs.Keys
  {
    hide MappedOk;
    var v := WithPlaced(w, a, off, size, align);
    forall c ensures Cached(v, c) <==> Cached(w, c) {
    }
  }

  // ----- growing -----------------------------------------------------------------------------

  /** The world after block b of m bytes was appended to arena a as the chunk l, with
      count as the new allocation count. */
  ghost function WithGrown(w: World, a: nat, b: nat, m: nat, l: Log, count: nat): (v: World)
    requires a in w.arenas && a in w.logs && a in w.chains && w.arenas[a].currentChunk in w.chunks
  {
    var cur := w.arenas[a].currentChunk;
    w.(chunks := w.chunks[cur := w.chunks[cur].(next := b)][b := Chunk(0, m, l.cap, l.used, l.base)],
       arenas := w.arenas[a := w.arenas[a].(currentChunk := b, allocationCount := count)],
       owned := w.owned[b := m], owner := w.owner[b := a],
       chains := w.chains[a := w.chains[a] + [b]], logs := w.logs[a := w.logs[a] + [l]])
  }

  lemma {:induction false} ChainAppend(m: map<nat, Chunk>, n: map<nat, Chunk>, head: nat, chain: seq<nat>, b: nat)
    requires Chain(m, head, chain) && chain != [] && NoDup(chain) && b !in chain && b > 0
    requires forall c :: c in chain ==> c in m && c in n
    requires forall i :: 0 <= i < |chain| - 1 ==> n[chain[i]].next == m[chain[i]].next
    requires n[chain[|chain| - 1]].next == b && b in n && n[b].next == 0
    ensures Chain(n, head, chain + [b])
    decreases |chain|
  {
    assert chain[0] in chain;
    assert (chain + [b])[1..] == chain[1..] + [b];
    if |chain| > 1 {
      forall c | c in chain[1..] ensures c in chain {
      }
      assert forall i :: 0 <= i < |chain[1..]| ==> chain[1..][i] == chain[i + 1];
      ChainAppend(m, n, m[head].next, chain[1..], b);
    } else {
      assert [b][1..] == [];
      assert Chain(n, b, [b]);
    }
  }

  /** The chunks of an arena, with one appended. */
  lemma GrownChunks(w: World, a: nat, b: nat, m: nat, l: Log, count: nat, chain: seq<nat>, logs: seq<Log>)
    requires ChunksOk(w, a, chain, logs) && NoDup(chain) && chain != [] && chain[0] == a
    requires a in w.arenas && a in w.logs && w.logs[a] == logs && a in w.chains && w.chains[a] == chain
    requires w.arenas[a].currentChunk == chain[|chain| - 1] && w.arenas[a].currentChunk in w.chunks
    requires b !in w.owner && b != a && l.base == b + CHUNK_HEADER && l.cap + CHUNK_HEADER == m
    ensures var v := WithGrown(w, a, b, m, l, count);
            && ChunksOk(v, a, chain + [b], v.logs[a])
            && b !in chain && NoDup(chain + [b])
            && (forall c :: c in chain ==> c in w.chunks && c in v.chunks)
            && forall i :: 0 <= i < |chain| - 1 ==> v.chunks[chain[i]].next == w.chunks[chain[i]].next
  {
    var v, n := WithGrown(w, a, b, m, l, count), |chain| - 1;
    forall i | 0 <= i < |chain| ensures chain[i] in w.chunks && chain[i] in w.owner && chain[i] != b {
      ChunkAt(w, a, chain, logs, i);
    }
    forall i | 0 <= i < |chain + [b]| ensures ChunkOk(v, a, (chain + [b])[i], v.logs[a][i]) {
      if i <= n {
        ChunkAt(w, a, chain, logs, i);
      }
    }
    forall i | 0 <= i < n ensures v.chunks[chain[i]].next == w.chunks[chain[i]].next {
      assert chain[i] != chain[n];
    }
  }

  lemma GrownArenaOk(w: World, page: nat, a: nat, b: nat, m: nat, l: Log, count: nat)
    requires ArenaOk(w, a, page) && w.arenas[a].growable && b > 0 && b !in w.owner && b != a
    requires l.base == b + CHUNK_HEADER && l.cap + CHUNK_HEADER == m
    requires LogsOk(w.logs[a] + [l], page) && count == RequestCount(w.logs[a] + [l]) % WORD
    ensures w.arenas[a].currentChunk in w.chunks
    ensures ArenaOk(WithGrown(w, a, b, m, l, count), a, page)
  {
    hide LogsOk, ChunksOk, Chain, NoDup, RequestCount;
    var chain, logs, n := w.chains[a], w.logs[a], |w.chains[a]| - 1;
    ChunkAt(w, a, chain, logs, n);
    GrownChunks(w, a, b, m, l, count, chain, logs);
    ChainAppend(w.chunks, WithGrown(w, a, b, m, l, count).chunks, a, chain, b);
  }

  lemma GrowStep(w: World, page: nat, a: nat, b: nat, m: nat, l: Log, count: nat)
    requires Inv(w, page, {b}, {}) && a in w.chains && a in w.arenas && w.arenas[a].growable && a in w.logs
    requires b in w.mapped && w.mapped[b] == m && l.base == b + CHUNK_HEADER && l.cap + CHUNK_HEADER == m
    requires LogsOk(w.logs[a] + [l], page) && count == RequestCount(w.logs[a] + [l]) % WORD
    ensures w.arenas[a].currentChunk in w.chunks
    ensures Inv(WithGrown(w, a, b, m, l, count), page, {}, {})
  {
    hide ArenaOk, Owning, OthersSame, WithGrown, ChunkOk, LogsOk, LogOk, RequestCount;
    CurrentChunk(w, page, {b}, {}, a);
    ArenaFirstOwned(w, page, {b}, {}, a);
    assert ArenaOk(w, a, page);
    GrownOwning(w, a, b, m, l, count);
    GrownArenaOk(w, page, a, b, m, l, count);
    GrownOthers(w, a, b, m, l, count);
    OthersFrame(w, WithGrown(w, a, b, m, l, count), page, {b}, {}, a);
  }

  lemma GrownOthers(w: World, a: nat, b: nat, m: nat, l: Log, count: nat)
    requires a in w.arenas && a in w.logs && a in w.chains && w.arenas[a].currentChunk in w.chunks
    requires w.arenas[a].currentChunk in w.owner && w.owner[w.arenas[a].currentChunk] == a
    requires b !in w.owner && w.owned.Keys == w.owner.Keys
    ensures var v := WithGrown(w, a, b, m, l, count);
            && OthersSame(w, v, a)
            && v.arenas.Keys == w.arenas.Keys && v.chains.Keys == w.chains.Keys && v.logs.Keys == w.logs.Keys
  {
  }

  lemma GrownOwning(w: World, a: nat, b: nat, m: nat, l: Log, count: nat)
    requires Owning(w, {b}, {}) && a in w.chains && a in w.arenas && a in w.logs
    requires w.arenas[a].currentChunk in w.chunks && b in w.mapped && w.mapped[b] == m
    ensures Owning(WithGrown(w, a, b, m, l, count), {}, {})
    ensures b > 0 && m > 0 && b + m < WORD && b !in w.owner && w.owned.Keys == w.owner.Keys
  {
    var v := WithGrown(w, a, b, m, l, count);
    forall c ensures Cached(v, c) <==> Cached(w, c) {
    }
  }

  // ----- taking an arena apart --------------------------------------------------------------

  /** Arena a is being taken apart: it no longer counts as an arena. */
  lemma CloseStep(w: World, page: nat, a: nat)
    requires Inv(w, page, {}, {}) && a in w.chains
    ensures Inv(w.(chains := w.chains - {a}, logs := w.logs - {a}), page, {}, {a})
  {
    hide ArenaOk, Owning, OthersSame;
    CloseOwning(w, a);
    OthersFrame(w, w.(chains := w.chains - {a}, logs := w.logs - {a}), page, {}, {}, a);
  }

  lemma CloseOwning(w: World, a: nat)
    requires Owning(w, {}, {})
    ensures var v := w.(chains := w.chains - {a}, logs := w.logs - {a});
            Owning(v, {}, {a}) && OthersSame(w, v, a)
  {
    hide MappedOk;
    var v := w.(chains := w.chains - {a}, logs := w.logs - {a});
    forall c ensures Cached(v, c) <==> Cached(w, c) {
    }
  }

  /** A block of an arena being taken apart goes into limbo. */
  lemma DisownStep(w: World, page: nat, limbo: set<nat>, closing: set<nat>, b: nat)
    requires Inv(w, page, limbo, closing) && b in w.owner && w.owner[b] in closing
    ensures b in w.owned && b !in limbo && b in w.mapped && w.mapped[b] == w.owned[b]
    ensures Inv(w.(owned := w.owned - {b}, owner := w.owner - {b}), page, limbo + {b}, closing)
  {
    hide ArenaOk, Owning, OthersSame;
    DisownOwning(w, limbo, closing, b);
    OthersFrame(w, w.(owned := w.owned - {b}, owner := w.owner - {b}), page, limbo, closing, w.owner[b]);
  }

  lemma DisownOwning(w: World, limbo: set<nat>, closing: set<nat>, b: nat)
    requires Owning(w, limbo, closing) && b in w.owner
    ensures b in w.owned && b !in limbo && b in w.mapped && w.mapped[b] == w.owned[b]
    ensures var v := w.(owned := w.owned - {b}, owner := w.owner - {b});
            Owning(v, limbo + {b}, closing) && OthersSame(w, v, w.owner[b])
  {
    hide MappedOk;
    var v := w.(owned := w.owned - {b}, owner := w.owner - {b});
    forall c ensures Cached(v, c) <==> Cached(w, c) {
    }
  }

  /** The header of an arena without blocks is gone. */
  lemma ForgetStep(w: World, page: nat, limbo: set<nat>, a: nat)
    requires Inv(w, page, limbo, {a}) && forall b :: b in w.owner ==> w.owner[b] != a
    ensures Inv(w.(arenas := w.arenas - {a}), page, limbo, {})
  {
    hide ArenaOk, Owning, OthersSame;
    ForgetOwning(w, limbo, a);
    OthersFrame(w, w.(arenas := w.arenas - {a}), page, limbo, {a}, a);
  }

  lemma ForgetOwning(w: World, limbo: set<nat>, a: nat)
    requires Owning(w, limbo, {a}) && forall b :: b in w.owner ==> w.owner[b] != a
    ensures var v := w.(arenas := w.arenas - {a});
            Owning(v, limbo, {}) && OthersSame(w, v, a)
  {
    hide MappedOk;
    var v := w.(arenas := w.arenas - {a});
    forall c ensures Cached(v, c) <==> Cached(w, c) {
    }
  }

  /** Arena a back in service with its first chunk alone, empty. */
  ghost function WithReset(w: World, a: nat): (v: World)
    requires a in w.chunks && a in w.arenas
  {
    var c := w.chunks[a].(next := 0, used := 0);
    w.(chunks := w.chunks[a := c],
       arenas := w.arenas[a := w.arenas[a].(currentChunk := a, allocationCount := 0)],
       chains := w.chains[a := [a]], logs := w.logs[a := [Log(c.memoryStart, c.capacity, 0, [], false)]])
  }

  lemma ResetStep(w: World, page: nat, a: nat)
    requires Inv(w, page, {}, {a}) && a in w.owner && w.owner[a] == a
    requires forall b :: b in w.owner && w.owner[b] == a ==> b == a
    requires a in w.chunks && a in w.arenas && w.arenas[a].firstChunk == a
    requires w.chunks[a].mmapSize == w.owned[a] && w.chunks[a].capacity + Overhead(a, a) == w.owned[a]
    requires w.chunks[a].memoryStart == a + Overhead(a, a)
    ensures Inv(WithReset(w, a), page, {}, {})
  {
    hide ArenaOk, Owning, OthersSame, WithReset;
    ResetOwning(w, a);
    ResetArenaOk(w, page, a);
    ResetOthers(w, a);
    OthersFrame(w, WithReset(w, a), page, {}, {a}, a);
  }

  lemma ResetOthers(w: World, a: nat)
    requires a in w.chunks && a in w.arenas && a in w.owner && w.owner[a] == a && w.owned.Keys == w.owner.Keys
    ensures var v := WithReset(w, a);
            && OthersSame(w, v, a)
            && v.arenas.Keys == w.arenas.Keys && v.chains.Keys == w.chains.Keys + {a}
            && v.logs.Keys == w.logs.Keys + {a}
  {
  }

  lemma ResetOwning(w: World, a: nat)
    requires Owning(w, {}, {a}) && a in w.owner && a in w.chunks && a in w.arenas
    ensures Owning(WithReset(w, a), {}, {})
    ensures a in w.owned && a > 0 && a + w.owned[a] < WORD && w.owned.Keys == w.owner.Keys
  {
    var v := WithReset(w, a);
    forall c ensures Cached(v, c) <==> Cached(w, c) {
    }
  }

  lemma ResetArenaOk(w: World, page: nat, a: nat)
    requires a in w.owner && w.owner[a] == a && a in w.owned && a > 0 && a + w.owned[a] < WORD
    requires forall b :: b in w.owner && w.owner[b] == a ==> b == a
    requires a in w.chunks && a in w.arenas && w.arenas[a].firstChunk == a
    requires w.chunks[a].mmapSize == w.owned[a] && w.chunks[a].capacity + Overhead(a, a) == w.owned[a]
    requires w.chunks[a].memoryStart == a + Overhead(a, a)
    ensures ArenaOk(WithReset(w, a), a, page)
  {
    var v := WithReset(w, a);
    assert v.chains[a] == [a] && v.chains[a][1..] == [];
  }

  /** What the cache holds after the blocks more were released one by one: each is kept
      while there is room. */
  function Kept(cache: seq<Entry>, more: seq<Entry>): (r: seq<Entry>)
    ensures |cache| + |more| <= CACHE_SIZE ==> r == cache + more
    ensures |cache| == CACHE_SIZE ==> r == cache
    ensures |cache| <= CACHE_SIZE ==> |r| <= CACHE_SIZE
  {
    if |cache + more| <= CACHE_SIZE then cache + more else (cache + more)[..CACHE_SIZE]
  }

  lemma KeptMore(cache: seq<Entry>, a: seq<Entry>, b: seq<Entry>)
    ensures Kept(Kept(cache, a), b) == Kept(cache, a + b)
  {
    assert (cache + a) + b == cache + (a + b);
    if |cache + a| > CACHE_SIZE {
      assert (cache + (a + b))[..CACHE_SIZE] == (cache + a)[..CACHE_SIZE];
    }
  }

  /** The blocks bs as cache entries. */
  function EntriesOf(sizes: map<nat, nat>, bs: seq<nat>): (r: seq<Entry>)
    ensures |r| == |bs|
  {
    seq(|bs|, i requires 0 <= i < |bs| => Entry(bs[i], if bs[i] in sizes then sizes[bs[i]] else 0))
  }

  /** The world after release_block. The headers in the block can no longer be read. */
  ghost function Released(w: World, b: nat): (v: World)
    requires b in w.mapped
    ensures v.chunks == w.chunks - {b} && v.arenas == w.arenas - {b}
    ensures v.chains == w.chains && v.logs == w.logs && v.owned == w.owned && v.owner == w.owner
    ensures v.cache == Kept(w.cache, [Entry(b, w.mapped[b])]) || |w.cache| > CACHE_SIZE
    ensures v.mapped == if |w.cache| < CACHE_SIZE then w.mapped else w.mapped - {b}
  {
    if |w.cache| < CACHE_SIZE then
      w.(cache := w.cache + [Entry(b, w.mapped[b])], chunks := w.chunks - {b}, arenas := w.arenas - {b})
    else
      w.(mapped := w.mapped - {b}, chunks := w.chunks - {b}, arenas := w.arenas - {b})
  }

  lemma ReleaseStep(w: World, page: nat, limbo: set<nat>, closing: set<nat>, b: nat)
    requires Inv(w, page, limbo, closing) && b in limbo && b in w.mapped
    requires closing == {} || exists a :: closing == {a}
    requires b in closing ==> forall c :: c in w.owner ==> w.owner[c] != b
    ensures Inv(Released(w, b), page, limbo - {b}, closing - {b})
  {
    hide ArenaOk, Owning;
    forall a | a in w.chains ensures a != b {
      ArenaFirstOwned(w, page, limbo, closing, a);
    }
    var v := w.(arenas := w.arenas - {b});
    if b in closing {
      ForgetStep(w, page, limbo, b);
      assert closing - {b} == {};
    } else {
      assert v.arenas == w.arenas;
      assert closing - {b} == closing;
    }
    ReleaseBody(v, page, limbo, closing - {b}, b);
    assert v.arenas - {b} == w.arenas - {b};
    assert Released(v, b) == Released(w, b);
  }

  lemma ReleaseBody(v: World, page: nat, limbo: set<nat>, closing: set<nat>, b: nat)
    requires Inv(v, page, limbo, closing) && b in limbo && b in v.mapped && b !in v.arenas
    ensures Inv(Released(v, b), page, limbo - {b}, closing)
  {
    hide Inv;
    assert v.arenas - {b} == v.arenas;
    if |v.cache| < CACHE_SIZE {
      CachePutStep(v, page, limbo, closing, b);
    } else {
      UnmapStep(v, page, limbo, closing, b);
    }
  }

  /** Arena a being taken apart has the blocks rest, chained from chunk, and its
      first block. */
  ghost predicate Tail(w: World, a: nat, chunk: nat, rest: seq<nat>) {
    && Chain(w.chunks, chunk, rest) && NoDup(rest) && a !in rest
    && (forall b {:trigger b in rest} :: b in rest ==>
          && b in w.owner && w.owner[b] == a && b in w.owned
          && b in w.chunks && w.chunks[b].mmapSize == w.owned[b])
    && (forall b {:trigger w.owner[b]} :: b in w.owner && w.owner[b] == a ==> b == a || b in rest)
  }

  /** What stays in place of the first block of an arena being taken apart. */
  ghost predicate FirstOk(w: World, a: nat) {
    && a in w.arenas && w.arenas[a].firstChunk == a
    && a in w.owner && w.owner[a] == a && a in w.owned
    && a in w.chunks && w.chunks[a].mmapSize == w.owned[a]
    && w.chunks[a].capacity + Overhead(a, a) == w.owned[a]
    && w.chunks[a].memoryStart == a + Overhead(a, a)
  }

  lemma TailStart(w: World, page: nat, a: nat)
    requires Inv(w, page, {}, {}) && a in w.chains
    ensures a in w.chunks && FirstOk(w, a) && w.chains[a] != [] && w.chains[a][0] == a
    ensures Tail(w, a, w.chunks[a].next, w.chains[a][1..])
    ensures w.logs.Keys == w.chains.Keys && w.logs[a] != [] && LogOk(w.logs[a][0])
    ensures w.logs[a][0].base == w.chunks[a].memoryStart && w.logs[a][0].cap == w.chunks[a].capacity
  {
    hide Owning, LogOk, Spilled, ChunksOk, BlocksIn, NoDup, Tail;
    ArenaFirstOwned(w, page, {}, {}, a);
    assert ArenaOk(w, a, page);
    assert LogOk(w.logs[a][0]);
    ChainTail(w, a, w.chains[a], w.logs[a]);
  }

  lemma ChainTail(w: World, a: nat, chain: seq<nat>, logs: seq<Log>)
    requires ChunksOk(w, a, chain, logs) && BlocksIn(w, a, chain) && NoDup(chain)
    requires chain != [] && chain[0] == a && Chain(w.chunks, a, chain)
    ensures a in w.chunks && Tail(w, a, w.chunks[a].next, chain[1..])
  {
    NoDupTail(chain);
    forall b | b in chain[1..] ensures b in w.owner && w.owner[b] == a && b in w.owned
        && b in w.chunks && w.chunks[b].mmapSize == w.owned[b] {
      var i :| 0 <= i < |chain| && chain[i] == b;
      assert ChunkOk(w, a, chain[i], logs[i]);
    }
    forall b | b in w.owner && w.owner[b] == a ensures b == a || b in chain[1..] {
      assert b in chain;
    }
  }

  lemma NoDupTail(s: seq<nat>)
    requires NoDup(s) && s != []
    ensures NoDup(s[1..]) && s[0] !in s[1..]
    ensures forall x :: x in s <==> x == s[0] || x in s[1..]
  {
    assert s == [s[0]] + s[1..];
  }

  /** Releasing the next block of the tail. */
  lemma TailStep(w: World, page: nat, a: nat, chunk: nat, rest: seq<nat>)
    requires Inv(w, page, {}, {a}) && FirstOk(w, a) && Tail(w, a, chunk, rest) && chunk != 0
    ensures rest != [] && chunk == rest[0] && chunk in w.chunks && chunk in w.owned && chunk in w.mapped
    ensures w.mapped[chunk] == w.owned[chunk] == w.chunks[chunk].mmapSize && chunk != a
    ensures var u := w.(owned := w.owned - {chunk}, owner := w.owner - {chunk});
            && Inv(Released(u, chunk), page, {}, {a})
            && FirstOk(Released(u, chunk), a)
            && Tail(Released(u, chunk), a, w.chunks[chunk].next, rest[1..])
            && Released(u, chunk).arenas == w.arenas
  {
    hide Owning, ArenaOk, Tail, FirstOk, Released;
    TailHead(w, a, chunk, rest);
    DisownStep(w, page, {}, {a}, chunk);
    var u := w.(owned := w.owned - {chunk}, owner := w.owner - {chunk});
    assert {} + {chunk} == {chunk} && {chunk} - {chunk} == {} && {a} - {chunk} == {a};
    ReleaseStep(u, page, {chunk}, {a}, chunk);
    if chunk in w.chains {
      ArenaFirstOwned(w, page, {}, {a}, chunk);
    }
    TailShrinks(w, a, chunk, rest);
  }

  lemma TailHead(w: World, a: nat, chunk: nat, rest: seq<nat>)
    requires Tail(w, a, chunk, rest) && chunk != 0
    ensures rest != [] && chunk == rest[0] && chunk != a
    ensures chunk in w.chunks && chunk in w.owned && chunk in w.owner && w.owner[chunk] == a
    ensures w.owned[chunk] == w.chunks[chunk].mmapSize
  {
    assert chunk == rest[0] && chunk in rest;
  }

  lemma TailShrinks(w: World, a: nat, chunk: nat, rest: seq<nat>)
    requires FirstOk(w, a) && Tail(w, a, chunk, rest) && chunk != 0 && chunk in w.mapped && chunk !in w.arenas
    ensures rest != [] && chunk in w.chunks
    ensures var v := Released(w.(owned := w.owned - {chunk}, owner := w.owner - {chunk}), chunk);
            && FirstOk(v, a) && Tail(v, a, w.chunks[chunk].next, rest[1..]) && v.arenas == w.arenas
  {
    hide Released, FirstOk, Tail;
    TailHead(w, a, chunk, rest);
    var v := Released(w.(owned := w.owned - {chunk}, owner := w.owner - {chunk}), chunk);
    assert w.arenas - {chunk} == w.arenas;
    FirstKept(w, v, a, chunk);
    TailKept(w, v, a, chunk, rest);
  }

  lemma FirstKept(w: World, v: World, a: nat, b: nat)
    requires FirstOk(w, a) && b != a
    requires v.arenas == w.arenas && v.chunks == w.chunks - {b} && v.owned == w.owned - {b} && v.owner == w.owner - {b}
    ensures FirstOk(v, a)
  {
    hide Overhead;
  }

  lemma TailKept(w: World, v: World, a: nat, chunk: nat, rest: seq<nat>)
    requires Tail(w, a, chunk, rest) && chunk != 0 && chunk in w.chunks && rest != [] && chunk == rest[0]
    requires v.chunks == w.chunks - {chunk} && v.owned == w.owned - {chunk} && v.owner == w.owner - {chunk}
    ensures Tail(v, a, w.chunks[chunk].next, rest[1..])
  {
    hide NoDup;
    NoDupTail(rest);
    ChainFrame(w.chunks, v.chunks, w.chunks[chunk].next, rest[1..]);
  }

  ghost function Members(s: seq<nat>): (r: set<nat>) {
    set b | b in s
  }

  /** Releasing the first block of an arena without others. */
  lemma LastBlockStep(w: World, page: nat, a: nat)
    requires Inv(w, page, {}, {a}) && FirstOk(w, a) && Tail(w, a, 0, [])
    ensures a in w.mapped && w.mapped[a] == w.owned[a]
    ensures var u := w.(owned := w.owned - {a}, owner := w.owner - {a});
            Inv(Released(u, a), page, {}, {})
  {
    hide Owning, ArenaOk;
    DisownStep(w, page, {}, {a}, a);
    var u := w.(owned := w.owned - {a}, owner := w.owner - {a});
    assert {} + {a} == {a} && {a} - {a} == {};
    ReleaseStep(u, page, {a}, {a}, a);
  }

  // ----- the end ------------------------------------------------------------------------------

  /** With no arena left, what is mapped is what the cache holds. */
  lemma OnlyCacheLeft(w: World, page: nat)
    requires Inv(w, page, {}, {}) && w.chains == map[]
    ensures w.owned == map[]
    ensures forall b :: b in w.mapped <==> Cached(w, b)
  {
    OwnersOpen(w, page);
    assert forall b :: b !in w.owned;
  }

  lemma OwnersOpen(w: World, page: nat)
    requires Inv(w, page, {}, {})
    ensures forall b :: b in w.owned ==> b in w.owner && w.owner[b] in w.chains
  {
  }

  /** Sizes of the blocks in use add up to less than the address space. */
  lemma OwnedSum(w: World, page: nat, limbo: set<nat>, closing: set<nat>)
    requires Inv(w, page, limbo, closing)
    ensures Sum(w.owned) < WORD
  {
    hide ArenaOk, Sum;
    if w.owned == map[] {
      SumEmpty();
    } else {
      forall p, q | p in w.owned && q in w.owned && p < q ensures p + w.owned[p] <= q {
        assert MapsApart(w.mapped, p, q);
      }
      SumPackedFrom(w.owned, 1, WORD);
    }
  }
}
