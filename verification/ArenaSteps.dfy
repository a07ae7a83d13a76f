/** What each method of the arenas does to the world they represent, and that it keeps
    the invariant. */
module ArenaSteps {
  import opened Words
  import opened Kernel
  import opened FreeLists
  import opened Sums
  import opened ArenaTheory
  import opened ArenaWorld
  import opened ArenaBooks

  ghost function EmptyWorld(): (w: World) {
    World(map[], map[], map[], [], map[], map[], map[], map[])
  }

  lemma EmptyWorldOk(page: nat)
    requires page > 0
    ensures Inv(EmptyWorld(), page, {}, {})
  {
  }

  // ----- mapping --------------------------------------------------------------------------

  /** Index of the first entry of that size. */
  function FirstOfSize(cache: seq<Entry>, size: nat): (r: Option<nat>)
    ensures r.Some? ==> r.value < |cache| && cache[r.value].mmapSize == size
    ensures r.Some? ==> forall j :: 0 <= j < r.value ==> cache[j].mmapSize != size
    ensures r.None? ==> forall j :: 0 <= j < |cache| ==> cache[j].mmapSize != size
    decreases |cache|
  {
    if cache == [] then None
    else
      var n := |cache| - 1;
      var r := FirstOfSize(cache[..n], size);
      if r.Some? then r
      else if cache[n].mmapSize == size then Some(n) else None
  }

  lemma {:induction false} FirstOfSizeSnoc(cache: seq<Entry>, i: nat, size: nat)
    requires i < |cache| && FirstOfSize(cache[..i], size) == None
    ensures FirstOfSize(cache[..i + 1], size) == if cache[i].mmapSize == size then Some(i) else None
    ensures cache[i].mmapSize == size ==> FirstOfSize(cache, size) == Some(i)
    decreases |cache|
  {
    assert cache[..i + 1][..i] == cache[..i];
    if cache[i].mmapSize == size {
      if i == |cache| - 1 {
        assert cache[..i + 1] == cache;
      } else {
        var init := cache[..|cache| - 1];
        assert init[..i] == cache[..i];
        FirstOfSizeSnoc(init, i, size);
      }
    }
  }

  lemma CacheTaken(c: seq<Entry>, d: seq<Entry>, i: nat)
    requires i < |c| && |d| == |c| - 1
    requires forall j {:trigger d[j]} :: 0 <= j < |d| ==> d[j] == c[if j == i then |c| - 1 else j]
    ensures d == CacheWithout(c, i)
  {
  }

  /** The cache has a block of that size. */
  ghost predicate Stocked(w: World, size: nat) {
    exists i {:trigger w.cache[i]} :: 0 <= i < |w.cache| && w.cache[i].mmapSize == size
  }

  /** Block b of size bytes came from the cache, the first one that fits, or else fresh
      from the kernel. */
  ghost predicate TookBlock(w: World, v: World, size: nat, b: nat) {
    match FirstOfSize(w.cache, size)
    case Some(i) => b == w.cache[i].block && v.mapped == w.mapped && v.cache == CacheWithout(w.cache, i)
    case None => b !in w.mapped && v.mapped == w.mapped[b := size] && v.cache == w.cache
  }

  /** What map_block answers: the first cached block of that size, else a fresh mapping
      or a refusal. A block answered belongs to nobody. */
  ghost predicate MapOutcome(w: World, v: World, page: nat, size: nat, ok: bool, block: nat) {
    && (match FirstOfSize(w.cache, size)
        case Some(i) => ok && block == w.cache[i].block && v == w.(cache := CacheWithout(w.cache, i))
        case None =>
          if ok then FreshRange(w.mapped, page, block, size) && v == w.(mapped := w.mapped[block := size])
          else v == w)
    && (ok ==> Inv(v, page, {block}, {}) && block in v.mapped && v.mapped[block] == size && block !in v.owned)
  }

  lemma OutcomeCached(w: World, page: nat, size: nat, i: nat)
    requires Inv(w, page, {}, {}) && FirstOfSize(w.cache, size) == Some(i)
    ensures i < |w.cache|
    ensures MapOutcome(w, w.(cache := CacheWithout(w.cache, i)), page, size, true, w.cache[i].block)
  {
    hide Inv, CacheWithout;
    CacheTakeStep(w, page, {}, {}, i);
    assert {} + {w.cache[i].block} == {w.cache[i].block};
  }

  lemma OutcomeFresh(w: World, page: nat, size: nat, ok: bool, block: nat)
    requires Inv(w, page, {}, {}) && FirstOfSize(w.cache, size) == None && size > 0
    requires ok ==> FreshRange(w.mapped, page, block, size)
    ensures MapOutcome(w, if ok then w.(mapped := w.mapped[block := size]) else w, page, size, ok, block)
  {
    hide Inv, FreshRange;
    if ok {
      MapFreshStep(w, page, {}, {}, block, size);
      assert {} + {block} == {block};
    }
  }

  lemma MapOutcomeParts(w: World, v: World, page: nat, size: nat, ok: bool, block: nat)
    requires MapOutcome(w, v, page, size, ok, block)
    ensures v == w.(mapped := v.mapped, cache := v.cache)
    ensures !ok ==> v == w && !Stocked(w, size)
    ensures ok ==> Inv(v, page, {block}, {}) && block in v.mapped && v.mapped[block] == size && block !in v.owned
    ensures ok ==> TookBlock(w, v, size, block)
  {
    hide Inv, CacheWithout, FirstOfSize;
    match FirstOfSize(w.cache, size)
    case Some(i) =>
      assert v.mapped == w.mapped;
    case None =>
      assert v.cache == w.cache;
  }

  // ----- creating --------------------------------------------------------------------------

  /** Mapping size of the first block of an arena, if it fits in size_t. */
  function FirstSize(capacity: nat, page: nat): (m: Option<nat>)
    requires page > 0
  {
    match SafeAdd(ARENA_HEADER + CHUNK_HEADER, capacity)
    case None => None
    case Some(raw) => AlignUp(raw, page)
  }

  lemma FirstSizeIs(capacity: nat, page: nat)
    requires page > 0
    ensures var raw := SafeAdd(ARENA_HEADER + CHUNK_HEADER, capacity);
            FirstSize(capacity, page) == if raw.None? then None else AlignUp(raw.value, page)
    ensures var m := FirstSize(capacity, page);
            m.Some? ==> ARENA_HEADER + CHUNK_HEADER + capacity <= m.value
                        < ARENA_HEADER + CHUNK_HEADER + capacity + page
    ensures FirstSize(capacity, page).Some? <==> RoundUp(ARENA_HEADER + CHUNK_HEADER + capacity, page) < WORD
  {
    hide RoundUp;
  }

  /** Arena a is new in v, empty, with header h, and has at least the capacity asked for
      and less than a page more; nothing else changed hands. */
  ghost predicate NewArena(w: World, v: World, a: nat, capacity: nat, page: nat, h: Header) {
    && a > 0 && a !in w.chains && a !in w.owned && a in v.logs
    && v.chains == w.chains[a := [a]]
    && v.logs == w.logs[a := v.logs[a]]
    && |v.logs[a]| == 1 && v.logs[a][0].reqs == []
    && capacity <= v.logs[a][0].cap < capacity + page
    && v.owned == w.owned[a := v.logs[a][0].cap + ARENA_HEADER + CHUNK_HEADER]
    && v.owner == w.owner[a := a]
    && v.arenas == w.arenas[a := h]
    && TookBlock(w, v, v.logs[a][0].cap + ARENA_HEADER + CHUNK_HEADER, a)
  }

  lemma WithArenaReal(w: World, b: nat, m: nat, h: Header)
    requires m >= ARENA_HEADER + CHUNK_HEADER
    ensures var v, overhead := WithArena(w, b, m, h), ARENA_HEADER + CHUNK_HEADER;
            && v.mapped == w.mapped && v.cache == w.cache
            && v.chunks == w.chunks[b := Chunk(0, m, m - overhead, 0, b + overhead)]
            && v.arenas == w.arenas[b := h]
  {
  }

  lemma NewArenaIs(w: World, u: World, page: nat, a: nat, m: nat, capacity: nat, h: Header)
    requires u == w.(mapped := u.mapped, cache := u.cache)
    requires a > 0 && a !in w.chains && a !in w.owned && TookBlock(w, u, m, a)
    requires ARENA_HEADER + CHUNK_HEADER + capacity <= m < ARENA_HEADER + CHUNK_HEADER + capacity + page
    ensures NewArena(w, WithArena(u, a, m, h), a, capacity, page, h)
  {
    hide FirstOfSize, CacheWithout;
  }

  lemma OpenStep(w: World, u: World, page: nat, tracking: bool, t: Tally, moments: seq<nat>,
                 a: nat, capacity: nat, h: Header)
    requires Inv(w, page, {}, {}) && BooksOk(tracking, t, moments, w.owned, |w.chains|) && capacity > 0 && page > 0
    requires u == w.(mapped := u.mapped, cache := u.cache) && Inv(u, page, {a}, {}) && a !in u.owned
    requires FirstSize(capacity, page).Some? && a in u.mapped && u.mapped[a] == FirstSize(capacity, page).value
    requires TookBlock(w, u, FirstSize(capacity, page).value, a)
    requires h.firstChunk == h.currentChunk == a && h.allocationCount == 0
    ensures var m := FirstSize(capacity, page).value; var v := WithArena(u, a, m, h);
            && Inv(v, page, {}, {}) && NewArena(w, v, a, capacity, page, h)
            && BooksOk(tracking, Opened(tracking, t, m), Noted(tracking, moments, Opened(tracking, t, m)),
                       v.owned, |v.chains|)
  {
    hide Inv, BooksOk, FirstSize, NewArena, WithArena, Opened, Noted, TookBlock;
    FirstSizeIs(capacity, page);
    var m := FirstSize(capacity, page).value;
    WithArenaStep(u, page, {a}, a, m, h);
    assert {a} - {a} == {};
    NewArenaIs(w, u, page, a, m, capacity, h);
    BooksOpen(u, WithArena(u, a, m, h), page, tracking, t, moments, a, m, h);
  }

  // ----- allocating ------------------------------------------------------------------------

  /** The memory of a chunk ends before SIZE_MAX. */
  predicate RoomOk(c: Chunk) {
    c.used <= c.capacity && c.memoryStart > 0 && c.memoryStart + c.capacity < WORD
  }

  /** Where chunk c takes a request, if it does. */
  function PlaceIn(c: Chunk, size: nat, align: nat): (off: Option<nat>)
    requires align > 0
  {
    Place(c.memoryStart, c.capacity, c.used, size, align)
  }

  ghost function LastLog(w: World, a: nat): (l: Log) {
    if a in w.logs && w.logs[a] != [] then w.logs[a][|w.logs[a]| - 1] else Log(0, 0, 0, [], false)
  }

  ghost predicate Growable(w: World, a: nat) {
    a in w.arenas && w.arenas[a].growable
  }

  /** Where the last chunk of arena a takes a request, if it does. */
  ghost function PlaceLast(w: World, a: nat, size: nat, align: nat): (off: Option<nat>)
    requires align > 0
  {
    var l := LastLog(w, a);
    Place(l.base, l.cap, l.used, size, align)
  }

  /** Mapping size of the chunk grown when arena a needs min bytes. */
  ghost function GrowLast(w: World, a: nat, min: nat, page: nat): (m: Option<nat>)
    requires page > 0
  {
    GrowSize(LastLog(w, a).cap, min, if a in w.arenas then w.arenas[a].maxChunkSize else 0, page)
  }

  /** The headers after block b of m bytes was appended to the chunks of arena a. */
  ghost function Linked(w: World, a: nat, b: nat, m: nat): (v: World)
    requires a in w.arenas && w.arenas[a].currentChunk in w.chunks
  {
    var cap := if m >= CHUNK_HEADER then m - CHUNK_HEADER else 0;
    var cur, with := w.arenas[a].currentChunk, w.chunks[b := Chunk(0, m, cap, 0, b + CHUNK_HEADER)];
    w.(chunks := with[cur := with[cur].(next := b)], arenas := w.arenas[a := w.arenas[a].(currentChunk := b)])
  }

  /** v comes from w by mapping a block of m bytes, which gives u, and appending it to
      the chunks of arena a. */
  ghost predicate GrownBy(w: World, u: World, v: World, page: nat, a: nat, m: nat) {
    && a in v.arenas && a in u.arenas && u.arenas[a].currentChunk in u.chunks
    && var b := v.arenas[a].currentChunk;
       && u == w.(mapped := u.mapped, cache := u.cache)
       && Inv(u, page, {b}, {}) && b in u.mapped && u.mapped[b] == m && b !in u.owned
       && v == Linked(u, a, b, m) && TookBlock(w, u, m, b)
  }

  /** The request went to ptr, in the last chunk. */
  ghost predicate PlacedIn(w: World, v: World, a: nat, ptr: nat, size: nat, align: nat)
    requires align > 0
  {
    && a in w.arenas && a in w.logs && w.logs[a] != [] && w.arenas[a].currentChunk in w.chunks
    && PlaceLast(w, a, size, align).Some?
    && ptr == LastLog(w, a).base + PlaceLast(w, a, size, align).value
    && v == WithPlaced(w, a, PlaceLast(w, a, size, align).value, size, align)
  }

  /** A request that only a new chunk could take, if one can be made. */
  ghost predicate MustGrow(w: World, a: nat, size: nat, align: nat, page: nat) {
    && size > 0 && align > 0 && IsPow2(align) && page > 0
    && PlaceLast(w, a, size, align).None? && Growable(w, a)
    && GrowLast(w, a, WrapAdd(size, align), page).Some?
  }

  /** The world after the request was tried in the chunk grown for it in block b. */
  ghost function GrownWorld(u: World, a: nat, b: nat, m: nat, size: nat, align: nat): (v: World)
    requires a in u.arenas && a in u.logs && a in u.chains && u.arenas[a].currentChunk in u.chunks
    requires align > 0 && m >= CHUNK_HEADER
  {
    var count := u.arenas[a].allocationCount;
    WithGrown(u, a, b, m, GrownLog(b, m, size, align),
              if GrownLog(b, m, size, align).stray then count else WrapAdd(count, 1))
  }

  /** Arena a grew by a new block of m bytes for the request; ptr is where the request
      went, or 0 when the new chunk could not take it either. */
  ghost predicate GrownFor(w: World, v: World, a: nat, m: nat, ptr: nat, size: nat, align: nat) {
    && a in w.arenas && a in w.logs && a in w.chains && w.arenas[a].currentChunk in w.chunks && a in v.arenas
    && align > 0 && m >= CHUNK_HEADER
    && var b := v.arenas[a].currentChunk;
       && b !in w.owned && v == GrownWorld(w.(mapped := v.mapped, cache := v.cache), a, b, m, size, align)
       && ptr == GrownAt(b, m, size, align) && TookBlock(w, v, m, b)
  }

  ghost function GrownAt(b: nat, m: nat, size: nat, align: nat): (ptr: nat)
    requires align > 0 && m >= CHUNK_HEADER
  {
    match Place(b + CHUNK_HEADER, m - CHUNK_HEADER, 0, size, align)
    case None => 0
    case Some(off) => b + CHUNK_HEADER + off
  }

  lemma LastChunk(w: World, page: nat, limbo: set<nat>, a: nat)
    requires Inv(w, page, limbo, {}) && a in w.chains
    ensures a in w.arenas && a in w.logs && w.logs[a] != [] && w.arenas[a].currentChunk in w.chunks
    ensures w.arenas[a].currentChunk !in limbo && w.arenas[a].currentChunk in w.owned
    ensures var c, l := w.chunks[w.arenas[a].currentChunk], LastLog(w, a);
            c.memoryStart == l.base && c.capacity == l.cap && c.used == l.used && RoomOk(c)
  {
    hide Inv, LogsOk;
    CurrentChunk(w, page, limbo, {}, a);
  }

  lemma GrowLastIs(w: World, a: nat, min: nat, page: nat)
    requires page > 0 && a in w.arenas
    ensures var raw := SafeAdd(CHUNK_HEADER, GrowTarget(LastLog(w, a).cap, min, w.arenas[a].maxChunkSize));
            GrowLast(w, a, min, page) == if raw.None? then None else AlignUp(raw.value, page)
    ensures GrowLast(w, a, min, page).Some? ==> GrowLast(w, a, min, page).value >= CHUNK_HEADER
  {
    hide RoundUp, GrowTarget, LastLog;
  }

  lemma GrownByIs(w: World, u: World, page: nat, a: nat, m: nat, b: nat)
    requires u == w.(mapped := u.mapped, cache := u.cache) && Inv(u, page, {b}, {})
    requires b in u.mapped && u.mapped[b] == m && b !in u.owned
    requires a in u.arenas && u.arenas[a].currentChunk in u.chunks && TookBlock(w, u, m, b)
    ensures GrownBy(w, u, Linked(u, a, b, m), page, a, m)
  {
    hide Inv, TookBlock;
  }

  /** The chunk just linked is empty. */
  ghost predicate GrownReady(w: World, u: World, v: World, page: nat, a: nat, m: nat) {
    && m >= CHUNK_HEADER && GrownBy(w, u, v, page, a, m)
    && a in u.logs && a in u.chains
    && var b := v.arenas[a].currentChunk;
       && b in v.chunks && b != u.arenas[a].currentChunk
       && v.chunks[b] == Chunk(0, m, m - CHUNK_HEADER, 0, b + CHUNK_HEADER) && RoomOk(v.chunks[b])
  }

  /** After growing, the new chunk is the current one. */
  lemma GrownChunk(w: World, u: World, v: World, page: nat, a: nat, m: nat)
    requires GrownBy(w, u, v, page, a, m) && a in w.chains && page > 0 && Inv(w, page, {}, {})
    requires m >= CHUNK_HEADER
    ensures GrownReady(w, u, v, page, a, m)
    ensures u == w.(mapped := u.mapped, cache := u.cache) && a in v.arenas
    ensures var b := v.arenas[a].currentChunk;
            Inv(u, page, {b}, {}) && b in u.mapped && u.mapped[b] == m && b !in u.owned && TookBlock(w, u, m, b)
  {
    hide Place, GrowSize, Inv, TookBlock;
    var b := v.arenas[a].currentChunk;
    LastChunk(w, page, {}, a);
    LastChunk(u, page, {b}, a);
    LimboRoom(u, page, b);
  }

  lemma LimboRoom(u: World, page: nat, b: nat)
    requires Inv(u, page, {b}, {}) && b in u.mapped
    ensures b > 0 && b + u.mapped[b] < WORD
  {
  }

  /** The headers after trying the request in the chunk just linked. */
  lemma GrownReal(u: World, v: World, chunks: map<nat, Chunk>, arenas: map<nat, Header>,
                  a: nat, b: nat, m: nat, size: nat, align: nat)
    requires a in u.arenas && a in u.logs && a in u.chains && u.arenas[a].currentChunk in u.chunks
    requires b != u.arenas[a].currentChunk && m >= CHUNK_HEADER && v == Linked(u, a, b, m) && align > 0
    requires b in v.chunks && a in v.arenas
    requires chunks == v.chunks[b := v.chunks[b].(used := GrownLog(b, m, size, align).used)]
    requires arenas == if GrownLog(b, m, size, align).stray then v.arenas
                       else v.arenas[a := v.arenas[a].(allocationCount := WrapAdd(v.arenas[a].allocationCount, 1))]
    ensures var x := GrownWorld(u, a, b, m, size, align);
            x.mapped == v.mapped && x.cache == v.cache && x.chunks == chunks && x.arenas == arenas
  {
    hide Place;
  }

  lemma NowhereIs(b: nat, m: nat, size: nat, align: nat)
    requires align > 0 && m >= CHUNK_HEADER
    requires Place(b + CHUNK_HEADER, m - CHUNK_HEADER, 0, size, align).None?
    ensures GrownAt(b, m, size, align) == 0
  {
    hide Place;
  }

  lemma GrownLogIs(b: nat, m: nat, size: nat, align: nat)
    requires align > 0 && m >= CHUNK_HEADER
    ensures var l, p := GrownLog(b, m, size, align), Place(b + CHUNK_HEADER, m - CHUNK_HEADER, 0, size, align);
            && l.base == b + CHUNK_HEADER && l.cap + CHUNK_HEADER == m
            && l.stray == p.None?
            && l.used == (if p.Some? then p.value + size else 0) && |l.reqs| == (if p.Some? then 1 else 0)
  {
    hide Place;
  }

  lemma FinishGrow(w: World, u: World, x: World, page: nat, tracking: bool, t: Tally, moments: seq<nat>,
                   a: nat, b: nat, m: nat, size: nat, align: nat)
    requires Inv(w, page, {}, {}) && a in w.chains && Growable(w, a) && page > 0
    requires 0 < size < WORD && 0 < align < WORD
    requires u == w.(mapped := u.mapped, cache := u.cache) && Inv(u, page, {b}, {})
    requires b in u.mapped && u.mapped[b] == m >= CHUNK_HEADER && b !in u.owned
    requires PlaceLast(w, a, size, align).None? && GrowLast(w, a, WrapAdd(size, align), page) == Some(m)
    requires a in u.arenas && a in u.logs && a in u.chains && u.arenas[a].currentChunk in u.chunks
    requires x == GrownWorld(u, a, b, m, size, align) && TookBlock(w, u, m, b)
    requires BooksOk(tracking, t, moments, w.owned, |w.chains|)
    ensures Inv(x, page, {}, {})
    ensures BooksOk(tracking, Gained(tracking, t, m), Noted(tracking, moments, Gained(tracking, t, m)),
                    x.owned, |x.chains|)
    ensures GrownFor(w, x, a, m, GrownAt(b, m, size, align), size, align)
    ensures Place(b + CHUNK_HEADER, m - CHUNK_HEADER, 0, size, align).Some? <==> size + align < WORD
  {
    hide Inv, BooksOk, Gained, Noted, Place, GrowSize, Sum, WithGrown, GrownLog, GrownAt, FirstOfSize, CacheWithout;
    LastChunk(w, page, {}, a);
    LimboRoom(u, page, b);
    ArenaLogs(u, page, b, a);
    GrowKeepsLogs(u.logs[a], page, u.arenas[a].maxChunkSize, size, align, b, m);
    var l := GrownLog(b, m, size, align);
    var count := if l.stray then u.arenas[a].allocationCount else WrapAdd(u.arenas[a].allocationCount, 1);
    GrownLogIs(b, m, size, align);
    GrownCount(u.logs[a], l, u.arenas[a].allocationCount);
    GrowStep(u, page, a, b, m, l, count);
    WithGrownParts(u, a, b, m, l, count);
    OwnedSum(x, page, {}, {});
    GainedOk(tracking, t, moments, w.owned, |w.chains|, b, m);
    assert u == w.(mapped := x.mapped, cache := x.cache);
  }

  lemma ArenaLogs(u: World, page: nat, b: nat, a: nat)
    requires Inv(u, page, {b}, {}) && a in u.chains
    ensures a in u.logs && a in u.arenas && LogsOk(u.logs[a], page)
    ensures u.arenas[a].allocationCount == RequestCount(u.logs[a]) % WORD
  {
    hide Owning, LogsOk, Chain, NoDup, ChunksOk, BlocksIn, RequestCount;
    assert ArenaOk(u, a, page);
  }

  lemma GrownCount(logs: seq<Log>, l: Log, count: nat)
    requires count == RequestCount(logs) % WORD && |l.reqs| == if l.stray then 0 else 1
    ensures (if l.stray then count else WrapAdd(count, 1)) == RequestCount(logs + [l]) % WORD
  {
    assert (logs + [l])[..|logs|] == logs;
  }

  lemma WithGrownParts(u: World, a: nat, b: nat, m: nat, l: Log, count: nat)
    requires a in u.arenas && a in u.logs && a in u.chains && u.arenas[a].currentChunk in u.chunks
    ensures var x := WithGrown(u, a, b, m, l, count);
            && x.mapped == u.mapped && x.cache == u.cache && x.owned == u.owned[b := m]
            && a in x.arenas && x.arenas[a].currentChunk == b && |x.chains| == |u.chains|
  {
    var x := WithGrown(u, a, b, m, l, count);
    assert x.chains.Keys == u.chains.Keys;
    assert |x.chains| == |x.chains.Keys| && |u.chains| == |u.chains.Keys|;
  }

  lemma PlacedReal(w: World, a: nat, off: nat, size: nat, align: nat)
    requires a in w.arenas && a in w.logs && w.logs[a] != [] && w.arenas[a].currentChunk in w.chunks
    ensures var v, cur := WithPlaced(w, a, off, size, align), w.arenas[a].currentChunk;
            && v.mapped == w.mapped && v.cache == w.cache && v.owned == w.owned && v.chains == w.chains
            && v.chunks == w.chunks[cur := w.chunks[cur].(used := off + size)]
            && v.arenas == w.arenas[a := w.arenas[a].(allocationCount := WrapAdd(w.arenas[a].allocationCount, 1))]
  {
  }

  // ----- destroying and resetting ----------------------------------------------------------

  /** v is w without the blocks gone; arena a keeps its first header. */
  ghost predicate Shrunk(w: World, v: World, a: nat, gone: seq<nat>) {
    && v.chains == w.chains && v.logs == w.logs && v.arenas == w.arenas
    && v.owned == w.owned - Members(gone)
    && (a in w.chunks ==> a in v.chunks && v.chunks[a] == w.chunks[a])
    && v.cache == Kept(w.cache, EntriesOf(w.owned, gone))
  }

  lemma ShrunkNone(w: World, a: nat)
    requires |w.cache| <= CACHE_SIZE
    ensures Shrunk(w, w, a, [])
  {
    assert w.owned - Members([]) == w.owned;
  }

  lemma ShrunkOne(w: World, a: nat, b: nat)
    requires b in w.mapped && b != a && b in w.owned && w.mapped[b] == w.owned[b] && |w.cache| <= CACHE_SIZE
    requires Released(w.(owned := w.owned - {b}, owner := w.owner - {b}), b).arenas == w.arenas
    ensures var v := Released(w.(owned := w.owned - {b}, owner := w.owner - {b}), b);
            Shrunk(w, v, a, [b]) && v.owned == w.owned - {b}
  {
    hide Released;
    assert Members([b]) == {b};
    assert EntriesOf(w.owned, [b]) == [Entry(b, w.owned[b])];
  }

  lemma ShrunkMore(w: World, u: World, v: World, a: nat, done: seq<nat>, b: nat)
    requires Shrunk(w, u, a, done) && Shrunk(u, v, a, [b]) && b in u.owned
    ensures Shrunk(w, v, a, done + [b])
  {
    hide Kept;
    assert EntriesOf(w.owned, done + [b]) == EntriesOf(w.owned, done) + EntriesOf(u.owned, [b]);
    KeptMore(w.cache, EntriesOf(w.owned, done), EntriesOf(u.owned, [b]));
    assert Members(done + [b]) == Members(done) + Members([b]);
    assert w.owned - Members(done) - Members([b]) == w.owned - (Members(done) + Members([b]));
  }

  lemma PrefixChain(a: seq<nat>, b: seq<nat>, c: seq<nat>)
    requires a <= b && b <= c
    ensures a <= c
  {
  }

  lemma NextTurn(done: seq<nat>, rest: seq<nat>, blocks: seq<nat>)
    requires done + rest == blocks && rest != []
    ensures done + [rest[0]] + rest[1..] == blocks
  {
  }

  lemma TailEnd(w: World, a: nat, rest: seq<nat>)
    requires Tail(w, a, 0, rest)
    ensures rest == []
  {
  }

  lemma TailSame(w: World, v: World, a: nat, blocks: seq<nat>)
    requires a in w.chunks && FirstOk(w, a) && Tail(w, a, w.chunks[a].next, blocks)
    requires v == w.(chains := v.chains, logs := v.logs)
    ensures FirstOk(v, a) && Tail(v, a, v.chunks[a].next, blocks)
  {
  }

  /** Arena a of w has only its first block left in v, and is no longer listed. */
  ghost predicate TakenApart(w: World, v: World, a: nat) {
    && a in w.chains && w.chains[a] != [] && w.chains[a][0] == a
    && a in w.logs && w.logs[a] != [] && a in v.chunks
    && v.chains == w.chains - {a} && v.logs == w.logs - {a} && v.arenas == w.arenas
    && v.owned == w.owned - Members(w.chains[a][1..])
    && w.logs[a][0].base == v.chunks[a].memoryStart && w.logs[a][0].cap == v.chunks[a].capacity
    && v.cache == Kept(w.cache, EntriesOf(w.owned, w.chains[a][1..]))
  }

  lemma TakenApartIs(w: World, v: World, x: World, a: nat)
    requires a in w.chains && w.chains[a] != [] && w.chains[a][0] == a && a in w.logs && w.logs[a] != []
    requires a in w.chunks
    requires w.logs[a][0].base == w.chunks[a].memoryStart && w.logs[a][0].cap == w.chunks[a].capacity
    requires v == w.(chains := w.chains - {a}, logs := w.logs - {a}) && Shrunk(v, x, a, w.chains[a][1..])
    ensures TakenApart(w, x, a)
  {
    hide Members;
  }

  lemma FirstHeader(w: World, a: nat)
    requires FirstOk(w, a)
    ensures a in w.arenas && w.arenas[a].firstChunk == a && a in w.chunks && a in w.owned && a in w.owner
    ensures w.owner[a] == a && w.chunks[a].mmapSize == w.owned[a]
    ensures w.chunks[a].capacity + Overhead(a, a) == w.owned[a]
    ensures w.chunks[a].memoryStart == a + Overhead(a, a)
  {
  }

  /** v is w after the first block of arena a went, and the arena header with it. */
  ghost predicate FirstReleased(w: World, v: World, a: nat) {
    && v.chains == w.chains && v.logs == w.logs && v.arenas == w.arenas - {a} && v.owned == w.owned - {a}
    && a in w.owned && v.cache == Kept(w.cache, [Entry(a, w.owned[a])])
  }

  lemma FirstReleasedIs(w: World, a: nat)
    requires a in w.mapped && a in w.owned && w.mapped[a] == w.owned[a] && |w.cache| <= CACHE_SIZE
    ensures var v := Released(w.(owned := w.owned - {a}, owner := w.owner - {a}), a);
            FirstReleased(w, v, a) && v.owned == w.owned - {a}
  {
    hide Released;
  }

  /** Arena a is gone, with exactly its blocks. The cache kept what it had room for, the
      first block last. */
  ghost predicate Destroyed(w: World, v: World, a: nat) {
    && a in w.chains && w.chains[a] != []
    && v.cache == Kept(w.cache, EntriesOf(w.owned, w.chains[a][1..] + [a]))
    && v.chains == w.chains - {a} && v.logs == w.logs - {a} && v.arenas == w.arenas - {a}
    && v.owned == w.owned - Members(w.chains[a])
  }

  lemma DestroyedIs(w: World, v: World, x: World, a: nat)
    requires TakenApart(w, v, a) && FirstReleased(v, x, a)
    ensures Destroyed(w, x, a) && |x.chains| == |w.chains| - 1
  {
    hide Members, Kept;
    var rest := w.chains[a][1..];
    assert EntriesOf(w.owned, rest + [a]) == EntriesOf(w.owned, rest) + [Entry(a, v.owned[a])];
    KeptMore(w.cache, EntriesOf(w.owned, rest), [Entry(a, v.owned[a])]);
    MembersHead(w.chains[a], w.owned);
    assert (w.chains - {a}).Keys == w.chains.Keys - {a};
    assert |x.chains| == |x.chains.Keys| && |w.chains| == |w.chains.Keys|;
  }

  lemma MembersHead(chain: seq<nat>, owned: map<nat, nat>)
    requires chain != []
    ensures owned - Members(chain[1..]) - {chain[0]} == owned - Members(chain)
  {
    assert Members(chain) == Members(chain[1..]) + {chain[0]};
  }

  lemma ResetReady(w: World, a: nat)
    requires FirstOk(w, a) && Tail(w, a, 0, [])
    ensures forall b :: b in w.owner && w.owner[b] == a ==> b == a
  {
  }

  lemma WithResetReal(w: World, a: nat)
    requires a in w.chunks && a in w.arenas
    ensures var v := WithReset(w, a);
            && v.mapped == w.mapped && v.cache == w.cache
            && v.chunks == w.chunks[a := w.chunks[a].(next := 0, used := 0)]
            && v.arenas == w.arenas[a := w.arenas[a].(currentChunk := a, allocationCount := 0)]
  {
  }

  /** Arena a keeps its first chunk, empty, and gave up the others, as far as the cache
      has room to it. */
  ghost predicate WasReset(w: World, v: World, a: nat) {
    && a in w.chains && w.chains[a] != [] && a in w.logs && w.logs[a] != [] && a in w.arenas
    && v.chains == w.chains[a := [a]]
    && v.logs == w.logs[a := [Log(w.logs[a][0].base, w.logs[a][0].cap, 0, [], false)]]
    && v.arenas == w.arenas[a := w.arenas[a].(currentChunk := a, allocationCount := 0)]
    && v.owned == w.owned - Members(w.chains[a][1..])
    && v.cache == Kept(w.cache, EntriesOf(w.owned, w.chains[a][1..]))
  }

  lemma Reinserted<T>(m: map<nat, T>, a: nat, v: T)
    requires a in m
    ensures (m - {a})[a := v] == m[a := v] && |m[a := v]| == |m|
  {
    assert m[a := v].Keys == m.Keys;
  }

  lemma WithResetLists(w: World, a: nat)
    requires a in w.chunks && a in w.arenas
    ensures var v := WithReset(w, a);
            && v.chains == w.chains[a := [a]] && v.owned == w.owned
            && v.logs == w.logs[a := [Log(w.chunks[a].memoryStart, w.chunks[a].capacity, 0, [], false)]]
  {
  }

  lemma WasResetIs(w: World, v: World, a: nat)
    requires TakenApart(w, v, a) && a in v.arenas
    ensures a in v.chunks
    ensures var x := WithReset(v, a);
            WasReset(w, x, a) && x.owned == v.owned && |x.chains| == |w.chains|
  {
    hide Members, WithReset, Kept, EntriesOf;
    WithResetReal(v, a);
    WithResetLists(v, a);
    Reinserted(w.chains, a, [a]);
    Reinserted(w.logs, a, [Log(w.logs[a][0].base, w.logs[a][0].cap, 0, [], false)]);
  }

  // ----- statistics --------------------------------------------------------------------------

  lemma {:induction false} CapBelowHeld(w: World, a: nat, chain: seq<nat>, logs: seq<Log>)
    requires |chain| == |logs| && forall i :: 0 <= i < |chain| ==> ChunkOk(w, a, chain[i], logs[i])
    ensures TotalCap(logs) + |chain| <= SumOver(w.owned, chain)
    decreases |chain|
  {
    if chain != [] {
      var n := |chain| - 1;
      assert ChunkOk(w, a, chain[n], logs[n]);
      forall i | 0 <= i < n ensures ChunkOk(w, a, chain[..n][i], logs[..n][i]) {
        assert ChunkOk(w, a, chain[i], logs[i]);
      }
      CapBelowHeld(w, a, chain[..n], logs[..n]);
    }
  }

  /** The sums over the first i chunks fit in size_t. */
  lemma SumsFit(w: World, page: nat, a: nat, i: nat)
    requires Inv(w, page, {}, {}) && a in w.chains && i <= |w.chains[a]|
    ensures a in w.logs && |w.logs[a]| == |w.chains[a]|
    ensures TotalCap(w.logs[a][..i]) + i <= SumOver(w.owned, w.chains[a][..i]) < WORD
    ensures RequestCount(w.logs[a][..i]) <= TotalUsed(w.logs[a][..i]) <= TotalCap(w.logs[a][..i])
  {
    hide Owning, LogOk, Chain, Sum, Spilled, SumOver, TotalCap, ChunkOk;
    var chain, logs := w.chains[a], w.logs[a];
    assert ArenaOk(w, a, page);
    OwnedSum(w, page, {}, {});
    forall j | 0 <= j < i ensures ChunkOk(w, a, chain[..i][j], logs[..i][j]) && chain[..i][j] in w.owned {
      assert ChunkOk(w, a, chain[j], logs[j]);
      ChunkOwned(w, a, chain[j], logs[j]);
    }
    forall b | b in chain[..i] ensures b in w.owned {
      var j :| 0 <= j < i && chain[..i][j] == b;
    }
    SumOverBelow(w.owned, chain[..i]);
    CapBelowHeld(w, a, chain[..i], logs[..i]);
    CountBelowCapacity(logs[..i]);
  }

  lemma ChunkOwned(w: World, a: nat, b: nat, l: Log)
    requires ChunkOk(w, a, b, l)
    ensures b in w.owned && b in w.chunks && w.chunks[b].mmapSize == w.owned[b]
    ensures w.chunks[b].capacity == l.cap && w.chunks[b].used == l.used
  {
  }

  lemma StatsStart(w: World, page: nat, a: nat)
    requires Inv(w, page, {}, {}) && a in w.chains
    ensures a in w.arenas && a in w.logs && |w.logs[a]| == |w.chains[a]| > 0
    ensures w.arenas[a].firstChunk == w.chains[a][0]
    ensures TotalCap(w.logs[a][..0]) == TotalUsed(w.logs[a][..0]) == SumOver(w.owned, w.chains[a][..0]) == 0
    ensures w.arenas[a].allocationCount == RequestCount(w.logs[a])
  {
    hide Owning, LogsOk, Chain, NoDup, ChunkOk, TotalCap, TotalUsed, SumOver, RequestCount;
    assert ArenaOk(w, a, page);
    SumsFit(w, page, a, |w.chains[a]|);
    assert w.logs[a][..|w.chains[a]|] == w.logs[a];
    EmptySums(w.owned);
    assert w.logs[a][..0] == [] && w.chains[a][..0] == [];
  }

  lemma EmptySums(owned: map<nat, nat>)
    ensures TotalCap([]) == TotalUsed([]) == SumOver(owned, []) == 0
  {
  }

  lemma {:induction false} ChainNext(m: map<nat, Chunk>, head: nat, chain: seq<nat>, i: nat)
    requires Chain(m, head, chain) && i < |chain|
    ensures chain[i] > 0 && chain[i] in m && m[chain[i]].next == if i + 1 < |chain| then chain[i + 1] else 0
    decreases i
  {
    if i > 0 {
      ChainNext(m, m[head].next, chain[1..], i - 1);
    }
  }

  lemma StatsStep(w: World, page: nat, a: nat, i: nat)
    requires Inv(w, page, {}, {}) && a in w.chains && a in w.logs && i < |w.chains[a]| == |w.logs[a]|
    ensures var b := w.chains[a][i];
            && b > 0 && b in w.chunks
            && w.chunks[b].next == (if i + 1 < |w.chains[a]| then w.chains[a][i + 1] else 0)
            && TotalCap(w.logs[a][..i + 1]) == WrapAdd(TotalCap(w.logs[a][..i]), w.chunks[b].capacity)
            && TotalUsed(w.logs[a][..i + 1]) == WrapAdd(TotalUsed(w.logs[a][..i]), w.chunks[b].used)
            && SumOver(w.owned, w.chains[a][..i + 1])
               == WrapAdd(SumOver(w.owned, w.chains[a][..i]), w.chunks[b].mmapSize)
            && i + 1 < WORD
  {
    hide Owning, LogsOk, NoDup, ChunkOk, Chain, TotalCap, TotalUsed, SumOver;
    var chain, logs := w.chains[a], w.logs[a];
    assert ArenaOk(w, a, page);
    assert ChunkOk(w, a, chain[i], logs[i]);
    ChunkOwned(w, a, chain[i], logs[i]);
    ChainNext(w.chunks, a, chain, i);
    SumsFit(w, page, a, i + 1);
    TotalsSnoc(logs, i);
    SumOverSnoc(w.owned, chain, i);
  }

  lemma SumOverSnoc(m: map<nat, nat>, s: seq<nat>, i: nat)
    requires i < |s| && s[i] in m
    ensures SumOver(m, s[..i + 1]) == SumOver(m, s[..i]) + m[s[i]]
  {
    assert s[..i + 1][..i] == s[..i];
  }

  // ----- the end of the context ----------------------------------------------------------------

  function BlocksOf(cache: seq<Entry>): (r: set<nat>) {
    set i | 0 <= i < |cache| :: cache[i].block
  }

  lemma CacheEntries(w: World, page: nat)
    requires Inv(w, page, {}, {})
    ensures CacheOk(w) && w.mapped - BlocksOf(w.cache[..0]) == w.mapped
  {
  }

  lemma NextEntry(w: World, i: nat)
    requires CacheOk(w) && i < |w.cache|
    ensures w.cache[i].block in w.mapped && w.mapped[w.cache[i].block] == w.cache[i].mmapSize
    ensures w.cache[i].block !in BlocksOf(w.cache[..i])
    ensures w.mapped - BlocksOf(w.cache[..i]) - {w.cache[i].block} == w.mapped - BlocksOf(w.cache[..i + 1])
  {
    assert w.cache[..i + 1] == w.cache[..i] + [w.cache[i]];
    var s, t := BlocksOf(w.cache[..i]), BlocksOf(w.cache[..i + 1]);
    forall b ensures b in t <==> b in s || b == w.cache[i].block {
      if b in s {
        var j :| 0 <= j < i && w.cache[..i][j].block == b;
        assert w.cache[..i + 1][j].block == b;
      }
      assert w.cache[..i + 1][i].block == w.cache[i].block;
    }
    assert t == s + {w.cache[i].block};
  }

  lemma OwnedOrNothing(w: World, page: nat)
    requires Inv(w, page, {}, {})
    ensures w.mapped - BlocksOf(w.cache) == w.owned
    ensures w.owned == map[] <==> w.chains == map[]
  {
    hide ArenaOk;
    forall b ensures b in BlocksOf(w.cache) <==> Cached(w, b) {
    }
    if w.chains == map[] {
      OnlyCacheLeft(w, page);
    } else {
      var a :| a in w.chains;
      ArenaFirstOwned(w, page, {}, {}, a);
    }
  }
}
