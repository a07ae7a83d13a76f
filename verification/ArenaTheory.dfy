/** Bump allocation in a chain of chunks, as values: where requests are placed,
    how chunks grow, and how much space that costs. */
module ArenaTheory {
  import opened Words
  import opened FreeLists

  /** Aligned sizes of the two headers. */
  const ARENA_HEADER: nat := 64
  const CHUNK_HEADER: nat := 64

  // ----- the power-of-two test ----------------------------------------------------------

  /** a & b on unsigned integers. */
  function BitAnd(a: nat, b: nat): (r: nat)
    decreases a
  {
    if a == 0 || b == 0 then 0
    else (if a % 2 == 1 && b % 2 == 1 then 1 else 0) + 2 * BitAnd(a / 2, b / 2)
  }

  lemma {:induction false} BitAndSelf(a: nat)
    ensures BitAnd(a, a) == a
  {
    if a > 0 {
      BitAndSelf(a / 2);
    }
  }

  lemma {:induction false} Pow2Half(y: nat)
    ensures y > 0 ==> (IsPow2(2 * y) <==> IsPow2(y))
    ensures y > 0 ==> !IsPow2(2 * y + 1)
    ensures IsPow2(1)
  {
    assert Pow2(0) == 1;
    if y > 0 {
      if IsPow2(2 * y) {
        var n: nat :| 2 * y == Pow2(n);
        assert y == Pow2(n - 1);
      }
      if IsPow2(y) {
        var n: nat :| y == Pow2(n);
        assert 2 * y == Pow2(n + 1);
      }
      forall n: nat ensures Pow2(n) != 2 * y + 1 {
      }
    }
  }

  /** The test arena_allocate makes accepts exactly the powers of two. */
  lemma {:induction false} BitTestExact(x: nat)
    requires x > 0
    ensures BitAnd(x, x - 1) == 0 <==> IsPow2(x)
  {
    var y := x / 2;
    Pow2Half(y);
    hide IsPow2;
    if x % 2 == 0 {
      BitTestExact(y);
      assert (x - 1) / 2 == y - 1;
    } else {
      BitAndSelf(y);
    }
  }

  // ----- placing a request ----------------------------------------------------------------

  /** A request and the address it was placed at. */
  datatype Req = Req(lo: nat, size: nat, align: nat)

  /** A chunk: its memory is [base, base + cap), of which used bytes are taken by
      the requests reqs, oldest first. stray: it was grown for a request it could not
      take either. */
  datatype Log = Log(base: nat, cap: nat, used: nat, reqs: seq<Req>, stray: bool)

  /** try_alloc_in_chunk: the offset of the request, if it can be placed. */
  function Place(base: nat, cap: nat, used: nat, size: nat, align: nat): (r: Option<nat>)
    requires align > 0
  {
    match AlignUp(base + used, align)
    case None => None
    case Some(addr) =>
      if addr < base then None
      else match SafeAdd(addr - base, size)
        case None => None
        case Some(end) => if end > cap then None else Some(addr - base)
  }

  /** The checked sums refuse exactly the requests that do not fit. */
  lemma PlaceExact(base: nat, cap: nat, used: nat, size: nat, align: nat)
    requires align > 0 && base > 0 && base + cap < WORD && size > 0
    ensures var o := RoundUp(base + used, align) - base;
            && used <= o < used + align
            && Place(base, cap, used, size, align) == if o + size <= cap then Some(o) else None
  {
    hide RoundUp;
  }

  // ----- logs --------------------------------------------------------------------------------

  /** Bytes taken, padding included. */
  function End(base: nat, reqs: seq<Req>): (n: int) {
    if reqs == [] then 0
    else reqs[|reqs| - 1].lo + reqs[|reqs| - 1].size - base
  }

  /** Each request starts at the first multiple of its alignment past the end of
      the one before. */
  ghost predicate Packed(base: nat, reqs: seq<Req>)
    decreases |reqs|
  {
    reqs != [] ==>
      var init, r := reqs[..|reqs| - 1], reqs[|reqs| - 1];
      && Packed(base, init)
      && r.align > 0 && r.size > 0 && r.lo % r.align == 0
      && base + End(base, init) <= r.lo < base + End(base, init) + r.align
  }

  ghost predicate LogOk(l: Log) {
    && l.base > 0 && l.base + l.cap < WORD
    && Packed(l.base, l.reqs)
    && l.used == End(l.base, l.reqs) <= l.cap
  }

  /** Size plus alignment of all requests. */
  function Weight(reqs: seq<Req>): (n: nat)
    decreases |reqs|
  {
    if reqs == [] then 0
    else Weight(reqs[..|reqs| - 1]) + reqs[|reqs| - 1].size + reqs[|reqs| - 1].align
  }

  lemma {:induction false} EndBelowWeight(base: nat, reqs: seq<Req>)
    requires Packed(base, reqs)
    ensures 0 <= End(base, reqs) <= Weight(reqs)
    ensures reqs != [] ==> reqs[0].size + reqs[0].align <= Weight(reqs)
    decreases |reqs|
  {
    if reqs != [] {
      EndBelowWeight(base, reqs[..|reqs| - 1]);
    }
  }

  /** Earlier requests end before later ones start; all lie in the used part and
      start at a multiple of their alignment. */
  lemma {:induction false} RequestsDisjoint(base: nat, reqs: seq<Req>, i: nat, j: nat)
    requires Packed(base, reqs) && i < j < |reqs|
    ensures reqs[i].lo + reqs[i].size <= reqs[j].lo
    decreases |reqs|
  {
    var init := reqs[..|reqs| - 1];
    if j < |reqs| - 1 {
      RequestsDisjoint(base, init, i, j);
    } else if i < |reqs| - 2 {
      RequestsDisjoint(base, init, i, |reqs| - 2);
    }
  }

  lemma {:induction false} RequestInside(base: nat, reqs: seq<Req>, i: nat)
    requires Packed(base, reqs) && i < |reqs|
    ensures base <= reqs[i].lo && reqs[i].lo + reqs[i].size <= base + End(base, reqs)
    ensures reqs[i].align > 0 && reqs[i].lo % reqs[i].align == 0
    decreases |reqs|
  {
    EndBelowWeight(base, reqs[..|reqs| - 1]);
    if i < |reqs| - 1 {
      RequestInside(base, reqs[..|reqs| - 1], i);
    }
  }

  ghost function Placed(l: Log, off: nat, size: nat, align: nat): (r: Log) {
    l.(used := off + size, reqs := l.reqs + [Req(l.base + off, size, align)])
  }

  lemma PlaceKeepsLog(l: Log, size: nat, align: nat)
    requires LogOk(l) && size > 0 && align > 0 && Place(l.base, l.cap, l.used, size, align).Some?
    ensures LogOk(Placed(l, Place(l.base, l.cap, l.used, size, align).value, size, align))
    ensures l.reqs != [] ==>
              Placed(l, Place(l.base, l.cap, l.used, size, align).value, size, align).reqs[0] == l.reqs[0]
  {
    PlaceExact(l.base, l.cap, l.used, size, align);
    var off := Place(l.base, l.cap, l.used, size, align).value;
    var r := Req(l.base + off, size, align);
    assert (l.reqs + [r])[..|l.reqs|] == l.reqs;
  }

  // ----- growth --------------------------------------------------------------------------------

  /** The capacity grow asks for: double the last one, on size_t, within the limits. */
  function GrowTarget(last: nat, min: nat, max: nat): (t: nat) {
    var t1 := WrapAdd(last, last);
    var t2 := if t1 < min then min else t1;
    var t3 := if max != 0 && t2 > max then max else t2;
    if t3 < min then min else t3
  }

  /** Capacity and mapping size of the chunk grow makes, if its size fits in size_t. */
  function GrowSize(last: nat, min: nat, max: nat, page: nat): (m: Option<nat>)
    requires page > 0
  {
    match SafeAdd(CHUNK_HEADER, GrowTarget(last, min, max))
    case None => None
    case Some(raw) => AlignUp(raw, page)
  }

  /** The new chunk can take min bytes, is less than a page larger than asked, and
      at most doubles unless the request needs more. */
  lemma GrowSizeBounds(last: nat, min: nat, max: nat, page: nat)
    requires page > 0 && last < WORD && GrowSize(last, min, max, page).Some?
    ensures var cap := GrowSize(last, min, max, page).value - CHUNK_HEADER;
            && min <= cap < (if 2 * last > min then 2 * last else min) + page
            && GrowSize(last, min, max, page).value < WORD
            && GrowSize(last, min, max, page).value % page == 0
  {
    hide RoundUp;
  }

  /** The capacity grow wants is the last one doubled, but no more than max_chunk_size when
      there is one, and no less than needed in any case. The mapping is the least number
      of whole pages that holds it, and there is none exactly when that is past SIZE_MAX. */
  lemma GrowSizeExact(last: nat, min: nat, max: nat, page: nat)
    requires page > 0
    ensures var double := if last + last < WORD then last + last else last + last - WORD;
            var limited := if max == 0 || double <= max then double else max;
            var bytes := CHUNK_HEADER + if limited > min then limited else min;
            GrowSize(last, min, max, page) == if RoundUp(bytes, page) < WORD then Some(RoundUp(bytes, page)) else None
  {
    hide RoundUp;
  }

  /** So a chunk stays within a page of max_chunk_size, or of what the request needs, and
      doubles the last one as far as that allows. */
  lemma GrowSizeLimits(last: nat, min: nat, max: nat, page: nat)
    requires page > 0 && GrowSize(last, min, max, page).Some?
    ensures var cap := GrowSize(last, min, max, page).value - CHUNK_HEADER;
            && cap >= min
            && (max != 0 ==> cap < (if max > min then max else min) + page)
            && (2 * last < WORD && max == 0 ==> cap >= 2 * last)
            && (2 * last < WORD && max != 0 ==> cap >= if 2 * last < max then 2 * last else max)
  {
    hide RoundUp, GrowSize;
    GrowSizeExact(last, min, max, page);
  }

  /** The sum size + alignment is not checked for overflow. Whatever the last chunk,
      the limit and the address of the new mapping, the chunk grown for a request
      takes it exactly when that sum did not wrap around. */
  lemma GrowthSufficesExactly(last: nat, max: nat, page: nat, base: nat, size: nat, align: nat)
    requires page > 0 && last < WORD && 0 < size < WORD && 0 < align < WORD && base > 0
    requires GrowSize(last, WrapAdd(size, align), max, page).Some?
    requires base + GrowSize(last, WrapAdd(size, align), max, page).value - CHUNK_HEADER < WORD
    ensures var cap := GrowSize(last, WrapAdd(size, align), max, page).value - CHUNK_HEADER;
            cap >= 0 && (Place(base, cap, 0, size, align).Some? <==> size + align < WORD)
  {
    hide GrowSize, Place;
    GrowSizeBounds(last, WrapAdd(size, align), max, page);
    var cap := GrowSize(last, WrapAdd(size, align), max, page).value - CHUNK_HEADER;
    PlaceExact(base, cap, 0, size, align);
    FirstMultiple(base, align);
  }

  lemma FirstMultiple(x: nat, a: nat)
    requires x > 0 && a > 0
    ensures RoundUp(x, a) >= a
  {
    hide RoundUp;
    ModUnique(0, a, 0, 0);
    MultiplesApart(0, RoundUp(x, a), a);
  }

  /** Chunk next was opened for its first request because chunk l could not take it,
      unless it is a stray one. */
  ghost predicate Spilled(l: Log, next: Log, page: nat) {
    || next.stray
    || (&& next.reqs != []
        && var d := next.reqs[0].size + next.reqs[0].align;
           && l.cap < l.used + d
           && next.cap < (if 2 * l.cap > d then 2 * l.cap else d) + page)
  }

  ghost predicate LogsOk(logs: seq<Log>, page: nat) {
    && logs != []
    && (forall i :: 0 <= i < |logs| ==> LogOk(logs[i]))
    && (forall i {:trigger logs[i]} :: 0 <= i < |logs| - 1 ==> Spilled(logs[i], logs[i + 1], page))
  }

  lemma PlaceKeepsLogs(logs: seq<Log>, page: nat, size: nat, align: nat)
    requires LogsOk(logs, page) && size > 0 && align > 0
    requires var l := logs[|logs| - 1]; Place(l.base, l.cap, l.used, size, align).Some?
    ensures var l := logs[|logs| - 1];
            LogsOk(logs[|logs| - 1 := Placed(l, Place(l.base, l.cap, l.used, size, align).value, size, align)], page)
  {
    hide LogOk, Place, Weight;
    var n, l := |logs| - 1, logs[|logs| - 1];
    PlaceKeepsLog(l, size, align);
    var l' := Placed(l, Place(l.base, l.cap, l.used, size, align).value, size, align);
    var logs' := logs[n := l'];
    forall i | 0 <= i < |logs'| - 1 ensures Spilled(logs'[i], logs'[i + 1], page) {
      assert Spilled(logs[i], logs[i + 1], page);
    }
  }

  /** A chunk grown in the block b of m bytes, after the request it was grown for was
      tried in it. */
  ghost function GrownLog(b: nat, m: nat, size: nat, align: nat): (l: Log)
    requires align > 0 && m >= CHUNK_HEADER
  {
    var base, cap := b + CHUNK_HEADER, m - CHUNK_HEADER;
    match Place(base, cap, 0, size, align)
    case None => Log(base, cap, 0, [], true)
    case Some(off) => Placed(Log(base, cap, 0, [], false), off, size, align)
  }

  /** Half the address space, aligned to as much, wraps around to a request for no bytes;
      whatever chunk is grown for it is a stray one. */
  lemma StrayExample(b: nat, m: nat)
    requires b > 0 && m >= CHUNK_HEADER && b + m < WORD
    ensures IsPow2(HALF_WORD) && WrapAdd(HALF_WORD, HALF_WORD) == 0
    ensures GrownLog(b, m, HALF_WORD, HALF_WORD) == Log(b + CHUNK_HEADER, m - CHUNK_HEADER, 0, [], true)
  {
    hide Place, Pow2;
    Pow2Word();
    PlaceExact(b + CHUNK_HEADER, m - CHUNK_HEADER, 0, HALF_WORD, HALF_WORD);
    FirstMultiple(b + CHUNK_HEADER, HALF_WORD);
  }

  /** Growing by a chunk for a request the last chunk cannot take. The new chunk takes it
      exactly when size + alignment did not wrap around; otherwise it is a stray one. */
  lemma GrowKeepsLogs(logs: seq<Log>, page: nat, max: nat, size: nat, align: nat, b: nat, m: nat)
    requires LogsOk(logs, page) && 0 < size < WORD && 0 < align < WORD && page > 0
    requires var l := logs[|logs| - 1];
             && Place(l.base, l.cap, l.used, size, align).None?
             && GrowSize(l.cap, WrapAdd(size, align), max, page) == Some(m)
    requires b > 0 && b + m < WORD
    ensures m >= CHUNK_HEADER
    ensures Place(b + CHUNK_HEADER, m - CHUNK_HEADER, 0, size, align).Some? <==> size + align < WORD
    ensures LogsOk(logs + [GrownLog(b, m, size, align)], page)
  {
    hide GrowSize, Place;
    var n, l := |logs| - 1, logs[|logs| - 1];
    GrowSizeBounds(l.cap, WrapAdd(size, align), max, page);
    GrowthSufficesExactly(l.cap, max, page, b + CHUNK_HEADER, size, align);
    PlaceExact(l.base, l.cap, l.used, size, align);
    var blank := Log(b + CHUNK_HEADER, m - CHUNK_HEADER, 0, [], false);
    if size + align < WORD {
      PlaceKeepsLog(blank, size, align);
    }
    var l' := GrownLog(b, m, size, align);
    var logs' := logs + [l'];
    forall i | 0 <= i < |logs'| - 1 ensures Spilled(logs'[i], logs'[i + 1], page) {
      if i < n {
        assert Spilled(logs[i], logs[i + 1], page);
      }
    }
  }

  // ----- amortised space --------------------------------------------------------------------------

  ghost function TotalWeight(logs: seq<Log>): (n: nat)
    decreases |logs|
  {
    if logs == [] then 0 else TotalWeight(logs[..|logs| - 1]) + Weight(logs[|logs| - 1].reqs)
  }

  ghost function TotalCap(logs: seq<Log>): (n: nat)
    decreases |logs|
  {
    if logs == [] then 0 else TotalCap(logs[..|logs| - 1]) + logs[|logs| - 1].cap
  }

  ghost function TotalUsed(logs: seq<Log>): (n: nat)
    decreases |logs|
  {
    if logs == [] then 0 else TotalUsed(logs[..|logs| - 1]) + logs[|logs| - 1].used
  }

  /** How many requests the chunks hold. */
  ghost function RequestCount(logs: seq<Log>): (n: nat)
    decreases |logs|
  {
    if logs == [] then 0 else RequestCount(logs[..|logs| - 1]) + |logs[|logs| - 1].reqs|
  }

  lemma {:induction false} RequestsBelowUsed(base: nat, reqs: seq<Req>)
    requires Packed(base, reqs)
    ensures |reqs| <= End(base, reqs)
    decreases |reqs|
  {
    if reqs != [] {
      RequestsBelowUsed(base, reqs[..|reqs| - 1]);
    }
  }

  /** Every request takes a byte at least. */
  lemma {:induction false} CountBelowCapacity(logs: seq<Log>)
    requires forall i :: 0 <= i < |logs| ==> LogOk(logs[i])
    ensures RequestCount(logs) <= TotalUsed(logs) <= TotalCap(logs)
    decreases |logs|
  {
    if logs != [] {
      var n := |logs| - 1;
      assert LogOk(logs[n]);
      RequestsBelowUsed(logs[n].base, logs[n].reqs);
      CountBelowCapacity(logs[..n]);
    }
  }

  /** Every chunk past the first was opened for a request it took. */
  ghost predicate NoStray(logs: seq<Log>) {
    forall i {:trigger logs[i]} :: 0 <= i < |logs| ==> !logs[i].stray
  }

  /** Capacity of all chunks but the last, against the requests of all chunks: each
      chunk is paid for by its own requests and the first of the next chunk. */
  lemma {:induction false} EarlierCapacity(logs: seq<Log>, page: nat)
    requires LogsOk(logs, page) && NoStray(logs)
    ensures |logs| == 1 ==> TotalCap(logs[..|logs| - 1]) == 0
    ensures |logs| > 1 ==>
              TotalCap(logs[..|logs| - 1]) + TotalWeight(logs[..1]) + Weight(logs[|logs| - 1].reqs)
              < 2 * TotalWeight(logs)
    decreases |logs|
  {
    hide TotalCap, TotalWeight, Weight, Packed, End;
    var n := |logs| - 1;
    TotalsEmpty();
    assert logs[..0] == [];
    if n > 0 {
      var init := logs[..n];
      assert forall i :: 0 <= i < n ==> init[i] == logs[i];
      assert init[..1] == logs[..1] && init[..n - 1] == logs[..n - 1];
      EarlierCapacity(init, page);
      assert Spilled(logs[n - 1], logs[n], page);
      EndBelowWeight(logs[n - 1].base, logs[n - 1].reqs);
      EndBelowWeight(logs[n].base, logs[n].reqs);
      TotalsSnoc(logs, n - 1);
      TotalsSnoc(logs, n);
      assert logs[..n + 1] == logs;
    }
  }

  lemma TotalsEmpty()
    ensures TotalCap([]) == TotalUsed([]) == TotalWeight([]) == 0
  {
  }

  lemma TotalsSnoc(logs: seq<Log>, i: nat)
    requires i < |logs|
    ensures TotalCap(logs[..i + 1]) == TotalCap(logs[..i]) + logs[i].cap
    ensures TotalUsed(logs[..i + 1]) == TotalUsed(logs[..i]) + logs[i].used
    ensures TotalWeight(logs[..i + 1]) == TotalWeight(logs[..i]) + Weight(logs[i].reqs)
  {
    assert logs[..i + 1][..i] == logs[..i];
  }

  /** Without stray chunks, over everything allocated since the last reset, with D the sum of size plus
      alignment: the chunks before the last have less than 2 * D bytes together, and
      every chunk but the first has less than max(2 * previous, the request that
      opened it) plus a page. */
  lemma AmortisedSpace(logs: seq<Log>, page: nat)
    requires LogsOk(logs, page) && NoStray(logs) && |logs| > 1
    ensures TotalCap(logs[..|logs| - 1]) < 2 * TotalWeight(logs)
    ensures var prev, last := logs[|logs| - 2], logs[|logs| - 1];
            && last.reqs != []
            && var d := last.reqs[0].size + last.reqs[0].align;
               last.cap < (if 2 * prev.cap > d then 2 * prev.cap else d) + page
  {
    EarlierCapacity(logs, page);
    assert Spilled(logs[|logs| - 2], logs[|logs| - 1], page);
  }
}
