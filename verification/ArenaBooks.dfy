/** The arena counters of a context, and the sizes its methods compute. */
module ArenaBooks {
  import opened Words
  import opened FreeLists
  import opened Sums
  import opened ArenaTheory
  import opened ArenaWorld

  /** create and destroy counts, arena_total_bytes, total and peak mapped bytes. */
  datatype Tally = Tally(created: nat, destroyed: nat, total: nat, mapped: nat, peak: nat)

  /** moments are the values total_mapped_bytes had so far, the present one last; the peak
      is the largest of them. */
  ghost predicate PeakOk(t: Tally, moments: seq<nat>) {
    && moments != [] && moments[|moments| - 1] == t.mapped
    && t.peak in moments && forall x :: x in moments ==> x <= t.peak
  }

  /** With tracking on the counters are exact for the blocks owned, the number of arenas
      and the history; with tracking off they stay 0. */
  ghost predicate BooksOk(tracking: bool, t: Tally, moments: seq<nat>, owned: map<nat, nat>, live: nat) {
    && PeakOk(t, moments)
    && if tracking then
         && t.created < WORD && t.destroyed < WORD && t.peak < WORD
         && t.total == t.mapped == Sum(owned)
         && WrapSub(t.created, t.destroyed) == live
       else t == Tally(0, 0, 0, 0, 0)
  }

  /** The history after the counters became t. */
  function Noted(tracking: bool, moments: seq<nat>, t: Tally): (r: seq<nat>)
    ensures moments <= r
  {
    if tracking then moments + [t.mapped] else moments
  }

  /** The counters after a block of m bytes was mapped for an arena. */
  function Gained(tracking: bool, t: Tally, m: nat): (r: Tally) {
    if !tracking then t
    else
      var mapped := WrapAdd(t.mapped, m);
      t.(total := WrapAdd(t.total, m), mapped := mapped, peak := if mapped > t.peak then mapped else t.peak)
  }

  /** The counters after a block of m bytes was released. */
  function Lost(tracking: bool, t: Tally, m: nat): (r: Tally) {
    if !tracking then t else t.(total := WrapSub(t.total, m), mapped := WrapSub(t.mapped, m))
  }

  /** The counters after an arena was created in a block of m bytes. */
  function Opened(tracking: bool, t: Tally, m: nat): (r: Tally) {
    Gained(tracking, if tracking then t.(created := WrapAdd(t.created, 1)) else t, m)
  }

  /** The counters after an arena whose first block has m bytes was destroyed. */
  function Closed(tracking: bool, t: Tally, m: nat): (r: Tally) {
    Lost(tracking, if tracking then t.(destroyed := WrapAdd(t.destroyed, 1)) else t, m)
  }

  /** Mapping a block keeps the books, the peak included. */
  lemma GainedOk(tracking: bool, t: Tally, moments: seq<nat>, owned: map<nat, nat>, live: nat, b: nat, m: nat)
    requires BooksOk(tracking, t, moments, owned, live) && b !in owned && Sum(owned[b := m]) < WORD
    ensures BooksOk(tracking, Gained(tracking, t, m), Noted(tracking, moments, Gained(tracking, t, m)),
                    owned[b := m], live)
  {
    SumAdd(owned, b, m);
    if tracking {
      PeakNoted(t, Gained(tracking, t, m), moments);
    }
  }

  /** Releasing a block keeps the books, the peak included. */
  lemma LostOk(tracking: bool, t: Tally, moments: seq<nat>, owned: map<nat, nat>, live: nat, b: nat)
    requires BooksOk(tracking, t, moments, owned, live) && b in owned
    ensures BooksOk(tracking, Lost(tracking, t, owned[b]), Noted(tracking, moments, Lost(tracking, t, owned[b])),
                    owned - {b}, live)
  {
    SumRemove(owned, b);
    if tracking {
      assert moments[|moments| - 1] in moments;
      PeakNoted(t, Lost(tracking, t, owned[b]), moments);
    }
  }

  lemma PeakNoted(t: Tally, r: Tally, moments: seq<nat>)
    requires PeakOk(t, moments) && t.peak <= r.peak && r.mapped <= r.peak
    requires r.peak == t.peak || r.peak == r.mapped
    ensures PeakOk(r, moments + [r.mapped])
  {
    var after := moments + [r.mapped];
    assert after[|moments|] == r.mapped;
    forall x | x in after ensures x <= r.peak {
      assert x in moments || x == r.mapped;
    }
    if r.peak == t.peak {
      assert t.peak in moments;
    }
  }

  // ----- arenas are counted by their first blocks -----------------------------------------

  lemma {:induction false} ArenasBelowBlocks(w: World, page: nat, limbo: set<nat>)
    requires Inv(w, page, limbo, {})
    ensures |w.chains| < WORD
  {
    hide Owning, ArenaOk, ChunkOk, Sum;
    OwnedSum(w, page, limbo, {});
    forall a | a in w.chains ensures a in w.owned {
      ArenaFirstOwned(w, page, limbo, {}, a);
    }
    SubsetSmaller(w.chains.Keys, w.owned.Keys);
    OwnedPositive(w, page, limbo);
    CountAtMostSum(w.owned);
    assert |w.chains| == |w.chains.Keys| && |w.owned| == |w.owned.Keys|;
  }

  lemma OwnedPositive(w: World, page: nat, limbo: set<nat>)
    requires Inv(w, page, limbo, {})
    ensures forall b :: b in w.owned ==> w.owned[b] >= 1
  {
  }

  lemma {:induction false} SubsetSmaller(s: set<nat>, t: set<nat>)
    requires s <= t
    ensures |s| <= |t|
    decreases |s|
  {
    if s != {} {
      var x :| x in s;
      SubsetSmaller(s - {x}, t - {x});
    }
  }

  /** The books after an arena is gone. */
  /** The books after an arena is gone. */
  lemma BooksClose(w: World, page: nat, tracking: bool, t: Tally, moments: seq<nat>, owned: map<nat, nat>,
                   a: nat, live: nat)
    requires Inv(w, page, {}, {}) && live == |w.chains| && live > 0
    requires BooksOk(tracking, t, moments, owned, live) && a in owned
    ensures BooksOk(tracking, Closed(tracking, t, owned[a]), Noted(tracking, moments, Closed(tracking, t, owned[a])),
                    owned - {a}, live - 1)
  {
    hide Inv, Sum;
    ArenasBelowBlocks(w, page, {});
    LostOk(tracking, if tracking then t.(destroyed := WrapAdd(t.destroyed, 1)) else t, moments, owned,
           if tracking then live - 1 else live, a);
  }

  lemma ClosedIs(tracking: bool, t: Tally, m: nat)
    ensures Closed(tracking, t, m) ==
            Lost(tracking, if tracking then t.(destroyed := WrapAdd(t.destroyed, 1)) else t, m)
    ensures Closed(tracking, t, m).created == t.created && Closed(tracking, t, m).peak == t.peak
    ensures tracking ==> Closed(tracking, t, m).destroyed == WrapAdd(t.destroyed, 1)
  {
  }

  /** The books after a new arena. */
  lemma BooksOpen(w: World, v: World, page: nat, tracking: bool, t: Tally, moments: seq<nat>,
                  b: nat, m: nat, h: Header)
    requires b !in w.owned && b !in w.chains && Inv(v, page, {}, {})
    requires v == WithArena(w, b, m, h)
    requires BooksOk(tracking, t, moments, w.owned, |w.chains|)
    ensures BooksOk(tracking, Opened(tracking, t, m), Noted(tracking, moments, Opened(tracking, t, m)),
                    v.owned, |v.chains|)
  {
    hide Inv, Sum;
    OwnedSum(v, page, {}, {});
    ArenasBelowBlocks(v, page, {});
    assert |v.chains| == |w.chains| + 1;
    GainedOk(tracking, if tracking then t.(created := WrapAdd(t.created, 1)) else t, moments, w.owned,
             if tracking then |v.chains| else |w.chains|, b, m);
  }
}
