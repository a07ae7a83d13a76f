/** The two-tier free list of the pool, abstractly: a magazine used as a stack
    and the overflow list, front first. */
module FreeLists {
  import opened Words

  const MAG_SIZE: nat := 14

  datatype FreeList = FreeList(mag: seq<nat>, spill: seq<nat>) {

    function Push(p: nat): (f: FreeList) {
      if |mag| < MAG_SIZE then FreeList(mag + [p], spill)
      else FreeList(mag, [p] + spill)
    }

    function Pop(): (r: Option<(nat, FreeList)>) {
      if |mag| > 0 then Some((mag[|mag| - 1], FreeList(mag[..|mag| - 1], spill)))
      else if |spill| > 0 then Some((spill[0], FreeList(mag, spill[1..])))
      else None
    }

    /** Everything the list holds, in no order. */
    ghost function Bag(): (b: multiset<nat>) {
      multiset(mag) + multiset(spill)
    }

    /** Pushes the elements of ps from left to right. */
    function PushAll(ps: seq<nat>): (f: FreeList)
      decreases |ps|
    {
      if ps == [] then this else PushAll(ps[..|ps| - 1]).Push(ps[|ps| - 1])
    }
  }

  /** n pops in a row: the pointers returned, first pop first, and the list left. */
  function PopMany(f: FreeList, n: nat): (r: (seq<nat>, FreeList))
    decreases n
  {
    if n == 0 then ([], f)
    else match f.Pop()
      case None => ([], f)
      case Some((p, g)) => var (ps, h) := PopMany(g, n - 1); ([p] + ps, h)
  }

  function Reversed(s: seq<nat>): (r: seq<nat>) {
    if s == [] then [] else [s[|s| - 1]] + Reversed(s[..|s| - 1])
  }

  ghost predicate NoDup<T>(s: seq<T>) {
    forall i, j :: 0 <= i < j < |s| ==> s[i] != s[j]
  }

  /** A push adds exactly the pushed pointer. */
  lemma PushBag(f: FreeList, p: nat)
    ensures f.Push(p).Bag() == f.Bag() + multiset{p}
    ensures |f.mag| <= MAG_SIZE ==> |f.Push(p).mag| <= MAG_SIZE
  {
  }

  /** A pop removes exactly the pointer it returns, and answers nothing exactly
      when both tiers are empty. */
  lemma PopBag(f: FreeList)
    ensures f.Pop().None? <==> f.Bag() == multiset{}
    ensures f.Pop().Some? ==>
              f.Bag() == f.Pop().value.1.Bag() + multiset{f.Pop().value.0}
  {
    if |f.mag| > 0 {
      assert f.mag == f.mag[..|f.mag| - 1] + [f.mag[|f.mag| - 1]];
      assert f.mag[|f.mag| - 1] in f.Bag();
    } else if |f.spill| > 0 {
      assert f.spill == [f.spill[0]] + f.spill[1..];
      assert f.spill[0] in f.Bag();
    }
  }

  /** A pop right after a push gives the pushed pointer, and the list back, exactly when
      the magazine had room. */
  lemma PopAfterPush(f: FreeList, p: nat)
    requires p !in f.mag
    ensures f.Push(p).Pop().Some?
    ensures f.Push(p).Pop().value.0 == p <==> |f.mag| < MAG_SIZE
    ensures |f.mag| < MAG_SIZE ==> f.Push(p).Pop().value.1 == f
  {
    if |f.mag| < MAG_SIZE {
      assert (f.mag + [p])[..|f.mag|] == f.mag;
    }
  }

  lemma {:induction false} PushAllBag(f: FreeList, ps: seq<nat>)
    ensures f.PushAll(ps).Bag() == f.Bag() + multiset(ps)
    ensures |f.mag| <= MAG_SIZE ==> |f.PushAll(ps).mag| <= MAG_SIZE
  {
    if ps != [] {
      var init, last := ps[..|ps| - 1], ps[|ps| - 1];
      PushAllBag(f, init);
      PushBag(f.PushAll(init), last);
      assert ps == init + [last];
    }
  }

  lemma {:induction false} PushAllMag(f: FreeList, ps: seq<nat>)
    requires |f.mag| + |ps| <= MAG_SIZE
    ensures f.PushAll(ps) == FreeList(f.mag + ps, f.spill)
  {
    if ps == [] {
      assert f.mag + ps == f.mag;
    } else {
      PushAllMag(f, ps[..|ps| - 1]);
      assert f.mag + ps == f.mag + ps[..|ps| - 1] + [ps[|ps| - 1]];
    }
  }

  lemma {:induction false} PopManyMag(mag: seq<nat>, ps: seq<nat>, spill: seq<nat>)
    ensures PopMany(FreeList(mag + ps, spill), |ps|) == (Reversed(ps), FreeList(mag, spill))
  {
    if ps == [] {
      assert mag + ps == mag;
    } else {
      var init := ps[..|ps| - 1];
      assert (mag + ps)[..|mag + ps| - 1] == mag + init;
      PopManyMag(mag, init, spill);
    }
  }

  /** Past the room left in the magazine, the last pushed pointer is no longer
      the first one popped. */
  lemma {:induction false} OverflowBuries(f: FreeList, ps: seq<nat>)
    requires |f.mag| <= MAG_SIZE < |f.mag| + |ps|
    ensures f.PushAll(ps).mag == (f.mag + ps)[..MAG_SIZE]
  {
    var init := ps[..|ps| - 1];
    if |f.mag| + |init| <= MAG_SIZE {
      PushAllMag(f, init);
      assert (f.mag + ps)[..MAG_SIZE] == f.mag + init;
    } else {
      OverflowBuries(f, init);
      assert (f.mag + ps)[..MAG_SIZE] == (f.mag + init)[..MAG_SIZE];
    }
  }

  lemma PopManyFirst(f: FreeList, n: nat)
    requires n > 0 && |f.mag| > 0
    ensures |PopMany(f, n).0| > 0 && PopMany(f, n).0[0] == f.mag[|f.mag| - 1]
  {
  }

  /** When the magazine overflows, the first pointer popped is not the last one
      pushed. */
  lemma OverflowBreaksLifo(f: FreeList, ps: seq<nat>)
    requires |f.mag| <= MAG_SIZE < |f.mag| + |ps| && |ps| > 0
    requires NoDup(f.mag + ps)
    ensures PopMany(f.PushAll(ps), |ps|).0 != Reversed(ps)
  {
    hide PopMany, Reversed, NoDup;
    var all := f.mag + ps;
    OverflowBuries(f, ps);
    PopManyFirst(f.PushAll(ps), |ps|);
    ReversedFirst(ps);
    NoDupAt(all, MAG_SIZE - 1, |all| - 1);
  }

  lemma ReversedFirst(s: seq<nat>)
    requires s != []
    ensures Reversed(s) != [] && Reversed(s)[0] == s[|s| - 1]
  {
  }

  lemma NoDupAt<T>(s: seq<T>, i: nat, j: nat)
    requires NoDup(s) && i < j < |s|
    ensures s[i] != s[j]
  {
  }

  /** Frees followed by as many allocations give the same pointers back, last
      freed first, exactly when the frees fit in the magazine. */
  lemma LifoExactlyWithinMagazine(f: FreeList, ps: seq<nat>)
    requires |f.mag| <= MAG_SIZE && |ps| > 0
    requires NoDup(f.mag + ps)
    ensures PopMany(f.PushAll(ps), |ps|) == (Reversed(ps), f) <==> |ps| <= MAG_SIZE - |f.mag|
  {
    hide PopMany, Reversed, FreeList.PushAll, NoDup;
    if |f.mag| + |ps| <= MAG_SIZE {
      PushAllMag(f, ps);
      PopManyMag(f.mag, ps, f.spill);
    } else {
      OverflowBreaksLifo(f, ps);
    }
  }

  // ----- sequences without repetition as bags ---------------------------------

  lemma {:induction false} NoDupBag<T>(s: seq<T>)
    requires NoDup(s)
    ensures multiset(s) == multiset(set x | x in s)
  {
    if s == [] {
    } else {
      var init, last := s[..|s| - 1], s[|s| - 1];
      NoDupBag(init);
      assert s == init + [last];
      assert (set x | x in s) == (set x | x in init) + {last};
      assert last !in init;
    }
  }

  /** A sequence whose elements each occur at most once has no repetition. */
  lemma BagNoDup<T>(s: seq<T>)
    requires forall x :: multiset(s)[x] <= 1
    ensures NoDup(s)
  {
    forall i, j | 0 <= i < j < |s| ensures s[i] != s[j] {
      assert s == s[..j] + s[j..];
      assert s[i] in s[..j] && s[j] in s[j..];
      assert multiset(s)[s[i]] == multiset(s[..j])[s[i]] + multiset(s[j..])[s[i]];
    }
  }
}
