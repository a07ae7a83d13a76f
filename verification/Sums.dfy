/** Sums of sizes over finite maps. */
module Sums {

  ghost function Sum(m: map<nat, nat>): (n: nat)
    decreases |m|
  {
    if m == map[] then 0
    else
      var k :| k in m;
      m[k] + Sum(m - {k})
  }

  /** The sum does not depend on the order in which entries are counted. */
  lemma {:induction false} SumRemove(m: map<nat, nat>, k: nat)
    requires k in m
    ensures Sum(m) == m[k] + Sum(m - {k})
    decreases |m|
  {
    assert m != map[];
    var j :| j in m && Sum(m) == m[j] + Sum(m - {j});
    if j != k {
      var a, b := m - {j}, m - {k};
      SumRemove(a, k);
      assert |b| == |m| - 1;
      SumRemove(b, j);
      assert a - {k} == b - {j};
    }
  }

  lemma SumAdd(m: map<nat, nat>, k: nat, v: nat)
    requires k !in m
    ensures Sum(m[k := v]) == Sum(m) + v
  {
    SumRemove(m[k := v], k);
    assert m[k := v] - {k} == m;
  }

  lemma SumReplace(m: map<nat, nat>, k: nat, v: nat)
    requires k in m
    ensures Sum(m[k := v]) == Sum(m) - m[k] + v
  {
    SumRemove(m, k);
    SumAdd(m - {k}, k, v);
    assert (m - {k})[k := v] == m[k := v];
  }

  lemma CountAdd(m: map<nat, nat>, k: nat, v: nat)
    requires k !in m
    ensures |m[k := v]| == |m| + 1
  {
    assert m[k := v].Keys == m.Keys + {k};
  }

  lemma CountRemove(m: map<nat, nat>, k: nat)
    requires k in m
    ensures |m - {k}| == |m| - 1
  {
    assert (m - {k}).Keys == m.Keys - {k};
  }

  lemma CountReplace(m: map<nat, nat>, k: nat, v: nat)
    requires k in m
    ensures |m[k := v]| == |m|
  {
    assert m[k := v].Keys == m.Keys;
  }

  lemma SumEmpty()
    ensures Sum(map[]) == 0
  {
  }

  lemma {:induction false} MaxKey(m: map<nat, nat>) returns (k: nat)
    requires m != map[]
    ensures k in m && forall j :: j in m ==> j <= k
    decreases |m|
  {
    k :| k in m;
    var rest := m - {k};
    if rest != map[] {
      var j := MaxKey(rest);
      assert forall i :: i in m ==> i == k || i in rest;
      if j > k {
        k := j;
      }
    }
  }

  /** Ranges [p, p + m[p]) that do not overlap and end at or before bound have
      at most bound bytes altogether. */
  lemma {:induction false} SumPacked(m: map<nat, nat>, bound: nat)
    requires forall p :: p in m ==> p + m[p] <= bound
    requires forall p, q :: p in m && q in m && p < q ==> p + m[p] <= q
    ensures Sum(m) <= bound
    decreases |m|
  {
    if m != map[] {
      var k := MaxKey(m);
      SumRemove(m, k);
      assert |m - {k}| == |m| - 1;
      SumPacked(m - {k}, k);
    }
  }

  /** The same for ranges that start at or past lo. */
  lemma {:induction false} SumPackedFrom(m: map<nat, nat>, lo: nat, bound: nat)
    requires lo <= bound
    requires forall p :: p in m ==> lo <= p && p + m[p] <= bound
    requires forall p, q :: p in m && q in m && p < q ==> p + m[p] <= q
    ensures Sum(m) <= bound - lo
    decreases |m|
  {
    if m != map[] {
      var k := MaxKey(m);
      SumRemove(m, k);
      assert |m - {k}| == |m| - 1;
      SumPackedFrom(m - {k}, lo, k);
    }
  }

  lemma {:induction false} CountAtMostSum(m: map<nat, nat>)
    requires forall p :: p in m ==> m[p] >= 1
    ensures |m| <= Sum(m)
    decreases |m|
  {
    if m != map[] {
      var k :| k in m;
      SumRemove(m, k);
      assert |m - {k}| == |m| - 1;
      CountAtMostSum(m - {k});
    }
  }

  /** The entries of the keys in s together. */
  ghost function SumOver(m: map<nat, nat>, s: seq<nat>): (n: nat)
    decreases |s|
  {
    if s == [] then 0
    else SumOver(m, s[..|s| - 1]) + if s[|s| - 1] in m then m[s[|s| - 1]] else 0
  }

  lemma {:induction false} SumOverWithout(m: map<nat, nat>, s: seq<nat>, b: nat)
    requires b !in s
    ensures SumOver(m, s) == SumOver(m - {b}, s)
    decreases |s|
  {
    if s != [] {
      SumOverWithout(m, s[..|s| - 1], b);
    }
  }

  /** The entries of different keys are no more than all entries. */
  lemma {:induction false} SumOverBelow(m: map<nat, nat>, s: seq<nat>)
    requires forall i, j :: 0 <= i < j < |s| ==> s[i] != s[j]
    requires forall b :: b in s ==> b in m
    ensures SumOver(m, s) <= Sum(m)
    decreases |s|
  {
    if s != [] {
      var init, b := s[..|s| - 1], s[|s| - 1];
      SumRemove(m, b);
      SumOverWithout(m, init, b);
      SumOverBelow(m - {b}, init);
    }
  }
}
