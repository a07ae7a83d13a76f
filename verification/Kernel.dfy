/** The kernel's side of mapping memory. */
module Kernel {
  import opened Words

  /** [b, b + size) is a range the kernel may answer for size bytes when m is mapped. */
  predicate FreshRange(m: map<nat, nat>, page: nat, b: nat, size: nat) {
    && b > 0 && page > 0 && b % page == 0 && b + size < WORD && b !in m
    && forall c | c in m :: b + size <= c || c + m[c] <= b
  }

  /** The kernel maps a fresh range, or refuses. */
  method PlatformMap(held: map<nat, nat>, page: nat, size: nat) returns (ok: bool, block: nat)
    ensures ok ==> FreshRange(held, page, block, size)
  {
    block := *;
    ok := FreshRange(held, page, block, size);
  }

  /** No range of m shares a byte or its start with one of r. */
  ghost predicate Clear(r: map<nat, nat>, m: map<nat, nat>) {
    && (forall c {:trigger c in r} {:trigger r[c]} :: c in r ==> r[c] > 0 && c !in m)
    && (forall c, b {:trigger r[c], m[b]} :: c in r && b in m ==> c + r[c] <= b || b + m[b] <= c)
  }

  /** A range fresh against both is fresh against the second, and stays clear of the
      first. */
  lemma FreshOfBoth(r: map<nat, nat>, m: map<nat, nat>, page: nat, b: nat, size: nat)
    requires Clear(r, m) && FreshRange(r + m, page, b, size)
    ensures FreshRange(m, page, b, size) && Clear(r, m[b := size])
  {
    forall c | c in m ensures b + size <= c || c + m[c] <= b {
      assert c in r + m && (r + m)[c] == m[c];
    }
    forall c | c in r ensures c + r[c] <= b || b + size <= c {
      assert c in r + m && (r + m)[c] == r[c];
    }
  }

  lemma ClearLess(r: map<nat, nat>, m: map<nat, nat>, n: map<nat, nat>)
    requires Clear(r, m) && forall b :: b in n ==> b in m && n[b] == m[b]
    ensures Clear(r, n)
  {
    forall c, b | c in r && b in n ensures c + r[c] <= b || b + n[b] <= c {
      assert b in m && m[b] == n[b];
    }
  }
}
