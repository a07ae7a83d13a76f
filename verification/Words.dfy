/** size_t arithmetic, powers of two and the layout of 64-bit words in byte memory. */
module Words {

  /** One more than SIZE_MAX on the 64-bit targets the library supports. */
  const WORD: nat := 0x1_0000_0000_0000_0000

  /** 2^63. */
  const HALF_WORD: nat := 0x8000_0000_0000_0000

  type byte = x: int | 0 <= x < 256

  datatype Option<+T> = None | Some(value: T)

  // ----- powers of two -------------------------------------------------------

  function Pow2(n: nat): (r: nat)
    ensures r >= 1
  {
    if n == 0 then 1 else 2 * Pow2(n - 1)
  }

  ghost predicate IsPow2(x: nat) {
    exists n: nat :: x == Pow2(n)
  }

  lemma {:induction false} Pow2Divides(i: nat, j: nat)
    requires i <= j
    ensures Pow2(j) % Pow2(i) == 0
    ensures Pow2(i) <= Pow2(j)
    decreases j - i
  {
    if i < j {
      Pow2Divides(i, j - 1);
      MultipleTimes(2, Pow2(j - 1), Pow2(i));
    }
  }

  /** Of two powers of two the smaller divides the larger. */
  lemma Pow2Ordered(a: nat, b: nat)
    requires IsPow2(a) && IsPow2(b) && a <= b
    ensures a > 0 && b % a == 0
  {
    var i: nat :| a == Pow2(i);
    var j: nat :| b == Pow2(j);
    if j < i {
      Pow2Divides(j, i);
      assert a == b;
      ModSelf(a);
    } else {
      Pow2Divides(i, j);
    }
  }

  /** x >> s on size_t. */
  function ShiftRight(x: nat, s: nat): (r: nat)
    decreases s
  {
    if s == 0 then x else ShiftRight(x / 2, s - 1)
  }

  /** Shifting right divides by a power of two, rounding down. */
  lemma {:induction false} ShiftRightDivides(x: nat, s: nat)
    ensures ShiftRight(x, s) * Pow2(s) <= x < (ShiftRight(x, s) + 1) * Pow2(s)
    decreases s
  {
    if s > 0 {
      ShiftRightDivides(x / 2, s - 1);
      var r, d := ShiftRight(x / 2, s - 1), Pow2(s - 1);
      TwiceProduct(r, d);
      TwiceProduct(r + 1, d);
    }
  }

  lemma TwiceProduct(r: nat, d: nat)
    ensures r * (2 * d) == 2 * (r * d)
  {
  }

  lemma {:induction false} Pow2Sum(a: nat, b: nat)
    ensures Pow2(a + b) == Pow2(a) * Pow2(b)
    decreases a
  {
    if a > 0 {
      Pow2Sum(a - 1, b);
      assert 2 * (Pow2(a - 1) * Pow2(b)) == (2 * Pow2(a - 1)) * Pow2(b);
    }
  }

  lemma Pow2Step(n: nat)
    ensures Pow2(0) == 1 && Pow2(n + 1) == 2 * Pow2(n)
  {
  }

  lemma Pow2Four()
    ensures Pow2(4) == 16
  {
  }

  lemma Pow2Word()
    ensures Pow2(63) == HALF_WORD && Pow2(64) == WORD
  {
    hide Pow2;
    Pow2Four();
    Pow2Sum(4, 4);
    Pow2Sum(8, 8);
    Pow2Sum(16, 16);
    Pow2Sum(32, 32);
    Pow2Step(63);
  }

  // ----- division facts ------------------------------------------------------

  lemma ModSelf(a: nat)
    requires a > 0
    ensures a % a == 0
  {
    ModUnique(a, a, 1, 0);
  }

  /** Quotient and remainder are determined by x == q * d + r. */
  lemma ModUnique(x: int, d: int, q: int, r: int)
    requires d > 0 && 0 <= r < d && x == q * d + r
    ensures x / d == q && x % d == r
  {
    var q', r' := x / d, x % d;
    assert x == q' * d + r';
    if q' < q {
      assert (q - q') * d >= d by { MulMono(1, q - q', d); }
    } else if q' > q {
      assert (q' - q) * d >= d by { MulMono(1, q' - q, d); }
    }
  }

  lemma MulMono(a: int, b: int, d: int)
    requires a <= b && d >= 0
    ensures a * d <= b * d
  {
    assert (b - a) * d >= 0;
  }

  lemma ModAdd(x: int, y: int, d: int)
    requires d > 0 && y % d == 0
    ensures (x + y) % d == x % d
    ensures (x + y) / d == x / d + y / d
  {
    var qx, qy := x / d, y / d;
    assert x + y == (qx + qy) * d + x % d by {
      assert x == qx * d + x % d;
      assert y == qy * d;
    }
    ModUnique(x + y, d, qx + qy, x % d);
  }

  lemma MultipleTimes(q: int, x: int, d: int)
    requires d > 0 && x % d == 0
    ensures (q * x) % d == 0
  {
    var k := x / d;
    assert x == k * d;
    assert q * x == (q * k) * d + 0 by { assert q * (k * d) == (q * k) * d; }
    ModUnique(q * x, d, q * k, 0);
  }

  lemma ModTransitive(x: int, b: int, a: int)
    requires a > 0 && b > 0 && x % b == 0 && b % a == 0
    ensures x % a == 0
  {
    assert x == (x / b) * b;
    MultipleTimes(x / b, b, a);
  }

  /** Two different multiples of d are at least d apart. */
  lemma MultiplesApart(x: int, y: int, d: int)
    requires d > 0 && x % d == 0 && y % d == 0 && x < y
    ensures x + d <= y
  {
    var qx, qy := x / d, y / d;
    assert x == qx * d && y == qy * d;
    if qy <= qx {
      MulMono(qy, qx, d);
    }
    MulMono(qx + 1, qy, d);
  }

  lemma DivTimes(x: nat, d: nat)
    requires d > 0 && x % d == 0
    ensures x / d * d == x
    ensures x > 0 ==> x / d > 0
  {
  }

  lemma DivMono(x: int, y: int, d: int)
    requires d > 0 && x <= y
    ensures x / d <= y / d
  {
    var qx, qy := x / d, y / d;
    assert x == qx * d + x % d && y == qy * d + y % d;
    if qy < qx {
      MulMono(qy + 1, qx, d);
    }
  }

  // ----- checked arithmetic of bc_core ---------------------------------------

  /** safe_add: the exact sum, or nothing when it does not fit in size_t. */
  function SafeAdd(a: nat, b: nat): (r: Option<nat>) {
    if a + b < WORD then Some(a + b) else None
  }

  function Times(a: nat, b: nat): (r: nat) {
    a * b
  }

  lemma TimesMono(a: nat, b: nat, d: nat)
    requires a <= b
    ensures Times(a, d) <= Times(b, d)
  {
    MulMono(a, b, d);
  }

  lemma TimesSucc(n: nat, d: nat)
    ensures Times(n + 1, d) == Times(n, d) + d && Times(0, d) == 0
  {
  }

  /** safe_multiply: the exact product, or nothing when it does not fit. */
  function SafeMultiply(a: nat, b: nat): (r: Option<nat>) {
    if Times(a, b) < WORD then Some(Times(a, b)) else None
  }

  /** The least multiple of a that is at least x. */
  function RoundUp(x: nat, a: nat): (r: nat)
    requires a > 0
    ensures x <= r < x + a
    ensures r % a == 0
  {
    if x % a == 0 then x
    else
      assert x == (x / a) * a + x % a;
      ModUnique((x / a + 1) * a, a, x / a + 1, 0);
      assert (x / a + 1) * a == (x / a) * a + a;
      (x / a + 1) * a
  }

  lemma RoundUpLeast(x: nat, a: nat, y: nat)
    requires a > 0 && x <= y && y % a == 0
    ensures RoundUp(x, a) <= y
  {
    var r := RoundUp(x, a);
    if y < r {
      MultiplesApart(y, r, a);
    }
  }

  /** align_up: nothing exactly when the rounded value does not fit in size_t. */
  function AlignUp(x: nat, a: nat): (r: Option<nat>)
    requires a > 0
  {
    if RoundUp(x, a) < WORD then Some(RoundUp(x, a)) else None
  }

  // ----- wrapping arithmetic -------------------------------------------------

  /** a + b on size_t. */
  function WrapAdd(a: nat, b: nat): (r: nat) {
    if a + b < WORD then a + b else a + b - WORD
  }

  /** a - b on size_t. */
  function WrapSub(a: nat, b: nat): (r: nat) {
    if b <= a then a - b else if b <= a + WORD then a + WORD - b else 0
  }

  // ----- words in byte memory ------------------------------------------------

  /** Little-endian value of a byte string. */
  function Decode(s: seq<byte>): (v: nat) {
    if s == [] then 0 else s[0] + 256 * Decode(s[1..])
  }

  /** The n low bytes of v, least significant first. */
  function Encode(v: nat, n: nat): (s: seq<byte>)
    ensures |s| == n
  {
    if n == 0 then [] else [v % 256] + Encode(v / 256, n - 1)
  }

  function Pow256(n: nat): (r: nat)
    ensures r >= 1
  {
    if n == 0 then 1 else 256 * Pow256(n - 1)
  }

  lemma {:induction false} DecodeEncode(v: nat, n: nat)
    requires v < Pow256(n)
    ensures Decode(Encode(v, n)) == v
  {
    if n > 0 {
      assert v / 256 < Pow256(n - 1);
      DecodeEncode(v / 256, n - 1);
      assert Encode(v, n)[1..] == Encode(v / 256, n - 1);
    }
  }

  lemma {:induction false} DecodeBound(s: seq<byte>)
    ensures Decode(s) < Pow256(|s|)
  {
    if s != [] {
      DecodeBound(s[1..]);
    }
  }

  lemma WordSize()
    ensures Pow256(8) == WORD
  {
    assert Pow256(4) == 0x1_0000_0000;
  }

  function GetWord(m: seq<byte>, o: nat): (v: nat)
    requires o + 8 <= |m|
  {
    Decode(m[o..o + 8])
  }

  lemma GetWordBound(m: seq<byte>, o: nat)
    requires o + 8 <= |m|
    ensures GetWord(m, o) < WORD
  {
    DecodeBound(m[o..o + 8]);
    WordSize();
  }

  /** m with the bytes from o on replaced by s. */
  function Splice(m: seq<byte>, o: nat, s: seq<byte>): (r: seq<byte>)
    requires o + |s| <= |m|
    ensures |r| == |m|
  {
    m[..o] + s + m[o + |s|..]
  }

  lemma SpliceFrame(m: seq<byte>, o: nat, s: seq<byte>, lo: nat, hi: nat)
    requires o + |s| <= |m| && lo <= hi <= |m|
    requires hi <= o || o + |s| <= lo
    ensures Splice(m, o, s)[lo..hi] == m[lo..hi]
  {
  }

  function PutWord(m: seq<byte>, o: nat, v: nat): (r: seq<byte>)
    requires o + 8 <= |m|
    ensures |r| == |m|
  {
    Splice(m, o, Encode(v, 8))
  }

  /** A word written is the word read back. */
  lemma GetPutSame(m: seq<byte>, o: nat, v: nat)
    requires o + 8 <= |m| && v < WORD
    ensures GetWord(PutWord(m, o, v), o) == v
  {
    assert PutWord(m, o, v)[o..o + 8] == Encode(v, 8);
    WordSize();
    DecodeEncode(v, 8);
  }

  /** Bytes outside the written word keep their value. */
  lemma PutWordFrame(m: seq<byte>, o: nat, v: nat, lo: nat, hi: nat)
    requires o + 8 <= |m| && lo <= hi <= |m|
    requires hi <= o || o + 8 <= lo
    ensures PutWord(m, o, v)[lo..hi] == m[lo..hi]
  {
    SpliceFrame(m, o, Encode(v, 8), lo, hi);
  }

  lemma GetPutOther(m: seq<byte>, o: nat, v: nat, q: nat)
    requires o + 8 <= |m| && q + 8 <= |m|
    requires q + 8 <= o || o + 8 <= q
    ensures GetWord(PutWord(m, o, v), q) == GetWord(m, q)
  {
    PutWordFrame(m, o, v, q, q + 8);
  }

  /** The elements of an array as a value. */
  ghost function Snap<T>(a: array<T>): (s: seq<T>)
    reads a
    ensures |s| == a.Length
  {
    a[..]
  }

  lemma SnapAt<T>(a: array<T>, i: nat)
    requires i < a.Length
    ensures Snap(a)[i] == a[i]
  {
  }

  /** Reading one word. */
  method LoadWord(mem: array<byte>, o: nat) returns (v: nat)
    requires o + 8 <= mem.Length
    ensures v == GetWord(Snap(mem), o)
    ensures v < WORD
  {
    v := 0;
    var i := 8;
    while i > 0
      invariant 0 <= i <= 8
      invariant v == Decode(mem[o + i..o + 8])
    {
      i := i - 1;
      assert mem[o + i..o + 8][1..] == mem[o + i + 1..o + 8];
      v := mem[o + i] + 256 * v;
    }
    assert mem[..][o..o + 8] == mem[o..o + 8];
    GetWordBound(mem[..], o);
  }

  /** Writing one word. */
  method StoreWord(mem: array<byte>, o: nat, v: nat)
    requires o + 8 <= mem.Length
    modifies mem
    ensures Snap(mem) == PutWord(old(Snap(mem)), o, v)
  {
    var bytes := Encode(v, 8);
    ghost var m := mem[..];
    hide Encode;
    forall i | 0 <= i < 8 {
      mem[o + i] := bytes[i];
    }
    assert forall i :: 0 <= i < |m| ==> mem[..][i] == Splice(m, o, bytes)[i];
  }

  /** Writing a byte string. */
  method SpliceInto(mem: array<byte>, o: nat, s: seq<byte>)
    requires o + |s| <= mem.Length
    modifies mem
    ensures Snap(mem) == Splice(old(Snap(mem)), o, s)
  {
    ghost var m := mem[..];
    forall i | 0 <= i < |s| {
      mem[o + i] := s[i];
    }
    assert forall i :: 0 <= i < |m| ==> mem[..][i] == Splice(m, o, s)[i];
  }

  /** bc_core_copy between two ranges that do not overlap. */
  method CopyBytes(mem: array<byte>, dst: nat, src: nat, n: nat)
    requires dst + n <= mem.Length && src + n <= mem.Length
    requires dst + n <= src || src + n <= dst
    modifies mem
    ensures Snap(mem) == Splice(old(Snap(mem)), dst, old(Snap(mem)[src..src + n]))
  {
    ghost var m := mem[..];
    forall i | 0 <= i < n {
      mem[dst + i] := mem[src + i];
    }
    assert |mem[..]| == |m|;
    assert forall i :: 0 <= i < |m| ==> mem[..][i] == Splice(m, dst, m[src..src + n])[i];
  }
}
