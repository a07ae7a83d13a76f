/** The growable array generated by BC_TYPED_ARRAY_DEFINE, on top of the pool.
    Elements are byte strings of the size of the element type. */
module TypedArrays {
  import opened Words
  import opened Extents
  import opened Heaps
  import opened HeapRuns
  import opened PoolMemory
  import opened PoolPlans
  import opened Pools

  // ----- elements laid out in memory ---------------------------------------------------

  function Flat(es: seq<seq<byte>>): (s: seq<byte>)
    decreases |es|
  {
    if es == [] then [] else Flat(es[..|es| - 1]) + es[|es| - 1]
  }

  ghost predicate Sized(es: seq<seq<byte>>, size: nat) {
    forall i :: 0 <= i < |es| ==> |es[i]| == size
  }

  lemma {:induction false} FlatLength(es: seq<seq<byte>>, size: nat)
    requires Sized(es, size)
    ensures |Flat(es)| == Times(|es|, size)
  {
    hide Times;
    if es != [] {
      FlatLength(es[..|es| - 1], size);
      TimesSucc(|es| - 1, size);
    } else {
      TimesSucc(0, size);
    }
  }

  lemma FlatFits(es: seq<seq<byte>>, size: nat, cap: nat)
    requires Sized(es, size) && |es| <= cap
    ensures |Flat(es)| == Times(|es|, size) <= Times(cap, size)
  {
    FlatLength(es, size);
    TimesMono(|es|, cap, size);
  }

  lemma FlatSnoc(es: seq<seq<byte>>, e: seq<byte>)
    ensures Flat(es + [e]) == Flat(es) + e
  {
    assert (es + [e])[..|es|] == es;
  }

  lemma {:induction false} FlatConcat(a: seq<seq<byte>>, b: seq<seq<byte>>)
    ensures Flat(a + b) == Flat(a) + Flat(b)
    decreases |b|
  {
    hide Flat;
    if b == [] {
      assert a + b == a;
      FlatEmpty();
    } else {
      var init, e := b[..|b| - 1], b[|b| - 1];
      FlatConcat(a, init);
      assert b == init + [e] && a + b == (a + init) + [e];
      FlatSnoc(init, e);
      FlatSnoc(a + init, e);
    }
  }

  lemma FlatEmpty()
    ensures Flat([]) == []
  {
  }

  /** data[i] is element i. */
  lemma {:induction false} FlatAt(es: seq<seq<byte>>, size: nat, i: nat)
    requires Sized(es, size) && i < |es|
    ensures Times(i, size) + size <= |Flat(es)|
    ensures Flat(es)[Times(i, size)..Times(i, size) + size] == es[i]
    decreases |es|
  {
    hide Times;
    var init := es[..|es| - 1];
    FlatLength(init, size);
    if i < |es| - 1 {
      FlatAt(init, size, i);
    }
  }

  // ----- growth ---------------------------------------------------------------------------

  /** The capacity push asks for when the array is full. */
  function GrownCapacity(capacity: nat): (c: nat) {
    if capacity == 0 then 8 else WrapAdd(capacity, capacity)
  }

  /** Capacity and number of growths after n pushes on an empty array. */
  function PushRun(n: nat): (r: (nat, nat)) {
    if n == 0 then (0, 0)
    else
      var (cap, growths) := PushRun(n - 1);
      if n - 1 < cap then (cap, growths) else (GrownCapacity(cap), growths + 1)
  }

  /** n pushes with g growths leave a capacity of 8 * 2^(g - 1), less than twice
      the length once there are more than eight elements: g is logarithmic in n. */
  lemma {:induction false} PushRunDoubles(n: nat)
    requires 1 <= n <= HALF_WORD
    ensures var (cap, g) := PushRun(n);
            && g >= 1 && cap == 8 * Pow2(g - 1) && n <= cap
            && (n > 8 ==> cap < 2 * n)
  {
    if n > 1 {
      PushRunDoubles(n - 1);
    }
  }

  /** The doubling loop of append_bulk, n times from c. */
  function Doubled(c: nat, n: nat): (r: nat)
    decreases n
  {
    if n == 0 then c else Doubled(WrapAdd(c, c), n - 1)
  }

  /** The largest capacity among c and its first n doublings on size_t. */
  function Highest(c: nat, n: nat): (r: nat)
    decreases n
  {
    if n == 0 then c
    else
      var r := Highest(WrapAdd(c, c), n - 1);
      if c > r then c else r
  }

  lemma {:induction false} DoubledSnoc(c: nat, n: nat)
    ensures Doubled(c, n + 1) == WrapAdd(Doubled(c, n), Doubled(c, n))
    decreases n
  {
    hide WrapAdd;
    if n > 0 {
      DoubledSnoc(WrapAdd(c, c), n - 1);
    }
  }

  /** n doublings leave n zero bits, so that sixty-four leave nothing. */
  lemma {:induction false} DoubledVanishes(c: nat, n: nat)
    requires c < WORD
    ensures Doubled(c, n) < WORD
    ensures n <= 64 ==> Doubled(c, n) % Pow2(n) == 0
    ensures n >= 64 ==> Doubled(c, n) == 0
    decreases n
  {
    hide Doubled, Pow2;
    if n == 0 {
      assert Doubled(c, 0) == c by { DoubledNone(c); }
      Pow2Step(0);
    } else {
      var d := Doubled(c, n - 1);
      DoubledVanishes(c, n - 1);
      DoubledSnoc(c, n - 1);
      if n <= 64 {
        TwiceDivisible(d, n);
        Pow2Word();
        if n == 64 {
          MultipleBelow(Doubled(c, n));
        }
      }
    }
  }

  lemma DoubledNone(c: nat)
    ensures Doubled(c, 0) == c
  {
  }

  lemma MultipleBelow(x: nat)
    requires x < WORD && x % WORD == 0
    ensures x == 0
  {
  }

  /** Doubling on size_t keeps the zero bits and adds one. */
  lemma TwiceDivisible(d: nat, n: nat)
    requires 0 < n <= 64 && d < WORD && d % Pow2(n - 1) == 0
    ensures WrapAdd(d, d) % Pow2(n) == 0
  {
    hide Pow2;
    var p := Pow2(n - 1);
    Pow2Step(n - 1);
    Pow2Word();
    Pow2Divides(n, 64);
    var q := d / p;
    assert d == q * p;
    assert d + d == q * (2 * p) by { TwiceProduct(q, p); }
    ModUnique(d + d, 2 * p, q, 0);
    if d + d >= WORD {
      ModAdd(d + d - WORD, WORD, 2 * p);
    }
  }

  lemma {:induction false} HighestAbove(c: nat, n: nat, k: nat)
    requires k <= n
    ensures Doubled(c, k) <= Highest(c, n)
    decreases n
  {
    hide WrapAdd;
    if k > 0 {
      HighestAbove(WrapAdd(c, c), n - 1, k - 1);
    }
  }

  lemma {:induction false} HighestReached(c: nat, n: nat) returns (k: nat)
    ensures k <= n && Doubled(c, k) == Highest(c, n)
    decreases n
  {
    hide WrapAdd;
    k := 0;
    if n > 0 {
      var j := HighestReached(WrapAdd(c, c), n - 1);
      if Highest(c, n) != c {
        k := j + 1;
      }
    }
  }

  /** The doubling loop ends exactly when the required length is among what sixty-three
      doublings on size_t can reach, whatever the capacity it starts from. */
  lemma DoublingEndsExactly(c: nat, required: nat)
    requires 0 < c < WORD && required > 0
    ensures (exists n: nat :: Doubled(c, n) >= required) <==> required <= Highest(c, 63)
  {
    hide Doubled, Highest;
    if required <= Highest(c, 63) {
      var k := HighestReached(c, 63);
      assert Doubled(c, k) >= required;
    }
    if n: nat :| Doubled(c, n) >= required {
      DoubledVanishes(c, n);
      HighestAbove(c, 63, if n <= 63 then n else 0);
    }
  }

  /** From every capacity 2^63 can be reached. */
  lemma {:induction false} HalfReached(c: nat, n: nat)
    requires 0 < c < WORD && c * Pow2(n) >= HALF_WORD
    ensures Highest(c, n) >= HALF_WORD
    decreases n
  {
    if n > 0 && c < HALF_WORD {
      TwiceProduct(c, Pow2(n - 1));
      HalfReached(2 * c, n - 1);
    }
  }

  /** From a power of two, as all capacities reached by push and append_bulk alone are,
      no more than that. */
  lemma {:induction false} PowerReach(j: nat, n: nat)
    requires j < 64
    ensures Highest(Pow2(j), n) <= HALF_WORD
    decreases n
  {
    hide Pow2;
    Pow2Word();
    Pow2Divides(j, 63);
    if n > 0 {
      if j < 63 {
        Pow2Step(j);
        Pow2Divides(j + 1, 63);
        PowerReach(j + 1, n - 1);
      } else {
        ZeroStays(n - 1);
      }
    }
  }

  lemma {:induction false} ZeroStays(n: nat)
    ensures Highest(0, n) == 0
  {
    if n > 0 {
      ZeroStays(n - 1);
    }
  }

  /** For powers of two the loop ends exactly up to 2^63, and for every capacity it ends
      up to 2^63 at least. */
  lemma ReachExact(c: nat)
    requires 0 < c < WORD
    ensures Highest(c, 63) >= HALF_WORD
    ensures IsPow2(c) ==> Highest(c, 63) == HALF_WORD
  {
    hide Highest, Pow2;
    Pow2Word();
    MulMono(1, c, Pow2(63));
    HalfReached(c, 63);
    if IsPow2(c) {
      var j: nat :| c == Pow2(j);
      if j >= 64 {
        Pow2Divides(64, j);
      } else {
        PowerReach(j, 63);
      }
    }
  }

  /** Where the doubling loop starts. */
  function LoopStart(capacity: nat): (c: nat) {
    if capacity == 0 then 8 else capacity
  }

  /** c doubled on size_t until it reaches required, at most n times. */
  function DoubleUntil(c: nat, required: nat, n: nat): (r: nat)
    decreases n
  {
    if c >= required || n == 0 then c else DoubleUntil(WrapAdd(c, c), required, n - 1)
  }

  /** The capacity append_bulk asks for to hold required elements. */
  function BulkCapacity(capacity: nat, required: nat): (c: nat) {
    DoubleUntil(LoopStart(capacity), required, 63)
  }

  /** The doubling loop computes it, whenever it ends. */
  method CapacityFor(capacity: nat, required: nat) returns (newCap: nat)
    requires capacity < required < WORD && required <= Highest(LoopStart(capacity), 63)
    ensures newCap == BulkCapacity(capacity, required)
    ensures required <= newCap < WORD
  {
    hide Highest, DoubleUntil, WrapAdd;
    newCap := if capacity == 0 then 8 else capacity;
    ghost var left: nat := 63;
    while newCap < required
      invariant newCap < WORD && required <= Highest(newCap, left)
      invariant DoubleUntil(newCap, required, left) == BulkCapacity(capacity, required)
      decreases left
    {
      LoopTurn(newCap, required, left);
      newCap := WrapAdd(newCap, newCap);
      left := left - 1;
    }
    LoopDone(newCap, required, left);
  }

  lemma LoopTurn(c: nat, required: nat, n: nat)
    requires c < required <= Highest(c, n) && c < WORD
    ensures n > 0 && WrapAdd(c, c) < WORD && required <= Highest(WrapAdd(c, c), n - 1)
    ensures DoubleUntil(c, required, n) == DoubleUntil(WrapAdd(c, c), required, n - 1)
  {
  }

  lemma LoopDone(c: nat, required: nat, n: nat)
    requires required <= c
    ensures DoubleUntil(c, required, n) == c
  {
  }

  lemma {:induction false} DoubleUntilBounds(c: nat, required: nat, n: nat)
    requires c < WORD && required <= Highest(c, n)
    ensures DoubleUntil(c, required, n) >= required
    ensures DoubleUntil(c, required, n) == c || DoubleUntil(c, required, n) < 2 * required
    decreases n
  {
    if c < required {
      DoubleUntilBounds(WrapAdd(c, c), required, n - 1);
    }
  }

  /** Room for the required elements and less than twice as many, or the least
      capacity of eight. */
  lemma BulkCapacityBounds(capacity: nat, required: nat)
    requires capacity < required < WORD && required <= Highest(LoopStart(capacity), 63)
    ensures required <= BulkCapacity(capacity, required)
    ensures BulkCapacity(capacity, required) < if 2 * required > 9 then 2 * required else 9
  {
    hide Highest, DoubleUntil;
    DoubleUntilBounds(LoopStart(capacity), required, 63);
  }

  /** k doublings on size_t multiply by 2^k, modulo 2^64. */
  lemma {:induction false} DoubledIsShift(c: nat, k: nat)
    requires c < WORD
    ensures Doubled(c, k) == (c * Pow2(k)) % WORD
    decreases k
  {
    hide Doubled, Pow2;
    if k == 0 {
      DoubledNone(c);
      Pow2Step(0);
      ModUnique(c, WORD, 0, c);
    } else {
      DoubledIsShift(c, k - 1);
      DoubledSnoc(c, k - 1);
      Pow2Step(k - 1);
      TwiceProduct(c, Pow2(k - 1));
      TwiceMod(c * Pow2(k - 1));
    }
  }

  lemma TwiceMod(x: nat)
    ensures WrapAdd(x % WORD, x % WORD) == (2 * x) % WORD
  {
  }

  /** The capacity append_bulk asks for is its present one, or 8, times the least power of
      two that reaches the required length. */
  lemma BulkCapacityIsLeast(capacity: nat, required: nat) returns (k: nat)
    requires capacity < required < WORD && required <= Highest(LoopStart(capacity), 63)
    ensures var start := if capacity == 0 then 8 else capacity;
            && BulkCapacity(capacity, required) == (start * Pow2(k)) % WORD
            && forall j: nat :: j < k ==> (start * Pow2(j)) % WORD < required
    ensures capacity == 0 ==> BulkCapacity(capacity, required) >= 8
  {
    hide Highest, Doubled, DoubleUntil;
    var start := LoopStart(capacity);
    k := UntilIsDoubled(start, required, 63);
    DoubledIsShift(start, k);
    forall j: nat | j < k ensures (start * Pow2(j)) % WORD < required {
      DoubledIsShift(start, j);
    }
    DoubleUntilBounds(start, required, 63);
    if capacity == 0 && required < 8 {
      LoopDone(8, required, 63);
    }
  }

  lemma {:induction false} UntilIsDoubled(c: nat, required: nat, n: nat) returns (k: nat)
    ensures k <= n && DoubleUntil(c, required, n) == Doubled(c, k)
    ensures forall j: nat :: j < k ==> Doubled(c, j) < required
    decreases n
  {
    hide WrapAdd;
    k := 0;
    if c < required && n > 0 {
      var i := UntilIsDoubled(WrapAdd(c, c), required, n - 1);
      k := i + 1;
      forall j: nat | j < k ensures Doubled(c, j) < required {
        if j > 0 {
          assert Doubled(c, j) == Doubled(WrapAdd(c, c), j - 1);
        }
      }
    }
  }

  // ----- the array ------------------------------------------------------------------------

  class TypedArray {
    const elemSize: nat

    var data: nat
    var length: nat
    var capacity: nat

    /** The sequence the array represents. */
    ghost var elems: seq<seq<byte>>

    /** { 0 }: the zero-initialised struct is the empty array. */
    constructor (elemSize: nat)
      requires elemSize > 0
      ensures data == 0 && length == 0 && capacity == 0 && elems == [] && this.elemSize == elemSize
    {
      this.elemSize := elemSize;
      data, length, capacity, elems := 0, 0, 0, [];
    }

    ghost predicate Valid(pool: Pool)
      reads this, pool, pool.mem
    {
      && elemSize > 0
      && |elems| == length <= capacity && Sized(elems, elemSize)
      && Times(capacity, elemSize) < WORD
      && (data == 0 ==> capacity == 0)
      && (data != 0 ==>
            && data >= pool.base && data - pool.base in pool.Stored()
            && Backs(pool.Stored()[data - pool.base], elems, Times(capacity, elemSize)))
    }

    /** The block of the array, when it has one. */
    ghost function Block(pool: Pool): (s: set<int>)
      reads this
    {
      if data == 0 then {} else {data - pool.base}
    }

    method Clear(pool: Pool)
      requires Valid(pool)
      modifies this
      ensures Valid(pool) && elems == [] && capacity == old(capacity) && data == old(data)
    {
      length := 0;
      elems := [];
    }

    /** Room for new_cap elements. The sequence does not change. */
    method Reserve(pool: Pool, newCap: nat) returns (ok: bool)
      requires Valid(pool) && pool.Valid() && newCap < WORD
      requires newCap > capacity && Times(newCap, elemSize) < WORD ==>
                 ReFits(pool.heap, BlockAt(pool.base, data), Times(newCap, elemSize))
      modifies this, pool, pool.mem, pool.pageClass, pool.pools
      ensures Valid(pool) && pool.Valid()
      ensures elems == old(elems) && length == old(length)
      ensures ok <==> newCap <= old(capacity) || Provides(old(pool.heap), pool.base, old(data), elemSize, newCap)
      ensures ok ==> capacity == if newCap <= old(capacity) then old(capacity) else newCap
      ensures !ok ==> newCap > old(capacity) && capacity == old(capacity) && data == old(data)
      ensures !ok ==> pool.Stored() == old(pool.Stored())
      ensures Without(pool.Stored(), Block(pool)) == Without(old(pool.Stored()), old(Block(pool)))
    {
      hide Sized, Backs, Snap, Contents, Rep, Full, TagsOk, Exact, ReFits, Moved, Inserted, Without, Pow2,
           Heaps.Allocate, Heaps.Reallocate, Times, Flat;
      BytesPositive(newCap, elemSize);
      ProvidedFirst(pool.heap, pool.base, Times(newCap, elemSize));
      if newCap <= capacity {
        return true;
      }
      var newSize := SafeMultiply(newCap, elemSize);
      if newSize.None? {
        return false;
      }
      ghost var c0 := pool.Stored();
      TimesMono(capacity, newCap, elemSize);
      FlatFits(elems, elemSize, capacity);
      var newData;
      if data == 0 {
        FirstFits(pool.heap, pool.base, newSize.value);
        ok, newData := pool.Allocate(newSize.value);
        if !ok {
          return;
        }
        InsertedBacks(c0, pool.Stored(), newData - pool.base, newSize.value, elems);
      } else {
        pool.HoldsStored(data - pool.base);
        ok, newData := pool.Reallocate(data, newSize.value);
        if !ok {
          return;
        }
        MovedBacks(c0, pool.Stored(), data - pool.base, newData - pool.base, newSize.value, elems,
                   Times(capacity, elemSize));
      }
      data := newData;
      capacity := newCap;
    }

    /** Stores es behind the last element, where there is room for it. */
    method StoreTail(pool: Pool, es: seq<seq<byte>>)
      requires Valid(pool) && pool.Valid() && Sized(es, elemSize) && es != []
      requires length + |es| <= capacity
      modifies this`length, this`elems, pool.mem
      ensures Valid(pool) && pool.Valid() && elems == old(elems) + es
      ensures Without(pool.Stored(), Block(pool)) == Without(old(pool.Stored()), Block(pool))
    {
      hide Sized, Backs, Snap, Contents, Rep, Full, TagsOk, Exact, Without, Pow2, Times, Flat, Splice;
      ghost var c0 := pool.Stored();
      TailFits(elems, es, elemSize, capacity);
      BacksLength(c0[data - pool.base], elems, Times(capacity, elemSize));
      pool.HoldsStored(data - pool.base);
      pool.Write(data, Times(length, elemSize), Flat(es));
      TailBacks(c0, data - pool.base, elems, es, elemSize, Times(capacity, elemSize));
      length := length + |es|;
      elems := elems + es;
    }

    /** Appends one element. */
    method Push(pool: Pool, value: seq<byte>) returns (ok: bool)
      requires Valid(pool) && pool.Valid() && |value| == elemSize
      requires length == capacity ==> capacity < HALF_WORD
      requires length == capacity && Times(GrownCapacity(capacity), elemSize) < WORD ==>
                 ReFits(pool.heap, BlockAt(pool.base, data), Times(GrownCapacity(capacity), elemSize))
      modifies this, pool, pool.mem, pool.pageClass, pool.pools
      ensures Valid(pool) && pool.Valid()
      ensures ok <==> || old(length) < old(capacity)
                      || Provides(old(pool.heap), pool.base, old(data), elemSize, GrownCapacity(old(capacity)))
      ensures ok ==> elems == old(elems) + [value]
      ensures ok ==> capacity == if old(length) < old(capacity) then old(capacity) else GrownCapacity(old(capacity))
      ensures !ok ==> elems == old(elems) && capacity == old(capacity) && data == old(data)
      ensures !ok ==> pool.Stored() == old(pool.Stored()) && old(length == capacity)
      ensures Without(pool.Stored(), Block(pool)) == Without(old(pool.Stored()), old(Block(pool)))
    {
      hide Sized, Backs, Snap, Contents, Rep, Full, TagsOk, Exact, Without, Pow2, Times, Flat, ReFits, Provides;
      OneIsSized(value, elemSize);
      if length < capacity {
        StoreTail(pool, [value]);
        return true;
      }
      var newCap := if capacity == 0 then 8 else WrapAdd(capacity, capacity);
      ok := Reserve(pool, newCap);
      if !ok {
        return;
      }
      StoreTail(pool, [value]);
    }

    /** Appends the elements of src, which do not lie in the array itself. */
    method AppendBulk(pool: Pool, src: seq<seq<byte>>) returns (ok: bool)
      requires Valid(pool) && pool.Valid() && Sized(src, elemSize) && |src| < WORD
      requires capacity < length + |src| < WORD ==> length + |src| <= Highest(LoopStart(capacity), 63)
      requires var size := Times(BulkCapacity(capacity, length + |src|), elemSize);
               capacity < length + |src| < WORD && size < WORD ==>
                 ReFits(pool.heap, BlockAt(pool.base, data), size)
      modifies this, pool, pool.mem, pool.pageClass, pool.pools
      ensures Valid(pool) && pool.Valid()
      ensures ok <==> || src == []
                      || (&& old(length) + |src| < WORD
                          && (|| old(length) + |src| <= old(capacity)
                              || Provides(old(pool.heap), pool.base, old(data), elemSize,
                                          BulkCapacity(old(capacity), old(length) + |src|))))
      ensures ok ==> elems == old(elems) + src
      ensures ok ==> capacity == if |elems| <= old(capacity) then old(capacity)
                                 else BulkCapacity(old(capacity), |elems|)
      ensures !ok ==> elems == old(elems) && capacity == old(capacity) && data == old(data)
      ensures !ok ==> pool.Stored() == old(pool.Stored()) && src != []
      ensures Without(pool.Stored(), Block(pool)) == Without(old(pool.Stored()), old(Block(pool)))
    {
      hide Sized, Backs, Snap, Contents, Rep, Full, TagsOk, Exact, Without, Pow2, Times, Flat, ReFits,
           BulkCapacity, Highest, Provides;
      var count := |src|;
      if count == 0 {
        assert elems + src == elems;
        return true;
      }
      CapacityIsWord(capacity, elemSize);
      var required := WrapAdd(length, count);
      if required < length {
        return false;
      }
      if required > capacity {
        var newCap := CapacityFor(capacity, required);
        ok := Reserve(pool, newCap);
        if !ok {
          return;
        }
      }
      StoreTail(pool, src);
      ok := true;
    }

    method Destroy(pool: Pool)
      requires Valid(pool) && pool.Valid()
      modifies this, pool, pool.mem, pool.pageClass, pool.pools
      ensures Valid(pool) && pool.Valid() && elems == [] && data == 0 && capacity == 0
      ensures pool.Stored() == Without(old(pool.Stored()), old(Block(pool)))
    {
      hide Backs, Sized, Snap, Contents, Rep, Full, TagsOk, Exact;
      if data != 0 {
        pool.HoldsStored(data - pool.base);
      }
      pool.Free(data);
      data, length, capacity := 0, 0, 0;
      elems := [];
      EmptyIsSized(elemSize);
    }
  }

  /** The pool provides newCap elements of that size for the array whose block is at data,
      or for one without a block. */
  ghost predicate Provides(h: Heap, base: nat, data: nat, elemSize: nat, newCap: nat) {
    && Times(newCap, elemSize) < WORD && |h.free| == LISTS && h.page > 0
    && Heaps.Reallocate(h, BlockAt(base, data), Times(newCap, elemSize)).1.Some?
  }

  lemma BytesPositive(n: nat, size: nat)
    requires size > 0
    ensures n > 0 ==> Times(n, size) > 0
  {
    if n > 0 {
      TimesMono(1, n, size);
      TimesSucc(0, size);
    }
  }

  lemma ProvidedFirst(h: Heap, base: nat, n: nat)
    requires Full(h) && base > 0
    ensures |h.free| == LISTS && h.page > 0
    ensures n > 0 ==> Heaps.Reallocate(h, BlockAt(base, 0), n) == Heaps.Allocate(h, n)
  {
    hide Full, Heaps.Allocate, Heaps.Reallocate;
    ReallocateTrivial(h, BlockAt(base, 0), n);
  }

  lemma FirstFits(h: Heap, base: nat, n: nat)
    requires Full(h) && base > 0 && ReFits(h, BlockAt(base, 0), n)
    ensures Fits(h, n)
  {
    hide Allocate;
  }

  lemma EmptyIsSized(size: nat)
    ensures Sized([], size)
  {
  }

  /** The bytes s of a block start with the elements and have room for n bytes. */
  ghost predicate Backs(s: seq<byte>, elems: seq<seq<byte>>, n: nat) {
    n <= |s| && Flat(elems) <= s
  }

  lemma OneIsSized(e: seq<byte>, size: nat)
    requires |e| == size
    ensures Sized([e], size)
  {
  }

  lemma CapacityIsWord(cap: nat, size: nat)
    requires size > 0 && Times(cap, size) < WORD
    ensures cap < WORD
  {
    MulMono(1, size, cap);
    assert Times(cap, size) == size * cap;
  }

  /** The capacity push asks for is larger exactly while doubling does not wrap. */
  lemma GrownIsLarger(capacity: nat)
    requires capacity < WORD
    ensures GrownCapacity(capacity) > capacity <==> capacity < HALF_WORD
  {
  }

  lemma TailFits(elems: seq<seq<byte>>, es: seq<seq<byte>>, size: nat, cap: nat)
    requires Sized(elems, size) && Sized(es, size) && |elems| + |es| <= cap
    ensures Times(|elems|, size) + |Flat(es)| <= Times(cap, size)
    ensures |Flat(elems)| == Times(|elems|, size)
    ensures Sized(elems + es, size)
  {
    FlatFits(elems, size, cap);
    FlatFits(elems + es, size, cap);
    FlatConcat(elems, es);
  }

  lemma BacksLength(s: seq<byte>, elems: seq<seq<byte>>, n: nat)
    requires Backs(s, elems, n)
    ensures n <= |s|
  {
  }

  lemma TailBacks(c: map<nat, seq<byte>>, p: int, elems: seq<seq<byte>>, es: seq<seq<byte>>, size: nat, n: nat)
    requires p >= 0 && p in c && Backs(c[p], elems, n)
    requires Times(|elems|, size) + |Flat(es)| <= n && |Flat(elems)| == Times(|elems|, size)
    ensures Times(|elems|, size) + |Flat(es)| <= |c[p]|
    ensures var d := c[p := Splice(c[p], Times(|elems|, size), Flat(es))];
            Backs(d[p], elems + es, n) && Without(d, {p}) == Without(c, {p})
  {
    hide Times, Flat;
    FlatConcat(elems, es);
    var o := |Flat(elems)|;
    var s := Splice(c[p], o, Flat(es));
    assert s[..o] == c[p][..o] == Flat(elems);
    assert s[..o + |Flat(es)|] == s[..o] + Flat(es);
  }

  lemma InsertedBacks(c: map<nat, seq<byte>>, d: map<nat, seq<byte>>, q: int, n: nat, elems: seq<seq<byte>>)
    requires Inserted(c, d, q, n) && elems == []
    ensures q >= 0 && q in d && Backs(d[q], elems, n)
    ensures Without(d, {q}) == Without(c, {})
  {
  }

  /** Elements survive relocation: they lie in the prefix reallocate keeps. */
  lemma MovedBacks(c: map<nat, seq<byte>>, d: map<nat, seq<byte>>, p: int, q: int, n: nat,
                   elems: seq<seq<byte>>, used: nat)
    requires p >= 0 && p in c && Moved(c, d, p, q, n) && Backs(c[p], elems, used) && |Flat(elems)| <= used <= n
    ensures q >= 0 && q in d && Backs(d[q], elems, n)
    ensures Without(d, {q}) == Without(c, {p})
  {
    var k := if |c[p]| < n then |c[p]| else n;
    var l := |Flat(elems)|;
    assert Flat(elems) == c[p][..l] == c[p][..k][..l] == d[q][..k][..l] == d[q][..l];
  }

  ghost function Without(m: map<nat, seq<byte>>, ps: set<int>): (r: map<nat, seq<byte>>) {
    map p | p in m && p !in ps :: m[p]
  }
}
