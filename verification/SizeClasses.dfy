/** The nineteen power-of-two size classes of the pool. */
module SizeClasses {
  import opened Words

  const CLASSES: nat := 19
  const MAX_CLASS_SIZE: nat := 4 * 1024 * 1024
  const CLASS_SIZES: seq<nat> := [
    16, 32, 64, 128, 256, 512, 1024, 2048, 4096, 8192, 16384, 32768, 65536,
    131072, 262144, 524288, 1048576, 2097152, 4194304
  ]

  /** Number of significant bits of x, so that clz_u64(x) == 64 - BitLength(x). */
  function BitLength(x: nat): (n: nat) {
    if x == 0 then 0 else 1 + BitLength(x / 2)
  }

  /** clz_u64 of bc_core, for x < 2^64. */
  function CountLeadingZeros(x: nat): (n: int) {
    64 - BitLength(x)
  }

  function SizeClassForSize(size: nat): (c: int) {
    if size > MAX_CLASS_SIZE then -1
    else if size <= 16 then 0
    else
      var bits := 64 - CountLeadingZeros(size - 1);
      bits - 4
  }

  lemma {:induction false} BitLengthBounds(x: nat)
    requires x > 0
    ensures BitLength(x) >= 1
    ensures Pow2(BitLength(x) - 1) <= x < Pow2(BitLength(x))
  {
    if x > 1 {
      BitLengthBounds(x / 2);
    }
  }

  lemma {:induction false} ClassSizeIsPow2(c: nat)
    requires c < CLASSES
    ensures CLASS_SIZES[c] == Pow2(c + 4)
  {
    if c > 0 {
      ClassSizeIsPow2(c - 1);
    } else {
      assert Pow2(1) == 2 && Pow2(2) == 4 && Pow2(3) == 8;
    }
  }

  /** Larger classes hold strictly larger blocks. */
  lemma {:induction false} ClassSizesIncrease(c: nat, d: nat)
    requires c < d < CLASSES
    ensures CLASS_SIZES[c] < CLASS_SIZES[d]
  {
    ClassSizeIsPow2(c);
    ClassSizeIsPow2(d);
    Pow2Divides(c + 5, d + 4);
  }

  /** The class chosen is the least one that fits, and -1 is answered exactly
      for requests larger than every class. */
  lemma ClassChoice(size: nat)
    requires size >= 1
    ensures SizeClassForSize(size) == -1 <==> size > MAX_CLASS_SIZE
    ensures size <= MAX_CLASS_SIZE ==>
              && 0 <= SizeClassForSize(size) < CLASSES
              && size <= CLASS_SIZES[SizeClassForSize(size)]
              && forall d: nat :: d < SizeClassForSize(size) ==> CLASS_SIZES[d] < size
  {
    if 16 < size <= MAX_CLASS_SIZE {
      var b := BitLength(size - 1);
      BitLengthBounds(size - 1);
      if b > 22 {
        Pow2Divides(22, b - 1);
        ClassSizeIsPow2(18);
      }
      if b < 5 {
        Pow2Divides(b, 4);
      }
      var c := SizeClassForSize(size);
      ClassSizeIsPow2(c);
      ClassSizeIsPow2(c - 1);
      forall d: nat | d < c ensures CLASS_SIZES[d] < size {
        if d < c - 1 {
          ClassSizesIncrease(d, c - 1);
        }
      }
    }
  }
}
