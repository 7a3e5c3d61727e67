/**
 * C `size_t` arithmetic on non-negative integers: 64-bit wrap-around addition, and
 * `x & ~m` computed bit by bit, with the facts about rounding up to a power of two
 * that the descrambler's buffer sizing relies on.
 */
module SizeArithmetic {

  const TWO_TO_THE_64: int := 0x1_0000_0000_0000_0000

  /** size_t `x + y` for two size_t operands. */
  function SizeAdd(x: nat, y: nat): (r: nat)
    requires x < TWO_TO_THE_64 && y < TWO_TO_THE_64
    ensures r < TWO_TO_THE_64
    ensures x + y < TWO_TO_THE_64 ==> r == x + y
    ensures x + y >= TWO_TO_THE_64 ==> r == x + y - TWO_TO_THE_64
  {
    if x + y < TWO_TO_THE_64 then x + y else x + y - TWO_TO_THE_64
  }

  /** size_t `a - 1`: the all-ones word when `a` is 0. */
  function SizePred(a: nat): (r: nat)
    requires a < TWO_TO_THE_64
    ensures r < TWO_TO_THE_64
    ensures a >= 1 ==> r == a - 1
  {
    if a == 0 then TWO_TO_THE_64 - 1 else a - 1
  }

  function Pow2(k: nat): (r: nat)
    ensures r >= 1
  {
    if k == 0 then 1 else 2 * Pow2(k - 1)
  }

  /** `x & ~m`, one bit at a time from the least significant. */
  function AndNot(x: nat, m: nat): nat
    decreases x
  {
    if x == 0 then 0 else 2 * AndNot(x / 2, m / 2) + (if x % 2 == 1 && m % 2 == 0 then 1 else 0)
  }

  /** Clearing bits never makes a number larger. */
  lemma {:induction false} AndNotBelow(x: nat, m: nat)
    ensures AndNot(x, m) <= x
    decreases x
  {
    if x > 0 {
      AndNotBelow(x / 2, m / 2);
    }
  }

  /** The low `k` bits of `x`. */
  function LowBits(x: nat, k: nat): nat
  {
    if k == 0 then 0 else 2 * LowBits(x / 2, k - 1) + x % 2
  }

  /** `x >> k`. */
  function HighBits(x: nat, k: nat): nat
  {
    if k == 0 then x else HighBits(x / 2, k - 1)
  }

  /** size_t `(x + mask) & ~mask`. */
  function AlignUp(x: nat, mask: nat): (r: nat)
    requires x < TWO_TO_THE_64 && mask < TWO_TO_THE_64
    ensures r < TWO_TO_THE_64
  {
    AndNotBelow(SizeAdd(x, mask), mask);
    AndNot(SizeAdd(x, mask), mask)
  }

  /** Without wrap-around, aligning up with the mask 2^k - 1 is rounding up to a multiple of 2^k. */
  lemma AlignUpIsRoundUp(x: nat, k: nat)
    requires x + Pow2(k) <= TWO_TO_THE_64
    ensures AlignUp(x, Pow2(k) - 1) == RoundUp(x, k)
  {
    assert SizeAdd(x, Pow2(k) - 1) == x + (Pow2(k) - 1);
  }

  /** `h << k`. */
  function Shl(h: nat, k: nat): nat
  {
    if k == 0 then h else 2 * Shl(h, k - 1)
  }

  /** Shifting by one more place doubles. */
  lemma ShlStep(h: nat, k: nat)
    requires k > 0
    ensures Shl(h, k) == 2 * Shl(h, k - 1)
  {
  }

  /** `x` rounded up to a multiple of 2^k the C way: add 2^k - 1, then clear the low k bits. */
  function RoundUp(x: nat, k: nat): nat
  {
    AndNot(x + (Pow2(k) - 1), Pow2(k) - 1)
  }

  lemma {:induction false} AndNotZero(x: nat)
    ensures AndNot(x, 0) == x
    decreases x
  {
    if x > 0 {
      AndNotZero(x / 2);
    }
  }

  lemma {:induction false} LowBitsOfZero(k: nat)
    ensures LowBits(0, k) == 0
  {
    if k > 0 {
      LowBitsOfZero(k - 1);
    }
  }

  /** The low k bits stay below 2^k. */
  lemma {:induction false} LowBitsBelow(x: nat, k: nat)
    ensures LowBits(x, k) < Pow2(k)
  {
    if k > 0 {
      LowBitsBelow(x / 2, k - 1);
    }
  }

  /** Every number is its high part shifted back up plus its low k bits. */
  lemma {:induction false} BitSplit(x: nat, k: nat)
    ensures x == Shl(HighBits(x, k), k) + LowBits(x, k)
  {
    if k > 0 {
      BitSplit(x / 2, k - 1);
      ShlStep(HighBits(x / 2, k - 1), k);
    }
  }

  /** Shifting by k is multiplying by 2^k. */
  lemma {:induction false} ShlIsProduct(h: nat, k: nat)
    ensures Shl(h, k) == Pow2(k) * h
  {
    if k > 0 {
      ShlIsProduct(h, k - 1);
      assert 2 * (Pow2(k - 1) * h) == (2 * Pow2(k - 1)) * h;
    }
  }

  /** Masking with the complement of 2^k - 1 subtracts the low k bits. */
  lemma {:induction false} AndNotLowOnes(x: nat, k: nat)
    ensures AndNot(x, Pow2(k) - 1) == x - LowBits(x, k)
    decreases k
  {
    if k == 0 {
      AndNotZero(x);
    } else if x == 0 {
      LowBitsOfZero(k);
    } else {
      assert (Pow2(k) - 1) / 2 == Pow2(k - 1) - 1;
      AndNotLowOnes(x / 2, k - 1);
    }
  }

  /** ... and leaves the low k bits clear. */
  lemma {:induction false} AndNotLowOnesAligned(x: nat, k: nat)
    ensures LowBits(AndNot(x, Pow2(k) - 1), k) == 0
    decreases k
  {
    if k > 0 && x > 0 {
      assert (Pow2(k) - 1) / 2 == Pow2(k - 1) - 1;
      AndNotLowOnesAligned(x / 2, k - 1);
    } else if k > 0 {
      LowBitsOfZero(k);
    }
  }

  /** Clear low k bits imply clear low j bits for every j <= k. */
  lemma {:induction false} AlignedBelow(x: nat, j: nat, k: nat)
    requires j <= k && LowBits(x, k) == 0
    ensures LowBits(x, j) == 0
  {
    if j > 0 {
      AlignedBelow(x / 2, j - 1, k - 1);
    }
  }

  lemma {:induction false} Pow2Monotone(j: nat, k: nat)
    requires j <= k
    ensures Pow2(j) <= Pow2(k)
  {
    if j < k {
      Pow2Monotone(j, k - 1);
    }
  }

  lemma Pow2Sixteen()
    ensures Pow2(16) == 0x1_0000
  {
    assert Pow2(4) == 16;
    assert Pow2(8) == 256;
    assert Pow2(12) == 4096;
  }

  /** Rounding up never goes down, adds less than 2^k, and leaves the low k bits clear. */
  lemma RoundUpStep(x: nat, k: nat)
    ensures x <= RoundUp(x, k) <= x + (Pow2(k) - 1)
    ensures LowBits(RoundUp(x, k), k) == 0
  {
    var n := x + (Pow2(k) - 1);
    AndNotLowOnes(n, k);
    AndNotLowOnesAligned(n, k);
    LowBitsBelow(n, k);
  }

  /** A number whose low k bits are clear is a multiple of 2^k. */
  lemma ClearLowBitsMultiple(r: nat, k: nat)
    requires LowBits(r, k) == 0
    ensures r == Pow2(k) * HighBits(r, k)
  {
    BitSplit(r, k);
    ShlIsProduct(HighBits(r, k), k);
  }
}
