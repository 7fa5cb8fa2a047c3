/** The bit-mask rounding of `align_up`, digit by digit, so that it also has its
    real meaning for sizes that are not powers of two. */
module Align {
  import opened Dyadic

  /** `x & !m`. */
  function AndNot(x: nat, m: nat): nat {
    if x == 0 then 0 else (if m % 2 == 1 then 0 else x % 2) + 2 * AndNot(x / 2, m / 2)
  }

  /** `align_up`. */
  function AlignUp(x: nat, a: nat): nat
    requires a > 0
  {
    AndNot(x + a - 1, a - 1)
  }

  predicate IsPowerOfTwo(n: nat) {
    n > 0 && (n == 1 || (n % 2 == 0 && IsPowerOfTwo(n / 2)))
  }

  lemma {:induction false} PowerOfTwoIsPow2(n: nat) returns (k: nat)
    requires IsPowerOfTwo(n)
    ensures n == Pow2(k)
    decreases n
  {
    if n == 1 {
      k := 0;
    } else {
      var j := PowerOfTwoIsPow2(n / 2);
      k := j + 1;
    }
  }

  lemma {:induction false} Pow2IsPowerOfTwo(k: nat)
    ensures IsPowerOfTwo(Pow2(k))
  {
    if k > 0 {
      Pow2IsPowerOfTwo(k - 1);
    }
  }

  /** Clearing the k lowest digits. */
  lemma {:induction false} ClearLow(x: nat, k: nat)
    ensures var r := AndNot(x, Pow2(k) - 1);
            Aligned(r, k) && r <= x < r + Pow2(k)
    decreases k
  {
    if k > 0 {
      ClearLow(x / 2, k - 1);
    } else {
      ClearNone(x);
    }
    if x == 0 {
      ZeroIsAligned(k);
    }
  }

  lemma {:induction false} ClearNone(x: nat)
    ensures AndNot(x, 0) == x
    decreases x
  {
    if x > 0 {
      ClearNone(x / 2);
    }
  }

  /** For a power of two align_up is the least multiple not below x. */
  lemma AlignUpPow2(x: nat, k: nat)
    ensures var r := AlignUp(x, Pow2(k));
            Aligned(r, k) && x <= r < x + Pow2(k) && (Aligned(x, k) ==> r == x)
  {
    ClearLow(x + Pow2(k) - 1, k);
    if Aligned(x, k) {
      var r := AlignUp(x, Pow2(k));
      Nested(x, k, r, k, r);
    }
  }

  /** Digits above the mask are kept as they are. */
  lemma {:induction false} KeepHigh(hi: nat, lo: nat, m: nat, k: nat)
    requires Aligned(hi, k) && lo < Pow2(k) && m < Pow2(k)
    ensures AndNot(hi + lo, m) == hi + AndNot(lo, m)
    decreases k
  {
    if k == 0 {
      ClearNone(hi);
    } else {
      KeepHigh(hi / 2, lo / 2, m / 2, k - 1);
      assert (hi + lo) / 2 == hi / 2 + lo / 2;
    }
  }

  /** x shifted right by k. */
  function Halved(x: nat, k: nat): nat
    decreases k
  {
    if k == 0 then x else Halved(x / 2, k - 1)
  }

  lemma {:induction false} HalvedIs(x: nat, k: nat)
    ensures Pow2(k) * Halved(x, k) <= x < Pow2(k) * Halved(x, k) + Pow2(k)
    decreases k
  {
    if k > 0 {
      HalvedIs(x / 2, k - 1);
      assert Pow2(k) * Halved(x, k) == 2 * (Pow2(k - 1) * Halved(x / 2, k - 1));
    }
  }

  lemma MaskOdd(x: nat, m: nat)
    ensures AndNot(x, 2 * m + 1) == 2 * AndNot(x / 2, m)
  {
    assert (2 * m + 1) % 2 == 1 && (2 * m + 1) / 2 == m;
    assert x == 0 ==> AndNot(x / 2, m) == 0;
  }

  /** A mask that ends in k ones clears k digits and then masks with the rest. */
  lemma {:induction false} MaskSplit(x: nat, q: nat, k: nat)
    ensures AndNot(x, q * Pow2(k) + Pow2(k) - 1) == Pow2(k) * AndNot(Halved(x, k), q)
    decreases k
  {
    hide AndNot;
    if k > 0 {
      MaskSplit(x / 2, q, k - 1);
      var m, h := q * Pow2(k - 1) + Pow2(k - 1) - 1, AndNot(Halved(x / 2, k - 1), q);
      MaskOdd(x / 2 * 2 + x % 2, m);
      assert q * Pow2(k) + Pow2(k) - 1 == 2 * m + 1 by {
        assert q * (2 * Pow2(k - 1)) == 2 * (q * Pow2(k - 1));
      }
      assert Pow2(k) * h == 2 * (Pow2(k - 1) * h);
    }
  }
}
