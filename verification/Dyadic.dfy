/** Powers of two and the blocks aligned to them, built by halving so that every
    fact follows the binary digits of a number. */
module Dyadic {

  function Pow2(k: nat): (r: nat)
    ensures r >= 1
  {
    if k == 0 then 1 else 2 * Pow2(k - 1)
  }

  lemma {:induction false} Pow2Monotone(a: nat, b: nat)
    requires a <= b
    ensures Pow2(a) <= Pow2(b)
    decreases b - a
  {
    if a < b {
      Pow2Monotone(a, b - 1);
    }
  }

  /** x is a multiple of 2^k: its k lowest digits are zero. */
  predicate Aligned(x: nat, k: nat)
    decreases k
  {
    k == 0 || (x % 2 == 0 && Aligned(x / 2, k - 1))
  }

  lemma {:induction false} ZeroIsAligned(k: nat)
    ensures Aligned(0, k)
  {
    if k > 0 {
      ZeroIsAligned(k - 1);
    }
  }

  /** `x ^ (1 << k)`: the number with digit k flipped. */
  function FlipBit(x: nat, k: nat): nat
    decreases k
  {
    if k == 0 then (if x % 2 == 0 then x + 1 else x - 1)
    else 2 * FlipBit(x / 2, k - 1) + x % 2
  }

  /** `floor_log2`: the position of the highest set digit. */
  function FloorLog2(x: nat): (r: nat)
    requires x > 0
    ensures Pow2(r) <= x < 2 * Pow2(r)
  {
    if x == 1 then 0 else 1 + FloorLog2(x / 2)
  }

  /** `trailing_zeros` of a non-zero number. */
  function TrailingZeros(x: nat): (r: nat)
    requires x > 0
    ensures Aligned(x, r) && !Aligned(x, r + 1)
  {
    if x % 2 == 1 then 0 else 1 + TrailingZeros(x / 2)
  }

  /** A product by d plus a remainder below d has that remainder. */
  lemma {:induction false} ModOfMultiple(q: nat, d: nat, r: nat)
    requires r < d
    ensures (q * d + r) % d == r
    decreases q
  {
    if q > 0 {
      ModOfMultiple(q - 1, d, r);
      var y := (q - 1) * d + r;
      assert q * d + r == y + d;
      ModAddOnce(y, d);
    }
  }

  lemma ModAddOnce(y: nat, d: nat)
    requires d > 0
    ensures (y + d) % d == y % d
  {
    var q, r := y / d, (y + d) / d;
    assert d * (q + 1) == d * q + d && d * (q + 2) == d * q + 2 * d;
    assert (y + d) - d * r == (y + d) % d && y - d * q == y % d;
    if r > q + 1 {
      MulGrows(d, r, q + 2);
    } else if r < q + 1 {
      MulGrows(d, q, r);
    }
  }

  lemma MulGrows(d: nat, a: nat, b: nat)
    requires b <= a
    ensures d * b <= d * a
  {
  }

  /** Aligned means divisible. */
  lemma {:induction false} AlignedIsMultiple(x: nat, k: nat) returns (q: nat, r: nat)
    ensures x == q * Pow2(k) + r && r < Pow2(k)
    ensures x % Pow2(k) == r
    ensures Aligned(x, k) <==> r == 0
    decreases k
  {
    if k == 0 {
      q, r := x, 0;
    } else {
      var q', r' := AlignedIsMultiple(x / 2, k - 1);
      q, r := q', 2 * r' + x % 2;
      assert q * Pow2(k) == 2 * (q' * Pow2(k - 1));
    }
    ModOfMultiple(q, Pow2(k), r);
  }

  lemma {:induction false} AlignedWeaken(x: nat, j: nat, k: nat)
    requires j <= k && Aligned(x, k)
    ensures Aligned(x, j)
    decreases j
  {
    if j > 0 {
      AlignedWeaken(x / 2, j - 1, k - 1);
    }
  }

  /** Adding a multiple of 2^k keeps alignment to 2^k. */
  lemma {:induction false} AlignedAdd(x: nat, y: nat, k: nat)
    requires Aligned(x, k)
    ensures Aligned(y, k) <==> Aligned(x + y, k)
    decreases k
  {
    if k > 0 {
      assert (x + y) / 2 == x / 2 + y / 2;
      AlignedAdd(x / 2, y / 2, k - 1);
    }
  }

  /** Flipping relative to an aligned base is flipping the absolute number. */
  lemma {:induction false} FlipRelative(base: nat, l: nat, k: nat)
    requires Aligned(base, k + 1)
    ensures FlipBit(base + l, k) == base + FlipBit(l, k)
    decreases k
  {
    if k > 0 {
      FlipRelative(base / 2, l / 2, k - 1);
    }
  }

  /** The buddy of an aligned block: the other half of the block twice the size. */
  lemma {:induction false} BuddyShape(h: nat, k: nat)
    requires Aligned(h, k)
    ensures var b := FlipBit(h, k);
            && Aligned(b, k)
            && FlipBit(b, k) == h
            && (if Aligned(h, k + 1) then b == h + Pow2(k) else h == b + Pow2(k))
            && (Aligned(h, k + 1) <==> !Aligned(b, k + 1))
    decreases k
  {
    if k > 0 {
      BuddyShape(h / 2, k - 1);
    }
  }

  /** Two aligned blocks that share a page are nested. */
  lemma {:induction false} Nested(h: nat, j: nat, g: nat, k: nat, x: nat)
    requires j <= k && Aligned(h, j) && Aligned(g, k)
    requires h <= x < h + Pow2(j) && g <= x < g + Pow2(k)
    ensures g <= h && h + Pow2(j) <= g + Pow2(k)
    decreases j
  {
    if j > 0 {
      Nested(h / 2, j - 1, g / 2, k - 1, x / 2);
    }
  }
}
