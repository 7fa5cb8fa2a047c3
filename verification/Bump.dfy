/** The bump allocator that carves the boot-time tables out of one range. */
module BumpAllocator {
  import opened Dyadic
  import opened Align
  import opened Options

  class Bump {
    const end: nat
    var next: nat

    constructor (start: nat, end: nat)
      ensures this.end == end && next == start
    {
      this.end := end;
      next := start;
    }

    /** Hands out the lowest aligned range that is left. Allocations therefore
        never overlap and stay below the end. It fails exactly for a size of 0, an
        alignment that is no power of two, a range that does not fit, and the null
        address. */
    method Alloc(size: nat, align: nat) returns (r: Option<nat>)
      modifies this
      ensures r.Some? <==>
              size > 0 && IsPowerOfTwo(Effective(align)) && AlignUp(old(next), Effective(align)) > 0 &&
              AlignUp(old(next), Effective(align)) + size <= end
      ensures r.Some? ==> old(next) <= r.value == AlignUp(old(next), Effective(align)) && r.value + size == next <= end
      ensures r.None? && AlignUp(old(next), Effective(align)) > 0 ==> next == old(next)
      ensures forall k: nat :: r.Some? && Effective(align) == Pow2(k) ==>
              Aligned(r.value, k) && r.value < old(next) + Pow2(k)
    {
      if size == 0 {
        return None;
      }
      var a := Effective(align);
      if !IsPowerOfTwo(a) {
        return None;
      }
      var aligned := AlignUp(next, a);
      ghost var e := PowerOfTwoIsPow2(a);
      AlignUpPow2(next, e);
      forall k: nat | a == Pow2(k) ensures Aligned(aligned, k) && aligned < next + Pow2(k) {
        AlignUpPow2(next, k);
      }
      if aligned + size > end {
        return None;
      }
      next := aligned + size;
      if aligned == 0 {
        return None;
      }
      return Some(aligned);
    }
  }

  /** `align.max(1)`. */
  function Effective(align: nat): nat {
    if align == 0 then 1 else align
  }
}
