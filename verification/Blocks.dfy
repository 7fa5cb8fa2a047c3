/** The abstract state of a buddy zone: a set of aligned, pairwise disjoint
    blocks, each free or allocated, that tile the managed pages. */
module Blocks {
  import opened Dyadic

  /** The pages [lo, hi) of a zone and its largest block order. */
  datatype Bounds = Bounds(lo: nat, hi: nat, maxOrder: nat)

  datatype Block = Block(head: nat, order: nat, free: bool)

  function End(b: Block): nat {
    b.head + Pow2(b.order)
  }

  predicate InBlock(b: Block, p: nat) {
    b.head <= p < End(b)
  }

  predicate BlockOk(z: Bounds, b: Block) {
    b.order <= z.maxOrder && Aligned(b.head, b.order) && z.lo <= b.head && End(b) <= z.hi
  }

  predicate Apart(a: Block, b: Block) {
    End(a) <= b.head || End(b) <= a.head
  }

  ghost predicate Tiled(z: Bounds, s: set<Block>) {
    && (forall b :: b in s ==> BlockOk(z, b))
    && (forall a, b :: a in s && b in s && a != b ==> Apart(a, b))
  }

  /** A head has only one block. */
  lemma SameHead(z: Bounds, s: set<Block>, a: Block, b: Block)
    requires Tiled(z, s) && a in s && b in s && a.head == b.head
    ensures a == b
  {
  }

  lemma TiledBlock(z: Bounds, s: set<Block>, b: Block)
    requires Tiled(z, s) && b in s
    ensures BlockOk(z, b)
  {
  }

  lemma Beyond(z: Bounds, s: set<Block>, b: Block)
    requires Tiled(z, s)
    ensures b.head < z.lo || End(b) > z.hi ==> b !in s
  {
  }

  /** p belongs to some block, or to some free block. */
  ghost predicate Managed(s: set<Block>, p: nat) {
    exists b :: b in s && InBlock(b, p)
  }

  ghost predicate PageFree(s: set<Block>, p: nat) {
    exists b :: b in s && b.free && InBlock(b, p)
  }

  /** No two buddies below the largest order are both free, the block at
      `except` aside. */
  ghost predicate CoalescedBut(z: Bounds, s: set<Block>, except: nat) {
    forall a, b :: a in s && b in s && a.free && b.free && a.order == b.order < z.maxOrder
                   && a.head != except && b.head != except
                   ==> b.head != FlipBit(a.head, a.order)
  }

  ghost predicate Coalesced(z: Bounds, s: set<Block>) {
    forall a, b :: a in s && b in s && a.free && b.free && a.order == b.order < z.maxOrder
                   ==> b.head != FlipBit(a.head, a.order)
  }

  /** The pages of a run of 2^o pages, all free. */
  ghost predicate RunFree(s: set<Block>, h: nat, o: nat) {
    forall p: nat :: h <= p < h + Pow2(o) ==> PageFree(s, p)
  }

  /** b is a free block of s that contains the run of 2^o pages at h. */
  ghost predicate Contains(s: set<Block>, b: Block, h: nat, o: nat) {
    b in s && b.free && b.order >= o && b.head <= h && h + Pow2(o) <= End(b)
  }

  /** In a fully coalesced zone a free aligned run lies inside one free block. */
  lemma {:induction false} FreeRunInOneBlock(z: Bounds, s: set<Block>, h: nat, o: nat) returns (b: Block)
    requires Tiled(z, s) && Coalesced(z, s)
    requires o <= z.maxOrder && Aligned(h, o) && RunFree(s, h, o)
    ensures Contains(s, b, h, o)
    decreases o
  {
    if o == 0 {
      assert PageFree(s, h);
      b :| b in s && b.free && InBlock(b, h);
    } else {
      AlignedWeaken(h, o - 1, o);
      BuddyShape(h, o - 1);
      var g := FlipBit(h, o - 1);
      b := FreeRunInOneBlock(z, s, h, o - 1);
      var b' := FreeRunInOneBlock(z, s, g, o - 1);
      if b.order >= o {
        Nested(h, o, b.head, b.order, h);
      } else if b'.order >= o {
        Nested(h, o, b'.head, b'.order, g);
        b := b';
      } else {
        assert false;
      }
    }
  }

  /** The lower of a block and its buddy: the head of the block twice the size. */
  function Parent(h: nat, o: nat): nat {
    if h < FlipBit(h, o) then h else FlipBit(h, o)
  }

  lemma ParentShape(h: nat, o: nat)
    requires Aligned(h, o)
    ensures Aligned(Parent(h, o), o + 1)
    ensures Parent(h, o) <= h && h + Pow2(o) <= Parent(h, o) + Pow2(o + 1)
    ensures Parent(h, o) <= FlipBit(h, o) && FlipBit(h, o) + Pow2(o) <= Parent(h, o) + Pow2(o + 1)
  {
    BuddyShape(h, o);
  }

  /** An aligned free run that no larger aligned free run contains. */
  ghost predicate MaximalFree(z: Bounds, s: set<Block>, h: nat, o: nat) {
    && o <= z.maxOrder
    && Aligned(h, o)
    && RunFree(s, h, o)
    && (o < z.maxOrder ==> !RunFree(s, Parent(h, o), o + 1))
  }

  lemma BlockRunFree(s: set<Block>, b: Block, h: nat, o: nat)
    requires Contains(s, b, h, o)
    ensures RunFree(s, h, o)
  {
    forall p: nat | h <= p < h + Pow2(o) ensures PageFree(s, p) {
      assert InBlock(b, p);
    }
  }

  lemma FreeBlockIsMaximal(z: Bounds, s: set<Block>, b: Block)
    requires Tiled(z, s) && Coalesced(z, s) && b in s && b.free
    ensures MaximalFree(z, s, b.head, b.order)
  {
    BlockRunFree(s, b, b.head, b.order);
    if b.order < z.maxOrder && RunFree(s, Parent(b.head, b.order), b.order + 1) {
      ParentShape(b.head, b.order);
      var e := FreeRunInOneBlock(z, s, Parent(b.head, b.order), b.order + 1);
      assert false;
    }
  }

  lemma MaximalIsFreeBlock(z: Bounds, s: set<Block>, h: nat, o: nat)
    requires Tiled(z, s) && Coalesced(z, s) && MaximalFree(z, s, h, o)
    ensures Block(h, o, true) in s
  {
    var b := FreeRunInOneBlock(z, s, h, o);
    if b.order > o {
      LargerBlockFreesParent(z, s, b, h, o);
    }
  }

  lemma LargerBlockFreesParent(z: Bounds, s: set<Block>, b: Block, h: nat, o: nat)
    requires BlockOk(z, b) && Aligned(h, o) && Contains(s, b, h, o) && b.order > o
    ensures RunFree(s, Parent(h, o), o + 1)
  {
    ParentShape(h, o);
    Nested(Parent(h, o), o + 1, b.head, b.order, h);
    BlockRunFree(s, b, Parent(h, o), o + 1);
  }

  /** In a fully coalesced zone the free blocks are exactly the maximal aligned
      runs of free pages, whatever the history. */
  lemma FreeBlocksAreMaximalRuns(z: Bounds, s: set<Block>, h: nat, o: nat)
    requires Tiled(z, s) && Coalesced(z, s)
    ensures Block(h, o, true) in s <==> MaximalFree(z, s, h, o)
  {
    if Block(h, o, true) in s {
      FreeBlockIsMaximal(z, s, Block(h, o, true));
    } else if MaximalFree(z, s, h, o) {
      MaximalIsFreeBlock(z, s, h, o);
    }
  }

  /** So the free pages alone determine the free blocks. */
  lemma FreeBlocksDetermined(z: Bounds, s: set<Block>, t: set<Block>)
    requires Tiled(z, s) && Coalesced(z, s) && Tiled(z, t) && Coalesced(z, t)
    requires forall p: nat :: PageFree(s, p) <==> PageFree(t, p)
    ensures FreeBlocks(s) == FreeBlocks(t)
  {
    forall b: Block ensures b in FreeBlocks(s) <==> b in FreeBlocks(t) {
      if b.free {
        FreeBlocksAreMaximalRuns(z, s, b.head, b.order);
        FreeBlocksAreMaximalRuns(z, t, b.head, b.order);
        SameRuns(s, t, b.head, b.order);
        SameRuns(s, t, Parent(b.head, b.order), b.order + 1);
      }
    }
  }

  lemma SameRuns(s: set<Block>, t: set<Block>, h: nat, o: nat)
    requires forall p: nat :: PageFree(s, p) <==> PageFree(t, p)
    ensures RunFree(s, h, o) <==> RunFree(t, h, o)
  {
  }

  ghost function FreeBlocks(s: set<Block>): set<Block> {
    set b | b in s && b.free
  }

  /** A free aligned run of 2^o pages exists exactly when a free block of at
      least that order does. */
  lemma RunExistsIffBlockExists(z: Bounds, s: set<Block>, o: nat)
    requires Tiled(z, s) && Coalesced(z, s) && o <= z.maxOrder
    ensures (exists h: nat :: Aligned(h, o) && RunFree(s, h, o)) <==>
            (exists b :: b in s && b.free && b.order >= o)
  {
    if h: nat :| Aligned(h, o) && RunFree(s, h, o) {
      var b := FreeRunInOneBlock(z, s, h, o);
    }
    if b :| b in s && b.free && b.order >= o {
      AlignedWeaken(b.head, o, b.order);
      Pow2Monotone(o, b.order);
      BlockRunFree(s, b, b.head, o);
      assert Aligned(b.head, o) && RunFree(s, b.head, o);
    }
  }

  // Changing one block at a time.

  /** The buddy of b within its zone, as a free block. */
  function BuddyBlock(b: Block): Block {
    Block(FlipBit(b.head, b.order), b.order, true)
  }

  function Merged(b: Block): Block {
    Block(Parent(b.head, b.order), b.order + 1, true)
  }

  ghost function Merge(s: set<Block>, b: Block): set<Block> {
    s - {b, BuddyBlock(b)} + {Merged(b)}
  }

  /** A free block and its free buddy make up the block twice the size. */
  lemma MergedShape(z: Bounds, s: set<Block>, b: Block)
    requires Tiled(z, s) && b in s && b.free && BuddyBlock(b) in s && b.order < z.maxOrder
    ensures BlockOk(z, Merged(b))
    ensures forall p: nat :: InBlock(Merged(b), p) <==> InBlock(b, p) || InBlock(BuddyBlock(b), p)
    ensures forall e :: Apart(e, b) && Apart(e, BuddyBlock(b)) ==> Apart(e, Merged(b))
  {
    ParentShape(b.head, b.order);
    BuddyShape(b.head, b.order);
    assert Pow2(b.order + 1) == 2 * Pow2(b.order);
  }

  lemma MergeTiled(z: Bounds, s: set<Block>, b: Block)
    requires Tiled(z, s) && b in s && b.free && BuddyBlock(b) in s && b.order < z.maxOrder
    ensures Tiled(z, Merge(s, b))
  {
    MergedShape(z, s, b);
  }

  lemma MergePages(z: Bounds, s: set<Block>, b: Block, p: nat)
    requires Tiled(z, s) && b in s && b.free && BuddyBlock(b) in s && b.order < z.maxOrder
    ensures PageFree(Merge(s, b), p) <==> PageFree(s, p)
    ensures Managed(Merge(s, b), p) <==> Managed(s, p)
  {
    MergedShape(z, s, b);
    var t := Merge(s, b);
    assert Merged(b) in t;
    if InBlock(Merged(b), p) {
      assert PageFree(s, p) && PageFree(t, p);
    } else {
      assert forall e :: e in s && InBlock(e, p) ==> e in t;
      assert forall e :: e in t && InBlock(e, p) ==> e in s;
    }
  }

  lemma MergeCoalesced(z: Bounds, s: set<Block>, b: Block)
    requires Tiled(z, s) && CoalescedBut(z, s, b.head) && b in s && b.free && BuddyBlock(b) in s && b.order < z.maxOrder
    ensures CoalescedBut(z, Merge(s, b), Merged(b).head)
  {
    var t := Merge(s, b);
    assert forall e :: e in t && e != Merged(b) ==> e in s && Apart(e, b);
  }

  /** When the exempt block's buddy is not a free block of its order, nothing is
      left to merge. */
  lemma CoalescedDone(z: Bounds, s: set<Block>, b: Block)
    requires Tiled(z, s) && CoalescedBut(z, s, b.head) && b in s && b.free
    requires b.order < z.maxOrder ==> BuddyBlock(b) !in s
    ensures Coalesced(z, s)
  {
    forall x, y | x in s && y in s && x.free && y.free && x.order == y.order < z.maxOrder
      ensures y.head != FlipBit(x.head, x.order)
    {
      BuddyShape(x.head, x.order);
      if x.head == b.head { SameHead(z, s, x, b); }
      if y.head == b.head { SameHead(z, s, y, b); }
    }
  }

  /** Adding a free block leaves only its own pair unmerged. */
  lemma AddCoalesced(z: Bounds, s: set<Block>, b: Block)
    requires Coalesced(z, s)
    ensures CoalescedBut(z, s + {b}, b.head)
  {
  }

  /** The same extent with the other status. */
  function Toggle(b: Block): Block {
    b.(free := !b.free)
  }

  lemma ToggleTiled(z: Bounds, s: set<Block>, b: Block)
    requires Tiled(z, s) && b in s
    ensures Tiled(z, s - {b} + {Toggle(b)})
  {
  }

  function Lower(h: nat, o: nat): Block { Block(h, o, false) }
  function Upper(h: nat, o: nat): Block { Block(h + Pow2(o), o, true) }

  /** Splitting an allocated block: the lower half stays allocated, the upper
      half becomes free. */
  ghost function Split(s: set<Block>, h: nat, o: nat): set<Block> {
    s - {Lower(h, o + 1)} + {Lower(h, o), Upper(h, o)}
  }

  lemma HalvesShape(z: Bounds, h: nat, o: nat)
    requires BlockOk(z, Lower(h, o + 1))
    ensures BlockOk(z, Lower(h, o)) && BlockOk(z, Upper(h, o))
    ensures forall p: nat :: InBlock(Lower(h, o + 1), p) <==> InBlock(Lower(h, o), p) || InBlock(Upper(h, o), p)
    ensures Apart(Lower(h, o), Upper(h, o))
    ensures forall e :: Apart(e, Lower(h, o + 1)) ==> Apart(e, Lower(h, o)) && Apart(e, Upper(h, o))
    ensures FlipBit(h, o) == h + Pow2(o) && FlipBit(h + Pow2(o), o) == h
  {
    AlignedWeaken(h, o, o + 1);
    BuddyShape(h, o);
    assert Pow2(o + 1) == 2 * Pow2(o);
  }

  lemma SplitTiled(z: Bounds, s: set<Block>, h: nat, o: nat)
    requires Tiled(z, s) && Lower(h, o + 1) in s
    ensures Tiled(z, Split(s, h, o))
  {
    HalvesShape(z, h, o);
    hide BlockOk, Pow2, FlipBit;
    forall e | e in s && e != Lower(h, o + 1) ensures Apart(e, Lower(h, o)) && Apart(e, Upper(h, o)) {
      assert Apart(e, Lower(h, o + 1));
    }
  }

  lemma SplitPages(z: Bounds, s: set<Block>, h: nat, o: nat, p: nat)
    requires Tiled(z, s) && Lower(h, o + 1) in s
    ensures PageFree(Split(s, h, o), p) <==> PageFree(s, p) || InBlock(Upper(h, o), p)
    ensures Managed(Split(s, h, o), p) <==> Managed(s, p)
  {
    HalvesShape(z, h, o);
    var t := Split(s, h, o);
    assert Lower(h, o) in t && Upper(h, o) in t;
    if InBlock(Lower(h, o + 1), p) {
      assert Managed(s, p) && Managed(t, p);
      assert forall e :: e in s && InBlock(e, p) ==> e == Lower(h, o + 1);
      assert forall e :: e in t && e.free && InBlock(e, p) ==> e == Upper(h, o);
    } else {
      assert forall e :: e in s && InBlock(e, p) ==> e in t;
      assert forall e :: e in t && InBlock(e, p) ==> e in s;
    }
  }

  /** The freed upper half has the still allocated lower half as its buddy. */
  lemma SplitCoalesced(z: Bounds, s: set<Block>, h: nat, o: nat)
    requires Tiled(z, s) && Coalesced(z, s) && Lower(h, o + 1) in s
    ensures Coalesced(z, Split(s, h, o))
  {
    var t := Split(s, h, o);
    HalvesShape(z, h, o);
    SplitTiled(z, s, h, o);
    forall x, y | x in t && y in t && x.free && y.free && x.order == y.order < z.maxOrder
      ensures y.head != FlipBit(x.head, x.order)
    {
      BuddyShape(x.head, x.order);
      assert Apart(x, Lower(h, o)) && Apart(y, Lower(h, o));
    }
  }

  // Counting free pages.

  /** The n numbers from lo on. */
  ghost function Interval(lo: nat, n: nat): (s: set<nat>)
    ensures forall p: nat :: p in s <==> lo <= p < lo + n
    ensures |s| == n
  {
    if n == 0 then {} else Interval(lo, n - 1) + {lo + n - 1}
  }

  ghost function Pages(b: Block): (s: set<nat>)
    ensures forall p: nat :: p in s <==> InBlock(b, p)
    ensures |s| == Pow2(b.order)
  {
    Interval(b.head, Pow2(b.order))
  }

  ghost function FreePages(s: set<Block>): (f: set<nat>)
    ensures forall p: nat :: p in f <==> PageFree(s, p)
  {
    var f := set b, p | b in s && b.free && p in Pages(b) :: p;
    assert forall b, p: nat :: b in s && b.free && InBlock(b, p) ==> p in Pages(b) && p in f;
    f
  }

  /** One more free block, its pages not yet free, adds its size to the count. */
  lemma FreeCountGrows(s: set<Block>, t: set<Block>, b: Block)
    requires forall p: nat :: PageFree(t, p) <==> PageFree(s, p) || InBlock(b, p)
    requires forall p: nat :: InBlock(b, p) ==> !PageFree(s, p)
    ensures |FreePages(t)| == |FreePages(s)| + Pow2(b.order)
  {
    assert FreePages(t) == FreePages(s) + Pages(b);
    assert FreePages(s) !! Pages(b);
  }

  lemma FreeCountSame(s: set<Block>, t: set<Block>)
    requires forall p: nat :: PageFree(t, p) <==> PageFree(s, p)
    ensures FreePages(t) == FreePages(s)
  {
  }

  /** Marking a block free or allocated changes exactly its pages. */
  lemma TogglePages(z: Bounds, s: set<Block>, b: Block, p: nat)
    requires Tiled(z, s) && b in s
    ensures var t := s - {b} + {Toggle(b)};
            && (Managed(t, p) <==> Managed(s, p))
            && (PageFree(t, p) <==> if InBlock(b, p) then !b.free else PageFree(s, p))
  {
    var t := s - {b} + {Toggle(b)};
    assert Toggle(b) in t;
    if InBlock(b, p) {
      assert InBlock(Toggle(b), p);
      assert forall e :: e in s && InBlock(e, p) ==> e == b;
    } else {
      assert forall e :: e in s && InBlock(e, p) ==> e in t;
      assert forall e :: e in t && InBlock(e, p) ==> e in s;
    }
  }
}
