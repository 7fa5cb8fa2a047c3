/** Why taking a block off its list, splitting it and stamping the remainder
    allocated keeps records and lists in agreement with the blocks. */
module Allocation {
  import opened Dyadic
  import opened Blocks
  import opened Chain
  import opened Frames
  import opened FreeLists
  import opened ZoneRecords

  /** The free block b is off its list and held by the allocator. */
  ghost function Held(s: set<Block>, b: Block): set<Block> {
    s - {b} + {Toggle(b)}
  }

  lemma HoldLinks(z: Bounds, r: Records, free: seq<nat>, lists: seq<seq<nat>>, s: set<Block>, b: Block)
    requires Tiled(z, s) && b in s && b.free && LinksOk(z, r, free, lists, s - {b})
    ensures LinksOk(z, r, free, lists, Held(s, b))
  {
    ToggleTiled(z, s, b);
  }

  lemma HoldTags(z: Bounds, r0: Records, r1: Records, s: set<Block>, b: Block)
    requires RecordsOk(z, r0, s, INVALID_PFN) && Relinked(r0, r1, s) && b in s && b.free && z.hi <= INVALID_PFN
    ensures TagsAgree(z, r1.tag, r1.order, Held(s, b), b.head)
  {
    assert forall e :: e in s && e != b ==> Apart(e, b);
  }

  lemma HoldClear(z: Bounds, r0: Records, r1: Records, s: set<Block>, b: Block)
    requires RecordsOk(z, r0, s, INVALID_PFN) && Relinked(r0, r1, s) && b in s && b.free
    ensures InnerClear(r1.next, Held(s, b)) && InnerCleared(r1, Toggle(b))
  {
    forall e, p: nat | e in s && e.free && InBlock(e, p) && p != e.head && p in r1.next
      ensures r1.next[p] == INVALID_PFN
    {
      InnerNoHead(z, s, e, p);
    }
    assert forall p: nat :: InBlock(Toggle(b), p) <==> InBlock(b, p);
  }

  lemma HoldRecords(z: Bounds, r0: Records, r1: Records, s: set<Block>, b: Block)
    requires RecordsOk(z, r0, s, INVALID_PFN) && Relinked(r0, r1, s) && b in s && b.free && z.hi <= INVALID_PFN
    ensures RecordsOk(z, r1, Held(s, b), b.head) && InnerCleared(r1, Toggle(b))
  {
    HoldTags(z, r0, r1, s, b);
    HoldClear(z, r0, r1, s, b);
    RelinkedRecords(r0, r1, s);
    ToggleTiled(z, s, b);
    assert forall p: nat :: InBlock(Toggle(b), p) <==> InBlock(b, p);
  }

  lemma HoldTook(z: Bounds, s: set<Block>, b: Block)
    requires Tiled(z, s) && b in s && b.free
    ensures Took(s, Held(s, b), Toggle(b))
  {
    forall p: nat
      ensures InBlock(b, p) <==> InBlock(Toggle(b), p)
      ensures InBlock(b, p) ==> PageFree(s, p)
      ensures PageFree(Held(s, b), p) <==> PageFree(s, p) && !InBlock(b, p)
      ensures Managed(Held(s, b), p) <==> Managed(s, p)
    {
      TogglePages(z, s, b, p);
    }
    if Toggle(b) in s {
      SameHead(z, s, b, Toggle(b));
    }
  }

  lemma HoldTouched(z: Bounds, r0: Records, r1: Records, s: set<Block>, b: Block)
    requires Complete(r0) && Relinked(r0, r1, s)
    ensures OnlyFreeTouched(r0, r1, s, Held(s, b))
  {
    RelinkedRecords(r0, r1, s);
    forall p | p in r0.tag && !PageFree(s, p) && !PageFree(Held(s, b), p) ensures SameAt(r0, r1, p) {
      RelinkedTouched(r0, r1, s, p);
    }
  }

  lemma HoldCoalesced(z: Bounds, s: set<Block>, b: Block)
    requires Coalesced(z, s) && b.free
    ensures Coalesced(z, Held(s, b))
  {
  }

  // Splitting the held block.

  ghost function Shrunk(s: set<Block>, h: nat, o: nat): set<Block> {
    s - {Lower(h, o + 1)} + {Lower(h, o)}
  }

  lemma ShrinkTiled(z: Bounds, s: set<Block>, h: nat, o: nat)
    requires Tiled(z, s) && Lower(h, o + 1) in s
    ensures Tiled(z, Shrunk(s, h, o)) && Tiled(z, Shrunk(s, h, o) + {Upper(h, o)})
    ensures Shrunk(s, h, o) + {Upper(h, o)} == Split(s, h, o)
    ensures Upper(h, o) !in Shrunk(s, h, o) && !InBlock(Upper(h, o), h)
  {
    SplitTiled(z, s, h, o);
    HalvesShape(z, h, o);
    assert Shrunk(s, h, o) + {Upper(h, o)} == Split(s, h, o);
    assert InBlock(Upper(h, o), h + Pow2(o)) && InBlock(Lower(h, o + 1), h + Pow2(o));
    assert forall e :: e in s && e != Lower(h, o + 1) ==> Apart(e, Lower(h, o + 1));
  }

  lemma ShrinkRecords(z: Bounds, r: Records, s: set<Block>, h: nat, o: nat)
    requires RecordsOk(z, r, s, h) && Lower(h, o + 1) in s
    ensures RecordsOk(z, r, Shrunk(s, h, o), h)
    ensures Present(r, h + Pow2(o), Pow2(o))
  {
    ShrinkTiled(z, s, h, o);
    HalvesShape(z, h, o);
    assert Backed(r.tag.Keys, Shrunk(s, h, o)) by {
      assert forall p: nat :: InBlock(Lower(h, o), p) ==> InBlock(Lower(h, o + 1), p);
    }
    forall p: nat | h + Pow2(o) <= p < h + Pow2(o) + Pow2(o) ensures p in r.tag {
      assert InBlock(Upper(h, o), p);
      assert InBlock(Lower(h, o + 1), p);
    }
  }

  lemma ShrinkLinks(z: Bounds, r: Records, free: seq<nat>, lists: seq<seq<nat>>, s: set<Block>, h: nat, o: nat)
    requires LinksOk(z, r, free, lists, s) && Lower(h, o + 1) in s
    ensures LinksOk(z, r, free, lists, Shrunk(s, h, o))
  {
    ShrinkTiled(z, s, h, o);
  }

  lemma SplitTook(z: Bounds, s0: set<Block>, s: set<Block>, h: nat, o: nat)
    requires Tiled(z, s) && Lower(h, o + 1) in s && Took(s0, s, Lower(h, o + 1)) && Tiled(z, s0)
    ensures Took(s0, Split(s, h, o), Lower(h, o))
  {
    HalvesShape(z, h, o);
    forall p: nat
      ensures InBlock(Lower(h, o), p) ==> PageFree(s0, p)
      ensures PageFree(Split(s, h, o), p) <==> PageFree(s0, p) && !InBlock(Lower(h, o), p)
      ensures Managed(Split(s, h, o), p) <==> Managed(s0, p)
    {
      SplitPages(z, s, h, o, p);
      assert InBlock(Lower(h, o + 1), p) <==> InBlock(Lower(h, o), p) || InBlock(Upper(h, o), p);
    }
    LowerIsNew(z, s0, s, h, o);
  }

  /** The shorter block starts where the taken one does, so it was no block before. */
  lemma LowerIsNew(z: Bounds, s0: set<Block>, s: set<Block>, h: nat, o: nat)
    requires Tiled(z, s) && Lower(h, o + 1) in s && Took(s0, s, Lower(h, o + 1))
    ensures Lower(h, o) !in s0 && Lower(h, o) !in s
    ensures forall b: Block :: !b.free && b != Lower(h, o) ==> (b in Split(s, h, o) <==> b in s0)
  {
    if Lower(h, o) in s {
      SameHead(z, s, Lower(h, o), Lower(h, o + 1));
    }
  }

  lemma SplitClear(r1: Records, r2: Records, z: Bounds, s: set<Block>, h: nat, o: nat)
    requires Tiled(z, s) && Lower(h, o + 1) in s && InnerCleared(r1, Lower(h, o + 1))
    requires OnlyFreeTouched(r1, r2, Shrunk(s, h, o), Split(s, h, o))
    ensures InnerCleared(r2, Lower(h, o))
  {
    HalvesShape(z, h, o);
    ShrinkTiled(z, s, h, o);
    forall p: nat | InBlock(Lower(h, o), p) && p != h && p in r2.next ensures r2.next[p] == INVALID_PFN {
      LowerNotFree(z, Shrunk(s, h, o), h, o, p);
      LowerNotFree(z, Split(s, h, o), h, o, p);
      assert InBlock(Lower(h, o + 1), p);
      assert SameAt(r1, r2, p);
    }
  }

  lemma LowerNotFree(z: Bounds, t: set<Block>, h: nat, o: nat, p: nat)
    requires Tiled(z, t) && Lower(h, o) in t && InBlock(Lower(h, o), p)
    ensures !PageFree(t, p)
  {
  }

  lemma ShrinkSame(z: Bounds, s: set<Block>, h: nat, o: nat, p: nat)
    requires Tiled(z, s) && Lower(h, o + 1) in s
    ensures PageFree(Shrunk(s, h, o), p) <==> PageFree(s, p)
  {
  }

  // Stamping the remainder.

  lemma SealRecords(z: Bounds, r: Records, s: set<Block>, h: nat, o: nat)
    requires RecordsOk(z, r, s, h) && Lower(h, o) in s && h in r.tag
    ensures RecordsOk(z, Stamp(r, h, Allocated, o), s, INVALID_PFN)
  {
    var r' := Stamp(r, h, Allocated, o);
    assert forall e :: e in s && e.head == h ==> e == Lower(h, o);
    assert r'.tag.Keys == r.tag.Keys && r'.next.Keys == r.next.Keys;
  }

  lemma SealLinks(z: Bounds, r: Records, free: seq<nat>, lists: seq<seq<nat>>, s: set<Block>, h: nat, o: nat)
    requires LinksOk(z, r, free, lists, s) && Lower(h, o) in s && h in r.tag
    ensures LinksOk(z, Stamp(r, h, Allocated, o), free, lists, s)
  {
    hide Linked, ListsHold, AllLinked, Listed, Tiled, Stamp, Complete;
    StampSame(r, h, Allocated, o);
    forall x | Listed(lists, x) ensures x in r.next && x in r.prev && x != h {
      AllocatedNotListed(z, r, free, lists, s, Lower(h, o), x);
    }
    LinkedElsewhere(r.next, r.prev, r.next[h := INVALID_PFN], r.prev[h := INVALID_PFN], free, lists);
  }

  lemma SealTouched(z: Bounds, r0: Records, r: Records, s0: set<Block>, s: set<Block>, h: nat, o: nat)
    requires OnlyFreeTouched(r0, r, s0, s) && Took(s0, s, Lower(h, o)) && h in r.tag
    ensures OnlyFreeTouched(r0, Stamp(r, h, Allocated, o), s0, s)
  {
    hide Stamp, PageFree, Managed;
    StampSame(r, h, Allocated, o);
    assert InBlock(Lower(h, o), h);
    forall p | p in r0.tag && !PageFree(s0, p) && !PageFree(s, p) ensures SameAt(r0, Stamp(r, h, Allocated, o), p) {
      assert SameAt(r0, r, p);
    }
  }

  /** Everything one split of the held block needs. */
  lemma SplitReady(z: Bounds, r: Records, free: seq<nat>, lists: seq<seq<nat>>, s: set<Block>, h: nat, o: nat)
    requires RecordsOk(z, r, s, h) && LinksOk(z, r, free, lists, s) && Lower(h, o + 1) in s && z.maxOrder <= MAX_ORDER
    ensures RecordsOk(z, r, Shrunk(s, h, o), h) && LinksOk(z, r, free, lists, Shrunk(s, h, o))
    ensures Addable(z, r, Shrunk(s, h, o), Upper(h, o)) && !InBlock(Upper(h, o), h)
    ensures Shrunk(s, h, o) + {Upper(h, o)} == Split(s, h, o) && Lower(h, o) in Split(s, h, o)
    ensures FlipBit(h, o) == h + Pow2(o) && z.lo <= h && h + 2 * Pow2(o) <= z.hi
  {
    ShrinkRecords(z, r, s, h, o);
    ShrinkLinks(z, r, free, lists, s, h, o);
    ShrinkTiled(z, s, h, o);
    HalvesShape(z, h, o);
  }

  lemma SplitDone(z: Bounds, r0: Records, r1: Records, r2: Records, s0: set<Block>, s: set<Block>, h: nat, o: nat)
    requires Tiled(z, s0) && Tiled(z, s) && Coalesced(z, s) && Lower(h, o + 1) in s
    requires Took(s0, s, Lower(h, o + 1)) && InnerCleared(r1, Lower(h, o + 1))
    requires OnlyFreeTouched(r0, r1, s0, s) && OnlyFreeTouched(r1, r2, Shrunk(s, h, o), Split(s, h, o))
    ensures Took(s0, Split(s, h, o), Lower(h, o)) && InnerCleared(r2, Lower(h, o))
    ensures Coalesced(z, Split(s, h, o)) && OnlyFreeTouched(r0, r2, s0, Split(s, h, o))
    ensures |FreePages(Split(s, h, o))| == |FreePages(s)| + Pow2(o)
  {
    hide *;
    SplitCount(s0, s, h, o);
    SplitTook(z, s0, s, h, o);
    SplitClear(r1, r2, z, s, h, o);
    SplitCoalesced(z, s, h, o);
    SplitTouched(z, r0, r1, r2, s0, s, h, o);
  }

  lemma SplitCount(s0: set<Block>, s: set<Block>, h: nat, o: nat)
    requires Took(s0, s, Lower(h, o + 1))
    ensures Took(s0, Split(s, h, o), Lower(h, o)) ==> |FreePages(Split(s, h, o))| == |FreePages(s)| + Pow2(o)
  {
    hide Took, FreePages, Split;
    TookCount(s0, s, Lower(h, o + 1));
    if Took(s0, Split(s, h, o), Lower(h, o)) {
      TookCount(s0, Split(s, h, o), Lower(h, o));
    }
  }

  lemma SplitTouched(z: Bounds, r0: Records, r1: Records, r2: Records, s0: set<Block>, s: set<Block>, h: nat, o: nat)
    requires Tiled(z, s) && Lower(h, o + 1) in s && Took(s0, s, Lower(h, o + 1))
    requires OnlyFreeTouched(r0, r1, s0, s) && OnlyFreeTouched(r1, r2, Shrunk(s, h, o), Split(s, h, o))
    ensures OnlyFreeTouched(r0, r2, s0, Split(s, h, o))
  {
    forall p | p in r0.tag && !PageFree(s0, p) && !PageFree(Split(s, h, o), p) ensures SameAt(r0, r2, p) {
      ShrinkSame(z, s, h, o, p);
      SplitPages(z, s, h, o, p);
      assert SameAt(r0, r1, p) && SameAt(r1, r2, p);
    }
  }

  lemma HoldDone(z: Bounds, r0: Records, r1: Records, free: seq<nat>, lists: seq<seq<nat>>, s: set<Block>, b: Block)
    requires RecordsOk(z, r0, s, INVALID_PFN) && Coalesced(z, s) && Relinked(r0, r1, s)
    requires b in s && b.free && z.hi <= INVALID_PFN && LinksOk(z, r1, free, lists, s - {b})
    ensures RecordsOk(z, r1, Held(s, b), b.head) && LinksOk(z, r1, free, lists, Held(s, b))
    ensures InnerCleared(r1, Toggle(b)) && Took(s, Held(s, b), Toggle(b)) && Coalesced(z, Held(s, b))
    ensures OnlyFreeTouched(r0, r1, s, Held(s, b))
    ensures |FreePages(s)| == |FreePages(Held(s, b))| + Pow2(b.order)
    ensures Toggle(b) == Lower(b.head, b.order) && Toggle(b) in Held(s, b)
  {
    HoldRecords(z, r0, r1, s, b);
    HoldLinks(z, r1, free, lists, s, b);
    HoldTook(z, s, b);
    HoldCoalesced(z, s, b);
    HoldTouched(z, r0, r1, s, b);
    TookCount(s, Held(s, b), Toggle(b));
  }

  /** The whole allocated block carries no links. */
  lemma SealClear(r: Records, h: nat, o: nat)
    requires InnerCleared(r, Lower(h, o))
    ensures forall p: nat :: InBlock(Lower(h, o), p) && p in Stamp(r, h, Allocated, o).next ==>
                             Stamp(r, h, Allocated, o).next[p] == INVALID_PFN
  {
  }
}
