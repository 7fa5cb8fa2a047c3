/** The buddy allocator of one zone: free lists threaded through the frame
    records, splitting on allocation and coalescing on free. */
module BuddyAllocator {
  import opened Dyadic
  import opened Blocks
  import opened Chain
  import opened Frames
  import opened FreeLists
  import opened ZoneRecords
  import opened Allocation
  import opened Options

  function Min(a: nat, b: nat): nat { if a < b then a else b }

  /** The largest order allowed by the alignment of start and by the length left. */
  function MaxBlockOrderFor(start: nat, remaining: nat): (o: nat)
    ensures o <= MAX_ORDER && Aligned(start, o)
    ensures remaining > 0 ==> Pow2(o) <= remaining
    ensures remaining > 0 && o < MAX_ORDER ==> Pow2(o + 1) > remaining || !Aligned(start, o + 1)
  {
    if remaining == 0 then 0
    else
      var byRemaining := FloorLog2(remaining);
      var byStart := if start == 0 then MAX_ORDER else Min(TrailingZeros(start), MAX_ORDER);
      var o := Min(byRemaining, byStart);
      assert Aligned(start, byStart) by {
        if start == 0 {
          ZeroIsAligned(MAX_ORDER);
        } else {
          AlignedWeaken(start, byStart, TrailingZeros(start));
        }
      }
      AlignedWeaken(start, o, byStart);
      Pow2Monotone(o, byRemaining);
      o
  }

  /** The record of a block's head, once the block is allocated. */
  ghost predicate ReadsAllocated(r: Records, head: nat, order: nat) {
    head in r.tag && head in r.order && r.tag[head] == Allocated && r.order[head] == order
  }

  /** No record but one differs, and no record's state or zone does. */
  ghost predicate OthersSame(r: Records, r': Records, head: nat) {
    && Complete(r) && Complete(r') && r'.tag.Keys == r.tag.Keys && r'.state == r.state && r'.zone == r.zone
    && forall p :: p in r.tag && p != head ==> SameAt(r, r', p)
  }

  lemma SealedHead(r: Records, head: nat, order: nat)
    requires Complete(r) && head in r.tag
    ensures ReadsAllocated(Stamp(r, head, Tag.Allocated, order), head, order)
    ensures OthersSame(r, Stamp(r, head, Tag.Allocated, order), head)
  {
    StampSame(r, head, Tag.Allocated, order);
    assert Stamp(r, head, Tag.Allocated, order).tag.Keys == r.tag.Keys;
  }

  class Buddy {
    const base: nat
    const pages: nat
    const maxOrder: nat
    const mem: FrameTable

    var free: seq<nat>
    var freePages: nat

    /** The blocks of the zone, and the contents of its free lists. */
    ghost var blocks: set<Block>
    ghost var lists: seq<seq<nat>>

    constructor (base: nat, pages: nat, mem: FrameTable)
      ensures this.base == base && this.pages == pages && this.mem == mem
      ensures maxOrder == if pages == 0 then 0 else Min(FloorLog2(pages), MAX_ORDER)
      ensures free == seq(MAX_ORDER + 1, _ => INVALID_PFN) && freePages == 0
      ensures blocks == {} && lists == seq(MAX_ORDER + 1, _ => [])
    {
      this.base, this.pages, this.mem := base, pages, mem;
      maxOrder := if pages == 0 then 0 else Min(FloorLog2(pages), MAX_ORDER);
      free := seq(MAX_ORDER + 1, _ => INVALID_PFN);
      freePages := 0;
      blocks := {};
      lists := seq(MAX_ORDER + 1, _ => []);
    }

    ghost function Zone(): Bounds {
      Bounds(base, base + pages, maxOrder)
    }

    /** What the zone's extent must satisfy: its base is aligned to its largest
        block, so that alignment inside the zone and absolute alignment agree. */
    ghost predicate Sized() {
      maxOrder <= MAX_ORDER && Aligned(base, maxOrder) && base + pages <= INVALID_PFN
    }

    /** Everything but full coalescing; the frame at `except` may carry stale tags. */
    ghost predicate Consistent(except: nat)
      reads this`free, this`lists, this`blocks, mem
    {
      Sized() && RecordsOk(Zone(), mem.r, blocks, except) && LinksOk(Zone(), mem.r, free, lists, blocks)
    }

    ghost predicate Valid()
      reads this, mem
    {
      && Consistent(INVALID_PFN)
      && Coalesced(Zone(), blocks)
      && freePages == |FreePages(blocks)|
    }

    predicate InRange(pfn: nat) {
      pfn >= base && pfn - base < pages
    }

    function BuddyOf(head: nat, order: nat): Option<nat>
      requires head >= base
    {
      var buddy := FlipBit(head - base, order);
      if buddy + Pow2(order) > pages then None else Some(base + buddy)
    }

    predicate IsFreeHead(pfn: nat, order: nat)
      requires Complete(mem.r)
      reads mem
    {
      InRange(pfn) && pfn in mem.r.tag && mem.r.tag[pfn] == Tag.Free && mem.r.order[pfn] == order
    }

    /** Puts the block at the front of its free list; s is the block set the
        lists stand for. */
    method PushFree(head: nat, order: nat, ghost s: set<Block>)
      requires LinksOk(Zone(), mem.r, free, lists, s) && head in mem.r.tag && order <= MAX_ORDER
      requires Block(head, order, true) !in s && Tiled(Zone(), s + {Block(head, order, true)})
      modifies this`free, this`lists, mem
      ensures LinksOk(Zone(), mem.r, free, lists, s + {Block(head, order, true)})
      ensures Pushed(old(mem.r), mem.r, head, order, s)
    {
      var r, first := mem.r, free[order];
      PushLinksOk(Zone(), r, free, lists, s, Block(head, order, true));
      r := r.(tag := r.tag[head := Tag.Free], order := r.order[head := order],
              prev := r.prev[head := INVALID_PFN], next := r.next[head := first]);
      if first != INVALID_PFN {
        r := r.(prev := r.prev[first := head]);
      }
      mem.r := r;
      free := free[order := head];
      lists := lists[order := [head] + lists[order]];
    }

    /** Takes the block out of the middle of its free list. */
    method RemoveFree(head: nat, order: nat, ghost s: set<Block>)
      requires LinksOk(Zone(), mem.r, free, lists, s) && Block(head, order, true) in s
      modifies this`free, this`lists, mem
      ensures LinksOk(Zone(), mem.r, free, lists, s - {Block(head, order, true)})
      ensures Relinked(old(mem.r), mem.r, s)
    {
      hide *;
      var r := mem.r;
      RemoveLinksOk(Zone(), r, free, lists, s, Block(head, order, true));
      var r' := r.(next := RemoveNext(r.next, r.prev, head, INVALID_PFN),
                   prev := RemovePrev(r.next, r.prev, head, INVALID_PFN));
      RemoveIsOk(Zone(), r, r', free, lists, s, Block(head, order, true));
      free, lists := RemoveHead(r.next, r.prev, free, order, head), DropFrom(lists, order, head);
      mem.r := r';
    }

    /** Takes the first block off a free list, if there is one. */
    method PopFree(order: nat, ghost s: set<Block>) returns (head: Option<nat>)
      requires LinksOk(Zone(), mem.r, free, lists, s) && order <= MAX_ORDER
      modifies this`free, this`lists, mem
      ensures head == None <==> forall b :: b in s && b.free ==> b.order != order
      ensures head == None ==> mem.r == old(mem.r) && lists == old(lists) && free == old(free)
      ensures head.Some? ==>
                && Block(head.value, order, true) in s
                && LinksOk(Zone(), mem.r, free, lists, s - {Block(head.value, order, true)})
                && Relinked(old(mem.r), mem.r, s)
    {
      hide *;
      PopFacts(Zone(), mem.r, free, lists, s, order);
      var first := free[order];
      if first == INVALID_PFN {
        return None;
      }
      var r := mem.r;
      var after := r.next[first];
      var r' := r.(prev := r.prev[first := INVALID_PFN], next := r.next[first := INVALID_PFN]);
      if after != INVALID_PFN {
        r' := r'.(prev := r'.prev[after := INVALID_PFN]);
      }
      PopIsRemove(r, free, order, first);
      RemoveIsOk(Zone(), r, r', free, lists, s, Block(first, order, true));
      free, lists := free[order := after], DropFrom(lists, order, first);
      mem.r := r';
      return Some(first);
    }

    /** Stamps a free head and clears the records of the pages behind it. */
    method MarkBlockFreeHead(head: nat, order: nat)
      requires Complete(mem.r) && Present(mem.r, head, Pow2(order))
      modifies mem
      ensures Complete(mem.r) && MarkedFree(old(mem.r), mem.r, head, Pow2(order), order)
    {
      var r := Stamp(mem.r, head, Tag.Free, order);
      for i := 1 to Pow2(order)
        invariant MarkedFree(mem.r, r, head, i, order)
        invariant mem.r == old(mem.r)
      {
        MarkOneMore(mem.r, r, head, i, order);
        r := Stamp(r, head + i, Unused, 0);
      }
      mem.r := r;
    }

    /** One round of coalescing: a free block and its free buddy become the free
        block twice the size. */
    method MergeWithBuddy(head: nat, order: nat, buddy: nat)
      requires Consistent(INVALID_PFN) && order < maxOrder
      requires Block(head, order, true) in blocks && Block(buddy, order, true) in blocks &&
               buddy == FlipBit(head, order)
      modifies this`free, this`lists, this`blocks, mem
      ensures Consistent(INVALID_PFN)
      ensures blocks == Merge(old(blocks), Block(head, order, true))
      ensures OnlyFreeTouched(old(mem.r), mem.r, old(blocks), blocks)
    {
      hide *;
      ghost var z, s, b, r0 := Zone(), blocks, Block(head, order, true), mem.r;
      StartMerge(head, order, buddy);
      RemoveFree(head, order, s);
      ghost var r1 := mem.r;
      MergeSets(z, s, b);
      RemoveFree(buddy, order, s - {b});
      ghost var r2 := mem.r;
      MergeReady(z, r0, r1, r2, s, b);
      var parent := if head - base < buddy - base then head else buddy;
      MarkBlockFreeHead(parent, order + 1);
      ghost var r3 := mem.r;
      MergeMarked(z, r2, r3, free, lists, s, b);
      PushFree(parent, order + 1, Unmerged(s, b));
      MergeDone(z, r0, r2, r3, mem.r, s, b);
      blocks := Merge(s, b);
      IntroConsistent(INVALID_PFN);
    }

    lemma IntroConsistent(except: nat)
      requires Sized() && RecordsOk(Zone(), mem.r, blocks, except) && LinksOk(Zone(), mem.r, free, lists, blocks)
      ensures Consistent(except)
    {
    }

    lemma StartMerge(head: nat, order: nat, buddy: nat)
      requires Consistent(INVALID_PFN) && order < maxOrder
      requires Block(head, order, true) in blocks && Block(buddy, order, true) in blocks &&
               buddy == FlipBit(head, order)
      ensures Sized() && order + 1 <= MAX_ORDER && Zone().hi <= INVALID_PFN
      ensures RecordsOk(Zone(), mem.r, blocks, INVALID_PFN) && LinksOk(Zone(), mem.r, free, lists, blocks)
      ensures base <= head && base <= buddy
      ensures var b, g := Block(head, order, true), Block(buddy, order, true);
              && Mergeable(Zone(), blocks, b)
              && BuddyBlock(b) == g
              && Unmerged(blocks, b) == blocks - {b} - {g}
              && Merged(b) == Block(if head < buddy then head else buddy, order + 1, true)
    {
    }
  
    /** Merges the block with its buddy for as long as the buddy is free. */
    method CoalesceUp(head: nat, order: nat)
      requires Consistent(INVALID_PFN) && CoalescedBut(Zone(), blocks, head) && Block(head, order, true) in blocks
      modifies this`free, this`lists, this`blocks, mem
      ensures Consistent(INVALID_PFN) && Coalesced(Zone(), blocks)
      ensures SameExtent(old(blocks), blocks)
      ensures OnlyFreeTouched(old(mem.r), mem.r, old(blocks), blocks)
    {
      hide *;
      var h: nat, o: nat := head, order;
      StartCoalescing(head, order);
      while o < maxOrder
        invariant o <= maxOrder
        invariant Consistent(INVALID_PFN) && CoalescedBut(Zone(), blocks, h) && Block(h, o, true) in blocks
        invariant SameExtent(old(blocks), blocks)
        invariant OnlyFreeTouched(old(mem.r), mem.r, old(blocks), blocks)
        decreases maxOrder - o
      {
        BuddyFacts(h, o);
        var buddy := BuddyOf(h, o);
        if buddy == None || !IsFreeHead(buddy.value, o) {
          StopCoalescing(h, o);
          return;
        }
        ghost var s1, r1 := blocks, mem.r;
        StartMerge(h, o, buddy.value);
        MergeWithBuddy(h, o, buddy.value);
        CoalesceRound(Zone(), old(mem.r), r1, mem.r, old(blocks), s1, Block(h, o, true));
        h := if h - base < buddy.value - base then h else buddy.value;
        o := o + 1;
      }
      StopCoalescing(h, o);
    }

    lemma StartCoalescing(head: nat, order: nat)
      requires Consistent(INVALID_PFN) && Block(head, order, true) in blocks
      ensures order <= maxOrder
      ensures SameExtent(blocks, blocks) && OnlyFreeTouched(mem.r, mem.r, blocks, blocks)
    {
    }

    lemma StopCoalescing(head: nat, order: nat)
      requires Consistent(INVALID_PFN) && CoalescedBut(Zone(), blocks, head) && Block(head, order, true) in blocks
      requires order < maxOrder ==> Block(FlipBit(head, order), order, true) !in blocks
      ensures Coalesced(Zone(), blocks)
    {
      CoalescedDone(Zone(), blocks, Block(head, order, true));
    }

    /** The buddy computed relative to the zone base is the absolute one, and the
        frame test finds it exactly when it is a free block of the same order. */
    lemma BuddyFacts(head: nat, order: nat)
      requires Consistent(INVALID_PFN) && Block(head, order, true) in blocks && order < maxOrder
      ensures head >= base && Complete(mem.r)
      ensures BuddyOf(head, order).Some? ==>
                && BuddyOf(head, order).value == FlipBit(head, order)
                && BuddyOf(head, order).value >= base
                && (IsFreeHead(FlipBit(head, order), order) <==> Block(FlipBit(head, order), order, true) in blocks)
      ensures BuddyOf(head, order) == None ==> Block(FlipBit(head, order), order, true) !in blocks
    {
      hide RecordsOk, LinksOk, Tiled, Complete, Aligned, FlipBit, Pow2;
      ElimConsistent(INVALID_PFN);
      TiledBlock(Zone(), blocks, Block(head, order, true));
      AlignedWeaken(base, order + 1, maxOrder);
      FlipRelative(base, head - base, order);
      Beyond(Zone(), blocks, Block(FlipBit(head, order), order, true));
      var buddy := FlipBit(head, order);
      if buddy < base + pages {
        FreeTagIsBlock(Zone(), mem.r, blocks, buddy, order);
      }
    }
  
    /** Marks a block no other block overlaps as free and puts it on its list. */
    method AddFreeBlock(head: nat, order: nat, ghost except: nat)
      requires Consistent(except) && Addable(Zone(), mem.r, blocks, Block(head, order, true))
      requires !InBlock(Block(head, order, true), except)
      modifies this`free, this`lists, this`blocks, mem
      ensures Consistent(except) && blocks == old(blocks) + {Block(head, order, true)}
      ensures OnlyFreeTouched(old(mem.r), mem.r, old(blocks), blocks)
    {
      hide *;
      ghost var z, s, m, r0 := Zone(), blocks, Block(head, order, true), mem.r;
      ElimConsistent(except);
      ElimAddable(z, r0, s, m);
      MarkBlockFreeHead(head, order);
      ghost var r1 := mem.r;
      AddMarked(z, r0, r1, free, lists, s, m);
      PushFree(head, order, s);
      AddDone(z, r0, r1, mem.r, s, m, except);
      blocks := s + {m};
      IntroConsistent(except);
    }

    lemma ElimConsistent(except: nat)
      requires Consistent(except)
      ensures Sized() && RecordsOk(Zone(), mem.r, blocks, except) && LinksOk(Zone(), mem.r, free, lists, blocks)
      ensures Complete(mem.r) && Tiled(Zone(), blocks) && maxOrder <= MAX_ORDER && base + pages <= INVALID_PFN
      ensures Zone() == Bounds(base, base + pages, maxOrder)
    {
    }
  
    ghost predicate Fresh(lo: nat, n: nat)
      reads this, mem
    {
      FreshPages(Zone(), mem.r, blocks, lo, n)
    }

    method InsertBlockBoot(head: nat, order: nat)
      requires Valid() && order <= maxOrder && Aligned(head, order) && Fresh(head, Pow2(order))
      modifies this, mem
      ensures Valid() && Grew(old(blocks), blocks, head, Pow2(order))
      ensures OnlyFreeTouched(old(mem.r), mem.r, old(blocks), blocks)
    {
      hide *;
      ghost var s, m, r0 := blocks, Block(head, order, true), mem.r;
      ElimValid();
      StartInsert(head, order);
      AddFreeBlock(head, order, INVALID_PFN);
      ghost var s1, r1 := blocks, mem.r;
      freePages := freePages + Pow2(order);
      AddCoalesced(Zone(), s, m);
      AddGrows(s, m);
      CoalesceUp(head, order);
      GrewThenSame(s, s1, blocks, head, Pow2(order));
      ExtentKeepsFree(s1, blocks);
      TouchedTwice(r0, r1, mem.r, s, s1, blocks);
      IntroValid();
    }

    lemma StartInsert(head: nat, order: nat)
      requires Valid() && order <= maxOrder && Aligned(head, order) && Fresh(head, Pow2(order))
      ensures Addable(Zone(), mem.r, blocks, Block(head, order, true))
      ensures !InBlock(Block(head, order, true), INVALID_PFN)
      ensures |FreePages(blocks + {Block(head, order, true)})| == freePages + Pow2(order)
    {
      var m := Block(head, order, true);
      UnmanagedAddable(Zone(), mem.r, blocks, m);
      AddGrows(blocks, m);
      GrewCount(blocks, blocks + {m}, head, Pow2(order));
    }

    /** Forgets every block and clears the zone's frame records. */
    method Reset()
      requires Sized() && Complete(mem.r)
      modifies this, mem
      ensures Valid() && blocks == {} && freePages == 0
      ensures ClearedTo(old(mem.r), mem.r, base, base + pages)
    {
      hide *;
      var r := mem.r;
      ClearNothing(r, base);
      for i := 0 to pages
        invariant ClearedTo(mem.r, r, base, base + i)
        invariant mem.r == old(mem.r)
      {
        ClearOneMore(mem.r, r, base, base + i);
        if base + i in r.tag {
          r := Stamp(r, base + i, Unused, 0);
        }
      }
      mem.r := r;
      free := seq(MAX_ORDER + 1, _ => INVALID_PFN);
      freePages := 0;
      blocks, lists := {}, seq(MAX_ORDER + 1, _ => []);
      ResetValid(old(mem.r));
    }

    lemma ResetValid(r0: Records)
      requires Sized() && ClearedTo(r0, mem.r, base, base + pages)
      requires free == seq(MAX_ORDER + 1, _ => INVALID_PFN) && lists == seq(MAX_ORDER + 1, _ => [])
      requires blocks == {} && freePages == 0
      ensures Valid()
    {
      ClearedRecords(Zone(), r0, mem.r);
      assert FreePages({}) == {};
    }

    /** The part of [start, start + len) inside the zone. */
    function ClipStart(start: nat): nat {
      if start < base then base else start
    }

    function ClipLength(start: nat, len: nat): nat {
      var hi := Min(start + len, base + pages);
      if ClipStart(start) < hi then hi - ClipStart(start) else 0
    }

    /** Adds a run of usable frames, cut to the zone, as free pages. */
    method AddUsableRun(start: nat, len: nat)
      requires Valid() && (ClipLength(start, len) > 0 ==> Fresh(ClipStart(start), ClipLength(start, len)))
      modifies this, mem
      ensures Valid() && Grew(old(blocks), blocks, ClipStart(start), ClipLength(start, len))
      ensures OnlyFreeTouched(old(mem.r), mem.r, old(blocks), blocks)
    {
      hide *;
      StartRun(start, len);
      if len == 0 || pages == 0 {
        return;
      }
      var pStart := if start > base then start else base;
      var pEnd := if start + len < base + pages then start + len else base + pages;
      if pStart >= pEnd {
        return;
      }
      var p, remaining := pStart, pEnd - pStart;
      while remaining > 0
        invariant p + remaining == pEnd && pStart <= p && 0 <= remaining
        invariant Valid() && (remaining > 0 ==> FreshPages(Zone(), mem.r, blocks, p, remaining))
        invariant Grew(old(blocks), blocks, pStart, p - pStart)
        invariant OnlyFreeTouched(old(mem.r), mem.r, old(blocks), blocks)
        decreases remaining
      {
        var order := RunOrder(p, remaining);
        ghost var s1, r1 := blocks, mem.r;
        FreshPrefix(p, Pow2(order), remaining);
        InsertBlockBoot(p, order);
        RunGrows(old(mem.r), r1, mem.r, old(blocks), s1, blocks, pStart, p, Pow2(order));
        FreshSuffix(Zone(), r1, mem.r, s1, blocks, p, Pow2(order), remaining);
        p := p + Pow2(order);
        remaining := remaining - Pow2(order);
      }
    }

    lemma StartRun(start: nat, len: nat)
      requires Valid() && (ClipLength(start, len) > 0 ==> Fresh(ClipStart(start), ClipLength(start, len)))
      ensures OnlyFreeTouched(mem.r, mem.r, blocks, blocks) && Grew(blocks, blocks, ClipStart(start), 0)
      ensures ClipStart(start) == if start > base then start else base
      ensures var hi := if start + len < base + pages then start + len else base + pages;
              && ClipLength(start, len) == (if ClipStart(start) < hi then hi - ClipStart(start) else 0)
              && (ClipStart(start) < hi ==> FreshPages(Zone(), mem.r, blocks, ClipStart(start), hi - ClipStart(start)))
    {
    }

    function RunOrder(p: nat, remaining: nat): (o: nat)
      requires remaining > 0
      ensures o <= maxOrder && Aligned(p, o) && Pow2(o) <= remaining
    {
      var m := MaxBlockOrderFor(p, remaining);
      AlignedWeaken(p, Min(m, maxOrder), m);
      Pow2Monotone(Min(m, maxOrder), m);
      Min(m, maxOrder)
    }

    lemma FreshPrefix(p: nat, k: nat, n: nat)
      requires FreshPages(Zone(), mem.r, blocks, p, n) && k <= n
      ensures Fresh(p, k)
    {
    }

    /** The smallest order from `order` on with a free block, or maxOrder + 1. */
    method FindOrder(order: nat) returns (found: nat)
      requires Valid() && order <= maxOrder
      ensures order <= found <= maxOrder + 1
      ensures forall b :: b in blocks && b.free ==> !(order <= b.order < found)
      ensures found <= maxOrder ==> exists b :: b in blocks && b.free && b.order == found
    {
      hide *;
      found := order;
      ElimValid();
      ElimConsistent(INVALID_PFN);
      while found <= maxOrder
        invariant order <= found <= maxOrder + 1
        invariant forall b :: b in blocks && b.free ==> !(order <= b.order < found)
        decreases maxOrder + 1 - found
      {
        PopFacts(Zone(), mem.r, free, lists, blocks, found);
        if free[found] != INVALID_PFN {
          return;
        }
        found := found + 1;
      }
    }

    /** One split of the block the allocator holds: its upper half goes on a list. */
    method SplitHeld(head: nat, order: nat, ghost s0: set<Block>, ghost r0: Records)
      requires Consistent(head) && Coalesced(Zone(), blocks) && freePages == |FreePages(blocks)|
      requires Lower(head, order + 1) in blocks && InnerCleared(mem.r, Lower(head, order + 1)) && Tiled(Zone(), s0)
      requires Took(s0, blocks, Lower(head, order + 1)) && OnlyFreeTouched(r0, mem.r, s0, blocks)
      modifies this, mem
      ensures Consistent(head) && Coalesced(Zone(), blocks) && freePages == |FreePages(blocks)|
      ensures Lower(head, order) in blocks && InnerCleared(mem.r, Lower(head, order))
      ensures Took(s0, blocks, Lower(head, order)) && OnlyFreeTouched(r0, mem.r, s0, blocks)
    {
      hide *;
      ghost var z, s, r1 := Zone(), blocks, mem.r;
      ElimConsistent(head);
      SplitReady(z, r1, free, lists, s, head, order);
      SplitBuddy(head, order);
      var buddy := BuddyOf(head, order).value;
      blocks := Shrunk(s, head, order);
      IntroConsistent(head);
      AddFreeBlock(buddy, order, head);
      freePages := freePages + Pow2(order);
      SplitDone(z, r0, r1, mem.r, s0, s, head, order);
    }

    /** The `expect` on a split never fails: the buddy lies inside the zone. */
    lemma SplitBuddy(head: nat, order: nat)
      requires Consistent(head) && Lower(head, order + 1) in blocks
      ensures head >= base && BuddyOf(head, order) == Some(head + Pow2(order))
      ensures Upper(head, order) == Block(head + Pow2(order), order, true)
    {
      hide RecordsOk, LinksOk, Tiled, FlipBit, Aligned;
      HeldShape(Zone(), mem.r, blocks, head, order + 1);
      HalvesShape(Zone(), head, order);
      AlignedWeaken(base, order + 1, maxOrder);
      FlipRelative(base, head - base, order);
    }

    /** Takes 2^order pages. Fails exactly when no aligned run of that size is free. */
    method Alloc(order: nat) returns (res: Option<nat>)
      requires Valid()
      modifies this, mem
      ensures Valid()
      ensures res == None <==> order > maxOrder || !exists h: nat :: Aligned(h, order) && RunFree(old(blocks), h, order)
      ensures res == None ==> blocks == old(blocks) && mem.r == old(mem.r)
      ensures res.Some? ==> Took(old(blocks), blocks, Block(res.value, order, false))
      ensures res.Some? ==>
                forall p: nat :: InBlock(Block(res.value, order, false), p) && p in mem.r.next ==>
                  mem.r.next[p] == INVALID_PFN
      ensures OnlyFreeTouched(old(mem.r), mem.r, old(blocks), blocks)
    {
      hide *;
      StartCoalesced();
      if order > maxOrder {
        return None;
      }
      RunExistsIffBlockExists(Zone(), blocks, order);
      var found := FindOrder(order);
      if found > maxOrder {
        NoneLarger(order, found);
        return None;
      }
      ghost var z, s, r0 := Zone(), blocks, mem.r;
      var popped := PopFree(found, s);
      var head := popped.value;
      ghost var b := Block(head, found, true);
      HoldDone(z, r0, mem.r, free, lists, s, b);
      freePages := freePages - Pow2(found);
      blocks := Held(s, b);
      IntroConsistent(head);
      var cur := found;
      while cur > order
        invariant order <= cur
        invariant Consistent(head) && Coalesced(Zone(), blocks) && freePages == |FreePages(blocks)|
        invariant Lower(head, cur) in blocks && InnerCleared(mem.r, Lower(head, cur))
        invariant Took(s, blocks, Lower(head, cur)) && OnlyFreeTouched(r0, mem.r, s, blocks)
      {
        cur := cur - 1;
        SplitHeld(head, cur, s, r0);
      }
      MarkBlockAllocated(head, order, s, r0);
      IntroValid();
      return Some(head);
    }

    /** Ends the holding back of a block taken since blocks s0 and records r0: its head
        now reads as allocated of that order, the zone is consistent with no exception,
        no page of the block is linked, and no other record changes. */
    method MarkBlockAllocated(head: nat, order: nat, ghost s0: set<Block>, ghost r0: Records)
      requires Consistent(head) && Lower(head, order) in blocks && InnerCleared(mem.r, Lower(head, order))
      requires Took(s0, blocks, Lower(head, order)) && OnlyFreeTouched(r0, mem.r, s0, blocks)
      modifies mem
      ensures Consistent(INVALID_PFN) && Took(s0, blocks, Block(head, order, false))
      ensures OnlyFreeTouched(r0, mem.r, s0, blocks)
      ensures ReadsAllocated(mem.r, head, order) && OthersSame(old(mem.r), mem.r, head)
      ensures forall p: nat :: InBlock(Block(head, order, false), p) && p in mem.r.next ==> mem.r.next[p] == INVALID_PFN
    {
      hide *;
      StartSeal(head, order, s0, r0);
      SealedHead(mem.r, head, order);
      mem.r := Stamp(mem.r, head, Tag.Allocated, order);
      IntroConsistent(INVALID_PFN);
    }

    lemma StartCoalesced()
      requires Valid()
      ensures Consistent(INVALID_PFN) && Coalesced(Zone(), blocks) && freePages == |FreePages(blocks)| && Sized()
      ensures RecordsOk(Zone(), mem.r, blocks, INVALID_PFN) && LinksOk(Zone(), mem.r, free, lists, blocks)
      ensures Tiled(Zone(), blocks) && maxOrder <= MAX_ORDER && Zone() == Bounds(base, base + pages, maxOrder)
      ensures base + pages <= INVALID_PFN && OnlyFreeTouched(mem.r, mem.r, blocks, blocks)
    {
    }

    lemma NoneLarger(order: nat, found: nat)
      requires Valid() && found > maxOrder && forall b :: b in blocks && b.free ==> !(order <= b.order < found)
      ensures !exists b :: b in blocks && b.free && b.order >= order
    {
      assert forall b :: b in blocks ==> BlockOk(Zone(), b);
    }

    lemma StartSeal(head: nat, order: nat, s0: set<Block>, r0: Records)
      requires Consistent(head) && Lower(head, order) in blocks && InnerCleared(mem.r, Lower(head, order))
      requires Took(s0, blocks, Lower(head, order)) && OnlyFreeTouched(r0, mem.r, s0, blocks)
      ensures Complete(mem.r) && head in mem.r.tag && Lower(head, order) == Block(head, order, false)
      ensures var r' := Stamp(mem.r, head, Tag.Allocated, order);
              && Sized() && RecordsOk(Zone(), r', blocks, INVALID_PFN) && LinksOk(Zone(), r', free, lists, blocks)
              && OnlyFreeTouched(r0, r', s0, blocks)
              && forall p: nat :: InBlock(Block(head, order, false), p) && p in r'.next ==> r'.next[p] == INVALID_PFN
    {
      hide RecordsOk, LinksOk, OnlyFreeTouched, Took, Stamp, InnerCleared;
      HeldPresent(Zone(), mem.r, blocks, head, order);
      SealRecords(Zone(), mem.r, blocks, head, order);
      SealLinks(Zone(), mem.r, free, lists, blocks, head, order);
      SealTouched(Zone(), r0, mem.r, s0, blocks, head, order);
      SealClear(mem.r, head, order);
    }

    /** Returns an allocated block, named by its head. */
    method Free(head: nat)
      requires Valid() && head in mem.r.order && Block(head, mem.r.order[head], false) in blocks
      requires InnerCleared(mem.r, Block(head, mem.r.order[head], false))
      modifies this, mem
      ensures Valid() && Took(blocks, old(blocks), Block(head, old(mem.r.order[head]), false))
      ensures OnlyFreeTouched(old(mem.r), mem.r, old(blocks), blocks)
    {
      hide *;
      var order := mem.r.order[head];
      ghost var z, s, a, r0 := Zone(), blocks, Block(head, order, false), mem.r;
      StartFree(a);
      mem.r := Release(mem.r, head);
      freePages := freePages + Pow2(order);
      PushFree(head, order, s - {a});
      ghost var r2 := mem.r;
      ReleaseDone(z, r0, r2, s, a);
      blocks := Freed(s, a);
      IntroConsistent(INVALID_PFN);
      CoalesceUp(head, order);
      TookThenSame(Freed(s, a), blocks, s, a);
      ExtentKeepsFree(Freed(s, a), blocks);
      TouchedTwice(r0, r2, mem.r, s, Freed(s, a), blocks);
      IntroValid();
    }

    lemma StartFree(a: Block)
      requires Valid() && a in blocks && !a.free
      ensures Consistent(INVALID_PFN) && Sized() && Zone().hi <= INVALID_PFN && a.order <= MAX_ORDER
      ensures RecordsOk(Zone(), mem.r, blocks, INVALID_PFN)
      ensures Toggle(a) == Block(a.head, a.order, true) && Freed(blocks, a) == blocks - {a} + {Toggle(a)}
      ensures LinksOk(Zone(), Release(mem.r, a.head), free, lists, blocks - {a})
      ensures a.head in Release(mem.r, a.head).tag
      ensures Toggle(a) !in blocks - {a} && Tiled(Zone(), blocks - {a} + {Toggle(a)})
      ensures CoalescedBut(Zone(), Freed(blocks, a), a.head)
      ensures Took(Freed(blocks, a), blocks, a)
      ensures |FreePages(Freed(blocks, a))| == freePages + Pow2(a.order)
    {
      hide *;
      ElimValid();
      ElimConsistent(INVALID_PFN);
      AllocatedPresent(Zone(), mem.r, blocks, a);
      ReleaseLinks(Zone(), mem.r, free, lists, blocks, a);
      ReleaseTiled(Zone(), blocks, a);
      FreedCoalesced(Zone(), blocks, a);
      FreedTook(Zone(), blocks, a);
      TookCount(Freed(blocks, a), blocks, a);
      FreedNames(mem.r, blocks, a);
    }

    lemma ElimValid()
      requires Valid()
      ensures Consistent(INVALID_PFN) && Coalesced(Zone(), blocks) && freePages == |FreePages(blocks)|
      ensures Sized() && Complete(mem.r) && Tiled(Zone(), blocks) && maxOrder <= MAX_ORDER &&
              base + pages <= INVALID_PFN
    {
    }

    lemma IntroValid()
      requires Consistent(INVALID_PFN) && Coalesced(Zone(), blocks) && freePages == |FreePages(blocks)|
      ensures Valid()
    {
    }
  }

  lemma FreshSuffix(z: Bounds, r1: Records, r2: Records, s1: set<Block>, s2: set<Block>, p: nat, k: nat, n: nat)
    requires k <= n && FreshPages(z, r1, s1, p, n)
    requires Grew(s1, s2, p, k) && OnlyFreeTouched(r1, r2, s1, s2)
    ensures FreshPages(z, r2, s2, p + k, n - k)
  {
    assert r1.tag.Keys == r2.tag.Keys;
  }

  lemma HeldShape(z: Bounds, r: Records, s: set<Block>, head: nat, order: nat)
    requires RecordsOk(z, r, s, head) && Lower(head, order) in s
    ensures BlockOk(z, Lower(head, order))
  {
  }

  lemma HeldPresent(z: Bounds, r: Records, s: set<Block>, head: nat, order: nat)
    requires RecordsOk(z, r, s, head) && Lower(head, order) in s
    ensures head in r.tag && Complete(r)
  {
    assert InBlock(Lower(head, order), head);
  }

  lemma AllocatedPresent(z: Bounds, r: Records, s: set<Block>, a: Block)
    requires RecordsOk(z, r, s, INVALID_PFN) && a in s && z.hi <= INVALID_PFN && z.maxOrder <= MAX_ORDER
    ensures a.head in r.tag && a.order <= MAX_ORDER
  {
    assert InBlock(a, a.head);
  }

  lemma FreedNames(r: Records, s: set<Block>, a: Block)
    requires !a.free
    ensures Toggle(a) == Block(a.head, a.order, true) && Freed(s, a) == s - {a} + {Toggle(a)}
    ensures a.head in r.tag ==> a.head in Release(r, a.head).tag
  {
  }

  lemma RunGrows(r0: Records, r1: Records, r2: Records, s0: set<Block>, s1: set<Block>, s2: set<Block>,
                 lo: nat, p: nat, k: nat)
    requires lo <= p && Grew(s0, s1, lo, p - lo) && Grew(s1, s2, p, k)
    requires OnlyFreeTouched(r0, r1, s0, s1) && OnlyFreeTouched(r1, r2, s1, s2)
    ensures Grew(s0, s2, lo, p + k - lo)
    ensures OnlyFreeTouched(r0, r2, s0, s2)
  {
    GrewTwice(s0, s1, s2, lo, p - lo, k);
    GrewFree(s1, s2, p, k);
    TouchedTwice(r0, r1, r2, s0, s1, s2);
  }

  lemma ExtentKeepsFree(s: set<Block>, t: set<Block>)
    requires SameExtent(s, t)
    ensures FreePages(t) == FreePages(s)
    ensures forall p: nat :: PageFree(t, p) <==> PageFree(s, p)
  {
  }

  lemma ElimAddable(z: Bounds, r: Records, s: set<Block>, m: Block)
    requires Addable(z, r, s, m)
    ensures m.free && m.order <= MAX_ORDER && m !in s && Tiled(z, s + {m}) && Present(r, m.head, Pow2(m.order))
  {
  }
}
