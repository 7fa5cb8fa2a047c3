/** How frame records and free lists represent the blocks of a zone, and why
    removing, marking and pushing blocks keeps them in agreement. */
module ZoneRecords {
  import opened Dyadic
  import opened Blocks
  import opened Chain
  import opened Frames
  import opened FreeLists

  /** Frame tags and orders say exactly which blocks there are, the frame at
      `except` aside. */
  ghost predicate TagsAgree(z: Bounds, tag: map<nat, Tag>, order: map<nat, nat>, s: set<Block>, except: nat) {
    && (forall b :: b in s && b.head != except ==>
          b.head in tag && b.head in order && order[b.head] == b.order
          && tag[b.head] == if b.free then Free else Allocated)
    && (forall p :: p in tag && z.lo <= p < z.hi && p != except && tag[p] != Unused ==>
          p in order && Block(p, order[p], tag[p] == Free) in s)
  }

  /** Every page of every block has a frame record. */
  ghost predicate Backed(present: set<nat>, s: set<Block>) {
    forall b, p: nat :: b in s && InBlock(b, p) ==> p in present
  }

  /** Inside a free block only the head is linked. */
  ghost predicate InnerClear(next: map<nat, nat>, s: set<Block>) {
    forall b, p: nat :: b in s && b.free && InBlock(b, p) && p != b.head && p in next ==> next[p] == INVALID_PFN
  }

  /** The frame records describe the block set s. */
  ghost predicate RecordsOk(z: Bounds, r: Records, s: set<Block>, except: nat) {
    && Complete(r)
    && Tiled(z, s)
    && Backed(r.tag.Keys, s)
    && TagsAgree(z, r.tag, r.order, s, except)
    && InnerClear(r.next, s)
  }

  /** The lists are well formed and hold exactly the free blocks of s. */
  ghost predicate LinksOk(z: Bounds, r: Records, free: seq<nat>, lists: seq<seq<nat>>, s: set<Block>) {
    Complete(r) && Tiled(z, s) && AllLinked(r.next, r.prev, free, lists) && ListsHold(lists, s)
  }

  ghost predicate SameAt(r: Records, r': Records, p: nat)
    requires Complete(r) && Complete(r') && p in r.tag && p in r'.tag
  {
    r'.tag[p] == r.tag[p] && r'.order[p] == r.order[p] && r'.next[p] == r.next[p] && r'.prev[p] == r.prev[p]
  }

  /** Stamping one frame changes no other. */
  lemma StampSame(r: Records, x: nat, tag: Tag, o: nat)
    requires Complete(r) && x in r.tag
    ensures var r' := Stamp(r, x, tag, o);
            && Complete(r') && r'.state == r.state && r'.zone == r.zone
            && r'.next == r.next[x := INVALID_PFN] && r'.prev == r.prev[x := INVALID_PFN]
            && forall p :: p in r.tag && p != x ==> SameAt(r, r', p)
  {
    var r' := Stamp(r, x, tag, o);
    assert r'.tag.Keys == r.tag.Keys && r'.next.Keys == r.next.Keys && r'.prev.Keys == r.prev.Keys &&
           r'.order.Keys == r.order.Keys;
  }

  /** r' differs from r only at pages free in s or in t; frame states and zones
      never change. */
  ghost predicate OnlyFreeTouched(r: Records, r': Records, s: set<Block>, t: set<Block>) {
    && Complete(r) && Complete(r')
    && r'.state == r.state && r'.zone == r.zone
    && forall p :: p in r.tag && !PageFree(s, p) && !PageFree(t, p) ==> SameAt(r, r', p)
  }

  // Lists and block sets.

  lemma DropHold(z: Bounds, lists: seq<seq<nat>>, s: set<Block>, b: Block)
    requires Tiled(z, s) && ListsHold(lists, s) && b in s && b.free && NoDup(lists[b.order])
    ensures ListsHold(DropFrom(lists, b.order, b.head), s - {b})
  {
    var o, x := b.order, b.head;
    WithoutElements(lists[o], IndexOf(lists[o], x));
    var d := DropFrom(lists, o, x);
    forall e | e in s - {b} && e.free ensures e.order <= MAX_ORDER && e.head in d[e.order] {
      if e.head == b.head {
        SameHead(z, s, e, b);
      }
    }
  }

  lemma PushHold(lists: seq<seq<nat>>, s: set<Block>, b: Block)
    requires ListsHold(lists, s) && b.free && b.order <= MAX_ORDER
    ensures ListsHold(lists[b.order := [b.head] + lists[b.order]], s + {b})
  {
    var d := lists[b.order := [b.head] + lists[b.order]];
    forall o, h: nat | 0 <= o < |d| && h in d[o] ensures Block(h, o, true) in s + {b} {
    }
  }

  lemma LinkedElsewhere(next: map<nat, nat>, prev: map<nat, nat>, next': map<nat, nat>, prev': map<nat, nat>,
                        free: seq<nat>, lists: seq<seq<nat>>)
    requires AllLinked(next, prev, free, lists)
    requires forall x :: Listed(lists, x) ==> x in next' && x in prev' && next'[x] == next[x] && prev'[x] == prev[x]
    ensures AllLinked(next', prev', free, lists)
  {
    forall o | 0 <= o < |lists| ensures Linked(next', prev', INVALID_PFN, free[o], lists[o]) {
      assert forall x :: x in lists[o] ==> Listed(lists, x);
      assert Linked(next, prev, INVALID_PFN, free[o], lists[o]);
      LinkedFrame(next, prev, next', prev', INVALID_PFN, free[o], lists[o]);
    }
  }

  ghost predicate FreeHead(s: set<Block>, p: nat) {
    exists b :: b in s && b.free && b.head == p
  }

  /** Only links of free heads change. */
  ghost predicate Relinked(r: Records, r': Records, s: set<Block>) {
    && r' == r.(next := r'.next, prev := r'.prev)
    && r'.next.Keys == r.next.Keys && r'.prev.Keys == r.prev.Keys
    && (forall p {:trigger r'.next[p]} :: p in r.next && !FreeHead(s, p) ==> r'.next[p] == r.next[p])
    && (forall p {:trigger r'.prev[p]} :: p in r.prev && !FreeHead(s, p) ==> r'.prev[p] == r.prev[p])
  }

  /** Only x is stamped, and only links of x and of free heads change. */
  ghost predicate Pushed(r: Records, r': Records, x: nat, order: nat, s: set<Block>) {
    && r'.state == r.state && r'.zone == r.zone
    && r'.tag == r.tag[x := Free] && r'.order == r.order[x := order]
    && r'.next.Keys == r.next.Keys && r'.prev.Keys == r.prev.Keys
    && (forall p {:trigger r'.next[p]} :: p in r.next && p != x ==> r'.next[p] == r.next[p])
    && (forall p {:trigger r'.prev[p]} :: p in r.prev && p != x && !FreeHead(s, p) ==> r'.prev[p] == r.prev[p])
  }

  lemma PushLinksOk(z: Bounds, r: Records, free: seq<nat>, lists: seq<seq<nat>>, s: set<Block>, b: Block)
    requires LinksOk(z, r, free, lists, s) && b.free && b.order <= MAX_ORDER && b !in s && Tiled(z, s + {b}) &&
             b.head in r.tag
    ensures free[b.order] != INVALID_PFN ==> FreeHead(s, free[b.order]) && free[b.order] in r.prev
    ensures AllLinked(PushNext(r.next, b.head, free[b.order]), PushPrev(r.prev, b.head, free[b.order], INVALID_PFN),
                      free[b.order := b.head], lists[b.order := [b.head] + lists[b.order]])
    ensures ListsHold(lists[b.order := [b.head] + lists[b.order]], s + {b})
  {
    ListsSeparate(z, lists, s);
    forall o | 0 <= o < |lists| && b.head in lists[o] ensures false {
      SameHead(z, s + {b}, Block(b.head, o, true), b);
    }
    assert Linked(r.next, r.prev, INVALID_PFN, free[b.order], lists[b.order]);
    PushAll(r.next, r.prev, free, lists, b.order, b.head);
    PushHold(lists, s, b);
    if free[b.order] != INVALID_PFN {
      assert Block(free[b.order], b.order, true) in s;
    }
  }

  lemma RemoveLinksOk(z: Bounds, r: Records, free: seq<nat>, lists: seq<seq<nat>>, s: set<Block>, b: Block)
    requires LinksOk(z, r, free, lists, s) && b in s && b.free
    ensures b.head in r.next && b.head in r.prev && b.order < |free| == |lists| && b.head in lists[b.order]
    ensures AllLinked(RemoveNext(r.next, r.prev, b.head, INVALID_PFN), RemovePrev(r.next, r.prev, b.head, INVALID_PFN),
                      RemoveHead(r.next, r.prev, free, b.order, b.head), DropFrom(lists, b.order, b.head))
    ensures ListsHold(DropFrom(lists, b.order, b.head), s - {b})
  {
    ListsSeparate(z, lists, s);
    assert Linked(r.next, r.prev, INVALID_PFN, free[b.order], lists[b.order]);
    RemoveAll(r.next, r.prev, free, lists, b.order, b.head);
    DropHold(z, lists, s, b);
  }

  lemma RemoveRelinks(z: Bounds, r: Records, free: seq<nat>, lists: seq<seq<nat>>, s: set<Block>, b: Block)
    requires LinksOk(z, r, free, lists, s) && b in s && b.free
    requires b.head in r.next && b.head in r.prev
    ensures Relinked(r, r.(next := RemoveNext(r.next, r.prev, b.head, INVALID_PFN),
                           prev := RemovePrev(r.next, r.prev, b.head, INVALID_PFN)), s)
  {
    assert Linked(r.next, r.prev, INVALID_PFN, free[b.order], lists[b.order]);
    RemoveTouches(r.next, r.prev, free[b.order], lists[b.order], b.head);
    assert forall p :: p in lists[b.order] ==> Block(p, b.order, true) in s && FreeHead(s, p);
  }

  // One new free block m, replacing whatever blocks of s it overlaps.

  ghost predicate Replaces(z: Bounds, s: set<Block>, t: set<Block>, m: Block) {
    && m.free && m in t && Tiled(z, s) && Tiled(z, t)
    && (forall e :: e in t && e != m ==> e in s)
    && (forall e :: e in s && !InBlock(m, e.head) ==> e in t)
  }

  lemma MarkTags(z: Bounds, r: Records, r': Records, s: set<Block>, t: set<Block>, m: Block, except: nat)
    requires Replaces(z, s, t, m) && m.head in r.tag && m.head in r.order && !InBlock(m, except)
    requires TagsAgree(z, r.tag, r.order, s, except) && MarkedFree(r, r', m.head, Pow2(m.order), m.order)
    ensures TagsAgree(z, r'.tag, r'.order, t, except)
  {
    forall e | e in t && e != m ensures !InBlock(m, e.head) {
      assert Apart(e, m);
    }
    forall p | p in r'.tag && z.lo <= p < z.hi && p != except && r'.tag[p] != Unused
      ensures p in r'.order && Block(p, r'.order[p], r'.tag[p] == Free) in t
    {
      if p != m.head {
        assert !InBlock(m, p);
        assert Block(p, r.order[p], r.tag[p] == Free) in s;
      }
    }
  }

  lemma MarkLinks(z: Bounds, r: Records, r': Records, free: seq<nat>, lists: seq<seq<nat>>, u: set<Block>, m: Block)
    requires LinksOk(z, r, free, lists, u) && Tiled(z, u + {m}) && m !in u
    requires MarkedFree(r, r', m.head, Pow2(m.order), m.order)
    ensures LinksOk(z, r', free, lists, u)
  {
    forall x | Listed(lists, x) ensures x in r.next && x in r.prev && !InBlock(m, x) {
      var o :| 0 <= o < |lists| && x in lists[o];
      assert Linked(r.next, r.prev, INVALID_PFN, free[o], lists[o]);
      var e := Block(x, o, true);
      assert e in u + {m} && Apart(e, m);
    }
    LinkedElsewhere(r.next, r.prev, r'.next, r'.prev, free, lists);
  }

  /** An inner page is no head. */
  lemma InnerNoHead(z: Bounds, s: set<Block>, e: Block, p: nat)
    requires Tiled(z, s) && e in s && InBlock(e, p) && p != e.head
    ensures !FreeHead(s, p)
  {
  }

  /** Inner pages of the untouched blocks keep their cleared link. */
  lemma MarkClear(z: Bounds, r: Records, r2: Records, r3: Records, r4: Records, s: set<Block>, t: set<Block>, m: Block)
    requires Replaces(z, s, t, m) && InnerClear(r.next, s)
    requires r2.next.Keys == r.next.Keys && forall p :: p in r.next && !FreeHead(s, p) ==> r2.next[p] == r.next[p]
    requires MarkedFree(r2, r3, m.head, Pow2(m.order), m.order)
    requires r4.next.Keys == r.next.Keys && forall p :: p in r.next && p != m.head ==> r4.next[p] == r3.next[p]
    ensures InnerClear(r4.next, t)
  {
    forall e, p: nat | e in t && e.free && InBlock(e, p) && p != e.head && p in r4.next
      ensures r4.next[p] == INVALID_PFN
    {
      if e != m {
        assert Apart(e, m);
        InnerNoHead(z, s, e, p);
      }
    }
  }

  // Merging.

  /** The block set while both buddies are off their lists. */
  ghost function Unmerged(s: set<Block>, b: Block): set<Block> {
    s - {b} - {BuddyBlock(b)}
  }

  ghost predicate Mergeable(z: Bounds, s: set<Block>, b: Block) {
    Tiled(z, s) && b in s && b.free && BuddyBlock(b) in s && b.order < z.maxOrder
  }

  lemma MergeSets(z: Bounds, s: set<Block>, b: Block)
    requires Mergeable(z, s, b)
    ensures BuddyBlock(b) in s - {b}
    ensures Merged(b) !in Unmerged(s, b)
    ensures Unmerged(s, b) + {Merged(b)} == Merge(s, b)
    ensures Tiled(z, Unmerged(s, b) + {Merged(b)}) && Tiled(z, Merge(s, b))
    ensures Replaces(z, s, Merge(s, b), Merged(b))
  {
    MergeTiled(z, s, b);
    MergedShape(z, s, b);
    BuddyShape(b.head, b.order);
    assert InBlock(Merged(b), b.head) && InBlock(b, b.head);
    forall e | e in s && e != b && e != BuddyBlock(b) ensures !InBlock(Merged(b), e.head) {
      assert Apart(e, b) && Apart(e, BuddyBlock(b));
      assert InBlock(e, e.head);
    }
    assert Unmerged(s, b) + {Merged(b)} == Merge(s, b);
    forall e | e in s && !InBlock(Merged(b), e.head) ensures e in Merge(s, b) {
      assert InBlock(b, b.head) && InBlock(BuddyBlock(b), BuddyBlock(b).head);
    }
  }

  ghost predicate Present(r: Records, head: nat, n: nat) {
    forall p :: head <= p < head + n ==> p in r.tag
  }

  lemma MergedPresent(z: Bounds, r: Records, s: set<Block>, b: Block)
    requires Mergeable(z, s, b) && Backed(r.tag.Keys, s)
    ensures Present(r, Merged(b).head, Pow2(Merged(b).order))
    ensures Backed(r.tag.Keys, Merge(s, b))
  {
    MergedShape(z, s, b);
    forall p: nat | InBlock(Merged(b), p) ensures p in r.tag {
      assert InBlock(b, p) || InBlock(BuddyBlock(b), p);
    }
  }

  lemma RelinkTwice(r0: Records, r1: Records, r2: Records, s: set<Block>, b: Block)
    requires Relinked(r0, r1, s) && Relinked(r1, r2, s - {b})
    ensures Relinked(r0, r2, s)
  {
    assert forall p :: FreeHead(s - {b}, p) ==> FreeHead(s, p);
  }

  lemma RelinkedRecords(r: Records, r': Records, s: set<Block>)
    requires Complete(r) && Relinked(r, r', s)
    ensures Complete(r') && r'.tag == r.tag && r'.order == r.order && r'.state == r.state && r'.zone == r.zone
  {
  }

  lemma MarkedComplete(r: Records, r': Records, head: nat, n: nat, order: nat)
    requires Complete(r) && MarkedFree(r, r', head, n, order)
    ensures Complete(r') && r'.tag.Keys == r.tag.Keys
  {
  }

  /** Records after one new free block was marked and pushed. */
  lemma NewBlockTags(z: Bounds, r2: Records, r3: Records, r4: Records, s: set<Block>, t: set<Block>, m: Block,
                     except: nat, u: set<Block>)
    requires Complete(r2) && Replaces(z, s, t, m) && m.head in r2.tag && !InBlock(m, except)
    requires TagsAgree(z, r2.tag, r2.order, s, except)
    requires MarkedFree(r2, r3, m.head, Pow2(m.order), m.order) && Pushed(r3, r4, m.head, m.order, u)
    ensures TagsAgree(z, r4.tag, r4.order, t, except)
  {
    MarkTags(z, r2, r3, s, t, m, except);
    assert r3.tag[m.head] == Free && r3.order[m.head] == m.order;
    assert r4.tag == r3.tag && r4.order == r3.order;
  }

  lemma NewBlockRecords(z: Bounds, r0: Records, r2: Records, r3: Records, r4: Records, s: set<Block>, t: set<Block>,
                        m: Block, except: nat, u: set<Block>)
    requires RecordsOk(z, r0, s, except) && Relinked(r0, r2, s) && Replaces(z, s, t, m)
    requires Present(r0, m.head, Pow2(m.order)) && Backed(r0.tag.Keys, t) && !InBlock(m, except)
    requires MarkedFree(r2, r3, m.head, Pow2(m.order), m.order) && Pushed(r3, r4, m.head, m.order, u) && Complete(r4)
    ensures RecordsOk(z, r4, t, except)
  {
    RelinkedRecords(r0, r2, s);
    assert InBlock(m, m.head);
    NewBlockTags(z, r2, r3, r4, s, t, m, except, u);
    MarkClear(z, r0, r2, r3, r4, s, t, m);
    MarkedComplete(r2, r3, m.head, Pow2(m.order), m.order);
    assert r4.tag.Keys == r0.tag.Keys;
  }

  lemma FreeHeadIsFree(s: set<Block>, p: nat)
    requires FreeHead(s, p)
    ensures PageFree(s, p)
  {
    var b :| b in s && b.free && b.head == p;
    assert InBlock(b, p);
  }

  lemma RelinkedTouched(r: Records, r': Records, s: set<Block>, p: nat)
    requires Complete(r) && Complete(r') && Relinked(r, r', s) && p in r.tag && !PageFree(s, p)
    ensures p in r'.tag && SameAt(r, r', p)
  {
    if FreeHead(s, p) {
      FreeHeadIsFree(s, p);
    }
  }

  lemma NewBlockTouched(z: Bounds, r0: Records, r2: Records, r3: Records, r4: Records, s: set<Block>, t: set<Block>,
                        m: Block, u: set<Block>)
    requires Complete(r0) && Relinked(r0, r2, s) && Replaces(z, s, t, m) && u <= s
    requires MarkedFree(r2, r3, m.head, Pow2(m.order), m.order) && Pushed(r3, r4, m.head, m.order, u) && Complete(r4)
    requires m.head in r0.tag
    ensures OnlyFreeTouched(r0, r4, s, t)
  {
    RelinkedRecords(r0, r2, s);
    MarkedComplete(r2, r3, m.head, Pow2(m.order), m.order);
    assert r4.tag.Keys == r0.tag.Keys;
    forall p | p in r0.tag && !PageFree(s, p) && !PageFree(t, p) ensures SameAt(r0, r4, p) {
      RelinkedTouched(r0, r2, s, p);
      assert InBlock(m, m.head);
      assert !InBlock(m, p);
      assert FreeHead(u, p) ==> FreeHead(s, p);
      if FreeHead(s, p) {
        FreeHeadIsFree(s, p);
      }
    }
  }

  lemma TouchedTwice(r0: Records, r1: Records, r2: Records, s: set<Block>, t: set<Block>, u: set<Block>)
    requires OnlyFreeTouched(r0, r1, s, t) && OnlyFreeTouched(r1, r2, t, u)
    requires forall p: nat :: PageFree(t, p) ==> PageFree(s, p) || PageFree(u, p)
    ensures OnlyFreeTouched(r0, r2, s, u)
  {
    forall p | p in r0.tag && !PageFree(s, p) && !PageFree(u, p) ensures SameAt(r0, r2, p) {
      assert SameAt(r0, r1, p) && SameAt(r1, r2, p);
    }
  }

  // Popping the first block of a list.

  lemma PopFacts(z: Bounds, r: Records, free: seq<nat>, lists: seq<seq<nat>>, s: set<Block>, order: nat)
    requires LinksOk(z, r, free, lists, s) && order <= MAX_ORDER
    ensures order < |free|
    ensures free[order] == INVALID_PFN <==> forall b :: b in s && b.free ==> b.order != order
    ensures free[order] != INVALID_PFN ==>
              && Block(free[order], order, true) in s
              && free[order] in r.next && free[order] in r.prev && r.prev[free[order]] == INVALID_PFN
  {
    var list := lists[order];
    assert Linked(r.next, r.prev, INVALID_PFN, free[order], list);
    if list != [] {
      assert r.prev[list[0]] == INVALID_PFN;
      assert Block(list[0], order, true) in s;
    }
  }

  lemma PopIsRemove(r: Records, free: seq<nat>, order: nat, first: nat)
    requires first in r.next && first in r.prev && r.prev[first] == INVALID_PFN && order < |free|
    ensures RemoveNext(r.next, r.prev, first, INVALID_PFN) == r.next[first := INVALID_PFN]
    ensures RemovePrev(r.next, r.prev, first, INVALID_PFN) ==
            if r.next[first] != INVALID_PFN then r.prev[first := INVALID_PFN][r.next[first] := INVALID_PFN]
            else r.prev[first := INVALID_PFN]
    ensures RemoveHead(r.next, r.prev, free, order, first) == free[order := r.next[first]]
  {
  }

  lemma RemoveIsOk(z: Bounds, r: Records, r': Records, free: seq<nat>, lists: seq<seq<nat>>, s: set<Block>, b: Block)
    requires LinksOk(z, r, free, lists, s) && b in s && b.free
    requires b.head in r.next && b.head in r.prev && b.order < |free|
    requires r' == r.(next := RemoveNext(r.next, r.prev, b.head, INVALID_PFN),
                      prev := RemovePrev(r.next, r.prev, b.head, INVALID_PFN))
    ensures b.order < |lists| && b.head in lists[b.order]
    ensures LinksOk(z, r', RemoveHead(r.next, r.prev, free, b.order, b.head), DropFrom(lists, b.order, b.head), s - {b})
    ensures Relinked(r, r', s)
  {
    RemoveLinksOk(z, r, free, lists, s, b);
    RemoveRelinks(z, r, free, lists, s, b);
  }

  /** What merging b needs once both buddies are off their lists. */
  lemma MergeReady(z: Bounds, r0: Records, r1: Records, r2: Records, s: set<Block>, b: Block)
    requires RecordsOk(z, r0, s, INVALID_PFN) && Mergeable(z, s, b)
    requires Relinked(r0, r1, s) && Relinked(r1, r2, s - {b})
    ensures Relinked(r0, r2, s) && Complete(r2)
    ensures Present(r2, Merged(b).head, Pow2(Merged(b).order))
  {
    RelinkTwice(r0, r1, r2, s, b);
    RelinkedRecords(r0, r2, s);
    MergedPresent(z, r0, s, b);
  }

  lemma MergeMarked(z: Bounds, r2: Records, r3: Records, free: seq<nat>, lists: seq<seq<nat>>, s: set<Block>, b: Block)
    requires Mergeable(z, s, b) && LinksOk(z, r2, free, lists, Unmerged(s, b))
    requires Present(r2, Merged(b).head, Pow2(Merged(b).order))
    requires MarkedFree(r2, r3, Merged(b).head, Pow2(Merged(b).order), Merged(b).order)
    ensures LinksOk(z, r3, free, lists, Unmerged(s, b)) && Merged(b).head in r3.tag
    ensures Merged(b) !in Unmerged(s, b) && Tiled(z, Unmerged(s, b) + {Merged(b)})
  {
    MergeSets(z, s, b);
    MarkedComplete(r2, r3, Merged(b).head, Pow2(Merged(b).order), Merged(b).order);
    MarkLinks(z, r2, r3, free, lists, Unmerged(s, b), Merged(b));
    assert InBlock(Merged(b), Merged(b).head);
  }

  lemma MergeDone(z: Bounds, r0: Records, r2: Records, r3: Records, r4: Records, s: set<Block>, b: Block)
    requires RecordsOk(z, r0, s, INVALID_PFN) && Mergeable(z, s, b) && z.hi <= INVALID_PFN
    requires Relinked(r0, r2, s) && MarkedFree(r2, r3, Merged(b).head, Pow2(Merged(b).order), Merged(b).order)
    requires Pushed(r3, r4, Merged(b).head, Merged(b).order, Unmerged(s, b)) && Complete(r4)
    ensures RecordsOk(z, r4, Merge(s, b), INVALID_PFN)
    ensures OnlyFreeTouched(r0, r4, s, Merge(s, b))
    ensures Unmerged(s, b) + {Merged(b)} == Merge(s, b)
  {
    MergeSets(z, s, b);
    MergedShape(z, s, b);
    MergedPresent(z, r0, s, b);
    assert InBlock(Merged(b), Merged(b).head);
    NewBlockRecords(z, r0, r2, r3, r4, s, Merge(s, b), Merged(b), INVALID_PFN, Unmerged(s, b));
    NewBlockTouched(z, r0, r2, r3, r4, s, Merge(s, b), Merged(b), Unmerged(s, b));
  }

  /** The same free pages, the same managed pages and the same allocated blocks. */
  ghost predicate SameExtent(s: set<Block>, t: set<Block>) {
    && (forall p: nat :: PageFree(t, p) <==> PageFree(s, p))
    && (forall p: nat :: Managed(t, p) <==> Managed(s, p))
    && (forall b: Block :: !b.free ==> (b in t <==> b in s))
  }

  lemma MergeExtent(z: Bounds, s: set<Block>, b: Block)
    requires Mergeable(z, s, b)
    ensures SameExtent(s, Merge(s, b))
  {
    forall p: nat ensures PageFree(Merge(s, b), p) <==> PageFree(s, p)
                  ensures Managed(Merge(s, b), p) <==> Managed(s, p) {
      MergePages(z, s, b, p);
    }
  }

  lemma ExtentTwice(s: set<Block>, t: set<Block>, u: set<Block>)
    requires SameExtent(s, t) && SameExtent(t, u)
    ensures SameExtent(s, u)
  {
  }

  /** A round of coalescing, added to what happened so far. */
  lemma CoalesceRound(z: Bounds, r0: Records, r1: Records, r2: Records, s0: set<Block>, s1: set<Block>, b: Block)
    requires SameExtent(s0, s1) && Mergeable(z, s1, b) && CoalescedBut(z, s1, b.head)
    requires OnlyFreeTouched(r0, r1, s0, s1) && OnlyFreeTouched(r1, r2, s1, Merge(s1, b))
    ensures SameExtent(s0, Merge(s1, b)) && OnlyFreeTouched(r0, r2, s0, Merge(s1, b))
    ensures CoalescedBut(z, Merge(s1, b), Merged(b).head) && Merged(b) in Merge(s1, b)
  {
    MergeExtent(z, s1, b);
    ExtentTwice(s0, s1, Merge(s1, b));
    TouchedTwice(r0, r1, r2, s0, s1, Merge(s1, b));
    MergeCoalesced(z, s1, b);
  }

  /** A tag of Free with order o marks exactly the head of a free block of order o. */
  lemma FreeTagIsBlock(z: Bounds, r: Records, s: set<Block>, p: nat, o: nat)
    requires RecordsOk(z, r, s, INVALID_PFN) && z.lo <= p < z.hi <= INVALID_PFN
    ensures (p in r.tag && r.tag[p] == Free && r.order[p] == o) <==> Block(p, o, true) in s
  {
  }

  // Adding a block no other block overlaps.

  ghost predicate Addable(z: Bounds, r: Records, s: set<Block>, m: Block) {
    m.free && m.order <= MAX_ORDER && m !in s && Tiled(z, s + {m}) && Present(r, m.head, Pow2(m.order))
  }

  lemma AddMarked(z: Bounds, r0: Records, r1: Records, free: seq<nat>, lists: seq<seq<nat>>, s: set<Block>, m: Block)
    requires LinksOk(z, r0, free, lists, s) && Addable(z, r0, s, m)
    requires MarkedFree(r0, r1, m.head, Pow2(m.order), m.order)
    ensures LinksOk(z, r1, free, lists, s) && m.head in r1.tag
  {
    MarkedComplete(r0, r1, m.head, Pow2(m.order), m.order);
    MarkLinks(z, r0, r1, free, lists, s, m);
    assert InBlock(m, m.head);
  }

  lemma AddDone(z: Bounds, r0: Records, r1: Records, r2: Records, s: set<Block>, m: Block, except: nat)
    requires RecordsOk(z, r0, s, except) && Addable(z, r0, s, m) && !InBlock(m, except)
    requires MarkedFree(r0, r1, m.head, Pow2(m.order), m.order) && Pushed(r1, r2, m.head, m.order, s) && Complete(r2)
    ensures RecordsOk(z, r2, s + {m}, except)
    ensures OnlyFreeTouched(r0, r2, s, s + {m})
  {
    var t := s + {m};
    assert Relinked(r0, r0, s);
    assert Replaces(z, s, t, m);
    assert Backed(r0.tag.Keys, t);
    assert InBlock(m, m.head);
    NewBlockRecords(z, r0, r0, r1, r2, s, t, m, except, s);
    NewBlockTouched(z, r0, r0, r1, r2, s, t, m, s);
  }

  /** t is s with the n pages from lo on as further free pages. */
  ghost predicate Grew(s: set<Block>, t: set<Block>, lo: nat, n: nat) {
    && (forall p: nat :: PageFree(t, p) <==> PageFree(s, p) || lo <= p < lo + n)
    && (forall p: nat :: Managed(t, p) <==> Managed(s, p) || lo <= p < lo + n)
    && (forall b: Block :: !b.free ==> (b in t <==> b in s))
  }

  lemma AddGrows(s: set<Block>, m: Block)
    requires m.free
    ensures Grew(s, s + {m}, m.head, Pow2(m.order))
  {
    var t := s + {m};
    assert m in t;
    forall p: nat ensures PageFree(t, p) <==> PageFree(s, p) || InBlock(m, p)
                  ensures Managed(t, p) <==> Managed(s, p) || InBlock(m, p) {
      assert forall b :: b in s ==> b in t;
    }
  }

  lemma GrewThenSame(s: set<Block>, t: set<Block>, u: set<Block>, lo: nat, n: nat)
    requires Grew(s, t, lo, n) && SameExtent(t, u)
    ensures Grew(s, u, lo, n)
  {
  }

  lemma GrewTwice(s: set<Block>, t: set<Block>, u: set<Block>, lo: nat, n: nat, k: nat)
    requires Grew(s, t, lo, n) && Grew(t, u, lo + n, k)
    ensures Grew(s, u, lo, n + k)
  {
  }

  lemma GrewFree(s: set<Block>, t: set<Block>, lo: nat, n: nat)
    requires Grew(s, t, lo, n)
    ensures forall p: nat :: PageFree(t, p) <==> PageFree(s, p) || lo <= p < lo + n
  {
  }

  lemma GrewCount(s: set<Block>, t: set<Block>, lo: nat, n: nat)
    requires Grew(s, t, lo, n) && forall p: nat :: lo <= p < lo + n ==> !Managed(s, p)
    ensures |FreePages(t)| == |FreePages(s)| + n
  {
    hide *;
    forall p: nat | lo <= p < lo + n ensures p !in FreePages(s) {
      if PageFree(s, p) {
        FreeIsManaged(s, p);
      }
    }
    GrewFree(s, t, lo, n);
    assert FreePages(t) == FreePages(s) + Interval(lo, n);
    assert FreePages(s) !! Interval(lo, n);
  }

  lemma FreeIsManaged(s: set<Block>, p: nat)
    requires PageFree(s, p)
    ensures Managed(s, p)
  {
  }

  /** Unmanaged pages of the zone can take an aligned block. */
  lemma UnmanagedAddable(z: Bounds, r: Records, s: set<Block>, m: Block)
    requires Tiled(z, s) && BlockOk(z, m) && m.free && z.maxOrder <= MAX_ORDER
    requires forall p: nat :: InBlock(m, p) ==> p in r.tag && !Managed(s, p)
    ensures Addable(z, r, s, m)
  {
    forall e | e in s ensures Apart(e, m) {
      assert InBlock(m, m.head) && InBlock(e, e.head);
      assert !InBlock(e, m.head);
      if InBlock(m, e.head) {
        assert Managed(s, e.head);
      }
    }
    assert InBlock(m, m.head);
  }

  /** The pages [lo, lo + n) lie in the zone, have frames and belong to no block. */
  ghost predicate FreshPages(z: Bounds, r: Records, s: set<Block>, lo: nat, n: nat) {
    && z.lo <= lo && lo + n <= z.hi
    && forall p: nat :: lo <= p < lo + n ==> p in r.tag && !Managed(s, p)
  }

  // Freeing an allocated block.

  /** Behind its head, no page of the block carries a link. */
  ghost predicate InnerCleared(r: Records, a: Block) {
    forall p: nat :: InBlock(a, p) && p != a.head && p in r.next ==> r.next[p] == INVALID_PFN
  }

  function Release(r: Records, head: nat): Records {
    r.(tag := r.tag[head := Free], prev := r.prev[head := INVALID_PFN], next := r.next[head := INVALID_PFN])
  }

  ghost function Freed(s: set<Block>, a: Block): set<Block> {
    s - {a} + {Toggle(a)}
  }

  lemma ListedHasLinks(r: Records, free: seq<nat>, lists: seq<seq<nat>>, x: nat)
    requires AllLinked(r.next, r.prev, free, lists) && Listed(lists, x)
    ensures x in r.next && x in r.prev
  {
    var o :| 0 <= o < |lists| && x in lists[o];
    assert Linked(r.next, r.prev, INVALID_PFN, free[o], lists[o]);
  }

  lemma ListedIsFreeHead(lists: seq<seq<nat>>, s: set<Block>, x: nat)
    requires ListsHold(lists, s) && Listed(lists, x)
    ensures FreeHead(s, x)
  {
    var o :| 0 <= o < |lists| && x in lists[o];
    assert Block(x, o, true) in s;
  }

  /** The head of an allocated block is on no list, and listed frames have links. */
  lemma AllocatedNotListed(z: Bounds, r: Records, free: seq<nat>, lists: seq<seq<nat>>, s: set<Block>, a: Block, x: nat)
    requires LinksOk(z, r, free, lists, s) && a in s && !a.free && Listed(lists, x)
    ensures x in r.next && x in r.prev && x != a.head
  {
    hide AllLinked, ListsHold, Listed, Tiled;
    ListedHasLinks(r, free, lists, x);
    ListedIsFreeHead(lists, s, x);
    var b :| b in s && b.free && b.head == x;
    if x == a.head {
      SameHead(z, s, a, b);
    }
  }

  lemma HoldWithout(lists: seq<seq<nat>>, s: set<Block>, a: Block)
    requires ListsHold(lists, s) && !a.free
    ensures ListsHold(lists, s - {a})
  {
  }

  lemma ReleaseLinks(z: Bounds, r0: Records, free: seq<nat>, lists: seq<seq<nat>>, s: set<Block>, a: Block)
    requires LinksOk(z, r0, free, lists, s) && a in s && !a.free && a.head in r0.tag
    ensures LinksOk(z, Release(r0, a.head), free, lists, s - {a})
  {
    hide Linked, ListsHold, AllLinked, Listed, Tiled, Complete, Release;
    var r1 := Release(r0, a.head);
    ReleaseSame(r0, a.head);
    forall x | Listed(lists, x) ensures x in r0.next && x in r0.prev && x != a.head {
      AllocatedNotListed(z, r0, free, lists, s, a, x);
    }
    LinkedElsewhere(r0.next, r0.prev, r1.next, r1.prev, free, lists);
    HoldWithout(lists, s, a);
    TiledWithout(z, s, a);
  }

  lemma ReleaseSame(r: Records, x: nat)
    requires Complete(r) && x in r.tag
    ensures Complete(Release(r, x))
    ensures forall p :: p in r.next && p != x ==> p in Release(r, x).next && Release(r, x).next[p] == r.next[p]
    ensures forall p :: p in r.prev && p != x ==> p in Release(r, x).prev && Release(r, x).prev[p] == r.prev[p]
  {
  }

  lemma TiledWithout(z: Bounds, s: set<Block>, a: Block)
    requires Tiled(z, s)
    ensures Tiled(z, s - {a})
  {
  }

  lemma ReleaseTiled(z: Bounds, s: set<Block>, a: Block)
    requires Tiled(z, s) && a in s && !a.free
    ensures Toggle(a) !in s - {a} && Tiled(z, s - {a} + {Toggle(a)})
  {
    ToggleTiled(z, s, a);
    if Toggle(a) in s - {a} {
      SameHead(z, s, a, Toggle(a));
    }
  }

  lemma ReleaseTags(z: Bounds, r0: Records, r2: Records, s: set<Block>, a: Block)
    requires RecordsOk(z, r0, s, INVALID_PFN) && a in s && !a.free && z.hi <= INVALID_PFN
    requires Pushed(Release(r0, a.head), r2, a.head, a.order, s - {a})
    ensures TagsAgree(z, r2.tag, r2.order, Freed(s, a), INVALID_PFN)
  {
    var t := Freed(s, a);
    assert forall e :: e in t && e != Toggle(a) ==> e in s && Apart(e, a);
    assert r2.tag == r0.tag[a.head := Free];
    forall p | p in r2.tag && z.lo <= p < z.hi && p != INVALID_PFN && r2.tag[p] != Unused
      ensures p in r2.order && Block(p, r2.order[p], r2.tag[p] == Free) in t
    {
      if p != a.head {
        assert Block(p, r0.order[p], r0.tag[p] == Free) in s;
      }
    }
  }

  lemma ReleaseClear(z: Bounds, r0: Records, r2: Records, s: set<Block>, a: Block)
    requires RecordsOk(z, r0, s, INVALID_PFN) && a in s && !a.free && InnerCleared(r0, a)
    requires Pushed(Release(r0, a.head), r2, a.head, a.order, s - {a})
    ensures InnerClear(r2.next, Freed(s, a))
  {
    forall e, p: nat | e in Freed(s, a) && e.free && InBlock(e, p) && p != e.head && p in r2.next
      ensures r2.next[p] == INVALID_PFN
    {
      if e == Toggle(a) {
        assert InBlock(a, p);
      } else {
        assert Apart(e, a);
      }
    }
  }

  lemma ReleaseDone(z: Bounds, r0: Records, r2: Records, s: set<Block>, a: Block)
    requires RecordsOk(z, r0, s, INVALID_PFN) && a in s && !a.free && InnerCleared(r0, a) && z.hi <= INVALID_PFN
    requires Pushed(Release(r0, a.head), r2, a.head, a.order, s - {a}) && Complete(r2)
    ensures RecordsOk(z, r2, Freed(s, a), INVALID_PFN)
    ensures OnlyFreeTouched(r0, r2, s, Freed(s, a))
  {
    ReleaseTags(z, r0, r2, s, a);
    ReleaseClear(z, r0, r2, s, a);
    ToggleTiled(z, s, a);
    ReleaseTouched(r0, r2, s, a);
    ReleaseBacked(r0, r2, s, a);
    hide *;
    IntroRecords(z, r2, Freed(s, a), INVALID_PFN);
  }

  lemma ReleaseBacked(r0: Records, r2: Records, s: set<Block>, a: Block)
    requires Backed(r0.tag.Keys, s) && a in s && a.head in r0.tag
    requires Pushed(Release(r0, a.head), r2, a.head, a.order, s - {a})
    ensures Backed(r2.tag.Keys, Freed(s, a))
  {
    assert r2.tag.Keys == r0.tag.Keys;
    assert forall p: nat :: InBlock(Toggle(a), p) <==> InBlock(a, p);
  }

  lemma IntroRecords(z: Bounds, r: Records, s: set<Block>, except: nat)
    requires Complete(r) && Tiled(z, s) && Backed(r.tag.Keys, s) && TagsAgree(z, r.tag, r.order, s, except)
    requires InnerClear(r.next, s)
    ensures RecordsOk(z, r, s, except)
  {
  }

  lemma ReleaseTouched(r0: Records, r2: Records, s: set<Block>, a: Block)
    requires Complete(r0) && Complete(r2) && a in s && !a.free && a.head in r0.tag
    requires Pushed(Release(r0, a.head), r2, a.head, a.order, s - {a})
    ensures OnlyFreeTouched(r0, r2, s, Freed(s, a))
  {
    assert r2.tag.Keys == r0.tag.Keys;
    hide Pushed, Complete, Release;
    forall p | p in r0.tag && !PageFree(s, p) && !PageFree(Freed(s, a), p) ensures SameAt(r0, r2, p) {
      NotReleased(s, a, p);
      ReleasedSame(r0, r2, s - {a}, a, p);
    }
  }

  lemma NotReleased(s: set<Block>, a: Block, p: nat)
    requires !PageFree(s, p) && !PageFree(Freed(s, a), p) && !a.free
    ensures p != a.head && !FreeHead(s - {a}, p)
  {
    assert Toggle(a) in Freed(s, a) && InBlock(Toggle(a), a.head);
    assert FreeHead(s - {a}, p) ==> FreeHead(s, p);
    if FreeHead(s, p) {
      FreeHeadIsFree(s, p);
    }
  }

  lemma ReleasedSame(r0: Records, r2: Records, s: set<Block>, a: Block, p: nat)
    requires Complete(r0) && Complete(r2) && p in r0.tag && p != a.head && !FreeHead(s, p)
    requires Pushed(Release(r0, a.head), r2, a.head, a.order, s)
    ensures p in r2.tag && SameAt(r0, r2, p)
  {
    assert p in r0.next.Keys && p in r0.prev.Keys && p in r0.order.Keys;
  }

  /** t is s with the pages of a, all free before, now allocated as the block a. */
  ghost predicate Took(s: set<Block>, t: set<Block>, a: Block) {
    && !a.free && a in t && a !in s
    && (forall p: nat :: InBlock(a, p) ==> PageFree(s, p))
    && (forall p: nat :: PageFree(t, p) <==> PageFree(s, p) && !InBlock(a, p))
    && (forall p: nat :: Managed(t, p) <==> Managed(s, p))
    && (forall b: Block :: !b.free && b != a ==> (b in t <==> b in s))
  }

  lemma FreedTook(z: Bounds, s: set<Block>, a: Block)
    requires Tiled(z, s) && a in s && !a.free
    ensures Took(Freed(s, a), s, a)
  {
    forall p: nat
      ensures InBlock(a, p) ==> PageFree(Freed(s, a), p)
      ensures PageFree(s, p) <==> PageFree(Freed(s, a), p) && !InBlock(a, p)
      ensures Managed(s, p) <==> Managed(Freed(s, a), p)
    {
      TogglePages(z, s, a, p);
      if InBlock(a, p) && PageFree(s, p) {
        var e :| e in s && e.free && InBlock(e, p);
        assert false;
      }
    }
  }

  lemma TookThenSame(s: set<Block>, s': set<Block>, t: set<Block>, a: Block)
    requires Took(s, t, a) && SameExtent(s, s')
    ensures Took(s', t, a)
  {
  }

  lemma TookCount(s: set<Block>, t: set<Block>, a: Block)
    requires Took(s, t, a)
    ensures |FreePages(s)| == |FreePages(t)| + Pow2(a.order)
  {
    hide PageFree, Managed, FreePages, InBlock;
    FreeCountGrows(t, s, a);
  }

  lemma FreedCoalesced(z: Bounds, s: set<Block>, a: Block)
    requires Coalesced(z, s)
    ensures CoalescedBut(z, Freed(s, a), a.head) && Toggle(a) in Freed(s, a)
  {
    AddCoalesced(z, s - {a}, Toggle(a));
  }

  // Resetting a zone.

  ghost predicate BlankAt(r: Records, p: nat)
    requires Complete(r) && p in r.tag
  {
    r.tag[p] == Unused && r.order[p] == 0 && r.next[p] == INVALID_PFN && r.prev[p] == INVALID_PFN
  }

  /** r' is r with the present frames of [lo, hi) cleared. */
  ghost predicate ClearedTo(r: Records, r': Records, lo: nat, hi: nat) {
    && Complete(r) && Complete(r') && r'.state == r.state && r'.zone == r.zone
    && (forall p :: p in r.tag ==> if lo <= p < hi then BlankAt(r', p) else SameAt(r, r', p))
  }

  lemma StampBlank(r: Records, x: nat)
    requires Complete(r) && x in r.tag
    ensures var r' := Stamp(r, x, Unused, 0);
            && Complete(r') && r'.state == r.state && r'.zone == r.zone
            && forall p :: p in r.tag ==> if p == x then BlankAt(r', p) else SameAt(r, r', p)
  {
    var r' := Stamp(r, x, Unused, 0);
    assert r'.tag.Keys == r.tag.Keys && r'.next.Keys == r.next.Keys && r'.prev.Keys == r.prev.Keys &&
           r'.order.Keys == r.order.Keys;
  }

  lemma ClearOneMore(r: Records, r': Records, lo: nat, hi: nat)
    requires ClearedTo(r, r', lo, hi) && lo <= hi
    ensures ClearedTo(r, if hi in r'.tag then Stamp(r', hi, Unused, 0) else r', lo, hi + 1)
  {
    hide Stamp;
    if hi in r'.tag {
      StampBlank(r', hi);
    }
  }

  lemma ClearNothing(r: Records, lo: nat)
    requires Complete(r)
    ensures ClearedTo(r, r, lo, lo)
  {
  }

  lemma ClearedRecords(z: Bounds, r: Records, r': Records)
    requires ClearedTo(r, r', z.lo, z.hi)
    ensures RecordsOk(z, r', {}, INVALID_PFN)
    ensures LinksOk(z, r', seq(MAX_ORDER + 1, _ => INVALID_PFN), seq(MAX_ORDER + 1, _ => []), {})
  {
  }
}
