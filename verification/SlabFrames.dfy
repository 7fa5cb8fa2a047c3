/** How frame records tell slab pages from other allocated pages: the link field of
    every page of a slab names the slab, and that of every page of any other
    allocated block is empty. */
module SlabFrames {
  import opened Blocks
  import opened BuddyAllocator
  import opened Dyadic
  import opened Frames
  import opened SlabState
  import opened ZoneRecords
  import opened Zones

  /** Every page of the block links to v. */
  ghost predicate MarkedBy(r: Records, a: Block, v: nat) {
    forall p: nat :: InBlock(a, p) ==> p in r.next && r.next[p] == v
  }

  /** Every slab is an allocated block whose pages link to its head. */
  ghost predicate SlabPages(r: Records, high: set<Block>, s: Slabs) {
    forall v :: v in s.info ==> SlabBlock(s, v) in high && MarkedBy(r, SlabBlock(s, v), v)
  }

  /** Allocated blocks that are no slabs have no links. */
  ghost predicate OthersUnlinked(r: Records, blocks: set<Block>, s: Slabs) {
    forall a :: a in blocks && !a.free && a.head !in s.info ==> Unlinked(r, a)
  }

  /** The allocated blocks that are no slabs. */
  ghost function PageBlocks(high: set<Block>, info: map<nat, Info>): set<Block> {
    set b | b in high && !b.free && b.head !in info
  }

  // Moving blocks between free and allocated.

  /** The links of a block that stays allocated do not change. */
  lemma SameNext(z: Bounds, r: Records, r': Records, s: set<Block>, t: set<Block>, b: Block, p: nat)
    requires Tiled(z, s) && Tiled(z, t) && OnlyFreeTouched(r, r', s, t) && b in s && b in t && !b.free && InBlock(b, p)
    ensures r'.next.Keys == r.next.Keys && (p in r.next ==> r'.next[p] == r.next[p])
  {
    assert !PageFree(s, p) && !PageFree(t, p) by {
      assert forall e :: e in s && e.free ==> Apart(e, b);
      assert forall e :: e in t && e.free ==> Apart(e, b);
    }
  }

  /** Slabs survive when other blocks come and go. */
  lemma SlabPagesKept(z: Bounds, r: Records, r': Records, s: set<Block>, t: set<Block>, sl: Slabs)
    requires SlabPages(r, s, sl) && Tiled(z, s) && Tiled(z, t) && OnlyFreeTouched(r, r', s, t)
    requires forall v :: v in sl.info ==> SlabBlock(sl, v) in t
    ensures SlabPages(r', t, sl)
  {
    hide Tiled, OnlyFreeTouched;
    forall v | v in sl.info ensures MarkedBy(r', SlabBlock(sl, v), v) {
      forall p: nat | InBlock(SlabBlock(sl, v), p) ensures p in r'.next && r'.next[p] == v {
        SameNext(z, r, r', s, t, SlabBlock(sl, v), p);
        assert p in r'.next.Keys;
      }
    }
  }

  lemma UnlinkedKept(z: Bounds, r: Records, r': Records, s: set<Block>, t: set<Block>, b: Block)
    requires Tiled(z, s) && Tiled(z, t) && OnlyFreeTouched(r, r', s, t) && b in s && b in t && !b.free && Unlinked(r, b)
    ensures Unlinked(r', b)
  {
    hide Tiled, OnlyFreeTouched;
    forall p: nat | InBlock(b, p) && p in r'.next ensures r'.next[p] == INVALID_PFN {
      SameNext(z, r, r', s, t, b, p);
      assert p in r.next.Keys;
    }
  }

  /** Taking block a from the zone. */
  lemma TakenKeeps(z: Bounds, r: Records, r': Records, s: set<Block>, t: set<Block>, a: Block, sl: Slabs)
    requires Tiled(z, s) && Tiled(z, t) && OnlyFreeTouched(r, r', s, t) && Took(s, t, a) && Unlinked(r', a)
    requires SlabPages(r, s, sl) && OthersUnlinked(r, s, sl)
    ensures SlabPages(r', t, sl) && OthersUnlinked(r', t, sl)
    ensures a.head !in sl.info
    ensures forall v :: v in sl.info ==> Apart(SlabBlock(sl, v), a)
  {
    hide Tiled, OnlyFreeTouched, Unlinked, MarkedBy;
    TookOthers(s, t, a);
    forall v | v in sl.info ensures SlabBlock(sl, v) in t && v != a.head && Apart(SlabBlock(sl, v), a) {
      assert SlabBlock(sl, v) in s && SlabBlock(sl, v) in t;
      TiledApart(z, t, SlabBlock(sl, v), a);
    }
    SlabPagesKept(z, r, r', s, t, sl);
    forall b | b in t && !b.free && b.head !in sl.info ensures Unlinked(r', b) {
      if b != a {
        UnlinkedKept(z, r, r', s, t, b);
      }
    }
  }

  lemma TookOthers(s: set<Block>, t: set<Block>, a: Block)
    requires Took(s, t, a)
    ensures a in t && a !in s && !a.free
    ensures forall b: Block :: !b.free && b != a ==> (b in t <==> b in s)
  {
  }

  lemma TiledApart(z: Bounds, s: set<Block>, a: Block, b: Block)
    requires Tiled(z, s) && a in s && b in s && a != b
    ensures Apart(a, b) && a.head != b.head
  {
    assert InBlock(a, a.head) && InBlock(b, b.head);
  }

  /** Giving block a, no slab, back to the zone. */
  lemma ReturnedKeeps(z: Bounds, r: Records, r': Records, s: set<Block>, t: set<Block>, a: Block, sl: Slabs)
    requires Tiled(z, s) && Tiled(z, t) && OnlyFreeTouched(r, r', s, t) && Took(t, s, a)
    requires SlabPages(r, s, sl) && OthersUnlinked(r, s, sl) && a.head !in sl.info
    ensures SlabPages(r', t, sl) && OthersUnlinked(r', t, sl)
  {
    hide Tiled, OnlyFreeTouched, Unlinked, MarkedBy;
    TookOthers(t, s, a);
    forall v | v in sl.info ensures SlabBlock(sl, v) in t {
      assert SlabBlock(sl, v) in s && SlabBlock(sl, v) != a;
    }
    SlabPagesKept(z, r, r', s, t, sl);
    forall b | b in t && !b.free && b.head !in sl.info ensures Unlinked(r', b) {
      assert b != a;
      UnlinkedKept(z, r, r', s, t, b);
    }
  }

  // Writing link fields.

  /** Only the link fields of [lo, lo + n) change, to value. */
  ghost predicate NextSet(r: Records, r': Records, lo: nat, n: nat, value: nat) {
    && Complete(r) && r' == r.(next := r'.next) && r'.next.Keys == r.next.Keys
    && forall p: nat {:trigger r'.next[p]} :: p in r.next ==>
         r'.next[p] == if lo <= p < lo + n then value else r.next[p]
  }

  lemma NextSetNone(r: Records, lo: nat, value: nat)
    requires Complete(r)
    ensures NextSet(r, r, lo, 0, value)
  {
  }

  lemma NextSetOne(r: Records, r': Records, lo: nat, n: nat, value: nat)
    requires NextSet(r, r', lo, n, value)
    ensures NextSet(r, if lo + n in r'.next then r'.(next := r'.next[lo + n := value]) else r', lo, n + 1, value)
  {
    if lo + n in r'.next {
      assert r'.next[lo + n := value].Keys == r'.next.Keys;
    }
  }

  /** Zones do not depend on the links of pages that are not free. */
  lemma NextSetSame(z: Bounds, r: Records, r': Records, lo: nat, n: nat, value: nat, s: set<Block>)
    requires NextSet(r, r', lo, n, value) && forall p: nat :: lo <= p < lo + n ==> !PageFree(s, p)
    ensures ZoneSame(z, r, r', s)
  {
  }

  /** The frame loop of `register_slab_in_sparsemem` and of `release_slab`. */
  method SetLinks(frames: FrameTable, head: nat, pages: nat, value: nat)
    requires Complete(frames.r)
    modifies frames
    ensures NextSet(old(frames.r), frames.r, head, pages, value)
  {
    hide *;
    NextSetNone(frames.r, head, value);
    for i := 0 to pages
      invariant NextSet(old(frames.r), frames.r, head, i, value)
    {
      NextSetOne(old(frames.r), frames.r, head, i, value);
      if head + i in frames.r.next {
        frames.r := frames.r.(next := frames.r.next[head + i := value]);
      }
    }
  }

  /** An allocated block has no free page, here or in the zone beside. */
  lemma AllocatedNotFree(z: Bounds, s: set<Block>, other: Bounds, t: set<Block>, a: Block)
    requires Tiled(z, s) && a in s && !a.free && Tiled(other, t) && (other.hi <= z.lo || z.hi <= other.lo)
    ensures forall p: nat :: a.head <= p < a.head + Pow2(a.order) ==> !PageFree(s, p) && !PageFree(t, p)
  {
    forall p: nat | a.head <= p < a.head + Pow2(a.order) ensures !PageFree(s, p) && !PageFree(t, p) {
      assert InBlock(a, p);
      assert forall e :: e in s && e.free ==> Apart(e, a);
      assert BlockOk(z, a);
      assert forall e :: e in t ==> BlockOk(other, e);
    }
  }

  /** Both zones survive the new links. */
  lemma LinksKeepZones(a: Buddy, b: Buddy, r: Records, head: nat, n: nat, value: nat)
    requires a != b && a.mem == b.mem && ValidWith(a, r) && ValidWith(b, r) && NextSet(r, a.mem.r, head, n, value)
    requires b.Zone().hi <= a.Zone().lo || a.Zone().hi <= b.Zone().lo
    requires forall p: nat :: head <= p < head + n ==> !PageFree(a.blocks, p) && !PageFree(b.blocks, p)
    ensures Neighbours(a, b)
  {
    hide *;
    ValidMeans(a, r);
    ValidMeans(b, r);
    NextSetSame(a.Zone(), r, a.mem.r, head, n, value, a.blocks);
    NextSetSame(b.Zone(), r, a.mem.r, head, n, value, b.blocks);
    ZoneKept(a.Zone(), r, a.mem.r, a.free, a.lists, a.blocks);
    ZoneKept(b.Zone(), r, a.mem.r, b.free, b.lists, b.blocks);
    a.IntroConsistent(INVALID_PFN);
    b.IntroConsistent(INVALID_PFN);
    a.IntroValid();
    b.IntroValid();
    IntroNeighbours(a, b);
  }

  /** Writes the link fields of an allocated block of the high zone. */
  method LinkBlock(zones: ZonesManager, head: nat, order: nat, value: nat)
    requires zones.Valid() && Block(head, order, false) in zones.high.blocks
    modifies zones.frames
    ensures zones.Valid() && NextSet(old(zones.frames.r), zones.frames.r, head, Pow2(order), value)
  {
    hide *;
    ElimManager(zones);
    ghost var r, dma, high := zones.frames.r, zones.dma, zones.high;
    NeighboursMean(dma, high);
    NeighboursFlip(dma, high);
    NeighboursMean(high, dma);
    ManagerComplete(zones);
    ghost var a := Block(head, order, false);
    AllocatedNotFree(high.Zone(), high.blocks, dma.Zone(), dma.blocks, a);
    SetLinks(zones.frames, head, Pow2(order), value);
    LinksKeepZones(dma, high, r, head, Pow2(order), value);
    NextSetFields(r, zones.frames.r, head, Pow2(order), value);
    StillOwned(r, zones.frames.r, dma.blocks, high.blocks, dma.blocks, high.blocks);
    IntroManager(zones);
  }

  lemma ManagerComplete(m: ZonesManager)
    requires m.Valid()
    ensures Complete(m.frames.r) && Tiled(m.dma.Zone(), m.dma.blocks) && Tiled(m.high.Zone(), m.high.blocks)
    ensures m.dma.Zone().hi <= m.high.Zone().lo || m.high.Zone().hi <= m.dma.Zone().lo
    ensures m.high.Zone().hi <= INVALID_PFN
  {
  }

  lemma NextSetFields(r: Records, r': Records, lo: nat, n: nat, value: nat)
    requires NextSet(r, r', lo, n, value)
    ensures r'.state == r.state && r'.zone == r.zone && r'.order == r.order && r'.tag == r.tag
  {
  }

  // What the new links mean for the slabs.

  /** Block a becomes slab a.head. */
  lemma RegisterPages(z: Bounds, r: Records, r': Records, high: set<Block>, a: Block, s: Slabs, s': Slabs)
    requires Tiled(z, high) && Backed(r.next.Keys, high) && a in high && !a.free
    requires SlabPages(r, high, s) && OthersUnlinked(r, high, s) && a.head !in s.info
    requires NextSet(r, r', a.head, Pow2(a.order), a.head)
    requires s'.info.Keys == s.info.Keys + {a.head} && s'.info[a.head].order == a.order
    requires forall v :: v in s.info ==> s'.info[v] == s.info[v]
    ensures SlabPages(r', high, s') && OthersUnlinked(r', high, s')
  {
    forall v | v in s'.info ensures SlabBlock(s', v) in high && MarkedBy(r', SlabBlock(s', v), v) {
      if v != a.head {
        assert v in s'.info.Keys && v in s.info.Keys;
        assert SlabBlock(s', v) == SlabBlock(s, v);
        OtherMarks(z, r, r', high, a, SlabBlock(s, v), a.head);
      }
    }
    forall b | b in high && !b.free && b.head !in s'.info ensures Unlinked(r', b) {
      assert a.head in s'.info.Keys;
      assert b.head !in s.info.Keys;
      OtherMarks(z, r, r', high, a, b, a.head);
    }
  }

  /** Blocks other than a keep their links. */
  lemma OtherMarks(z: Bounds, r: Records, r': Records, high: set<Block>, a: Block, b: Block, value: nat)
    requires Tiled(z, high) && a in high && b in high && a != b
    requires NextSet(r, r', a.head, Pow2(a.order), value)
    ensures forall p: nat :: InBlock(b, p) && p in r.next ==> p in r'.next && r'.next[p] == r.next[p]
    ensures forall p: nat :: InBlock(b, p) && p in r'.next ==> p in r.next
  {
    TiledApart(z, high, a, b);
    assert forall p :: p in r'.next <==> p in r.next.Keys;
  }

  /** Slab v goes: its block has no links any more. */
  lemma UnregisterPages(z: Bounds, r: Records, r': Records, high: set<Block>, s: Slabs, v: nat)
    requires Tiled(z, high) && v in s.info && SlabPages(r, high, s) && OthersUnlinked(r, high, s)
    requires NextSet(r, r', v, Pow2(s.info[v].order), INVALID_PFN)
    ensures SlabPages(r', high, DropSlab(s, v)) && OthersUnlinked(r', high, DropSlab(s, v))
    ensures Unlinked(r', SlabBlock(s, v)) && SlabBlock(s, v) in high
  {
    var a, s' := SlabBlock(s, v), DropSlab(s, v);
    assert SlabBlock(s, v) in high;
    forall u | u in s'.info ensures SlabBlock(s', u) in high && MarkedBy(r', SlabBlock(s', u), u) {
      assert SlabBlock(s', u) == SlabBlock(s, u);
      OtherMarks(z, r, r', high, a, SlabBlock(s, u), INVALID_PFN);
    }
    forall b | b in high && !b.free && b.head !in s'.info ensures Unlinked(r', b) {
      if b != a {
        TiledApart(z, high, a, b);
        OtherMarks(z, r, r', high, a, b, INVALID_PFN);
      }
    }
  }

  /** Making a block a slab leaves the other allocated blocks alone. */
  lemma GrownPages(z: Bounds, s: set<Block>, t: set<Block>, a: Block, info: map<nat, Info>, info': map<nat, Info>)
    requires Tiled(z, t) && Took(s, t, a) && info'.Keys == info.Keys + {a.head} && a.head !in info
    ensures PageBlocks(t, info') == PageBlocks(s, info)
  {
    hide Tiled;
    TookOthers(s, t, a);
    forall b: Block ensures b in PageBlocks(t, info') <==> b in PageBlocks(s, info) {
      assert b.head in info' <==> b.head in info.Keys || b.head == a.head;
      if b in t && b != a {
        TiledApart(z, t, a, b);
      }
    }
  }

  /** Releasing a slab does too. */
  lemma ReleasedPages(z: Bounds, s: set<Block>, t: set<Block>, a: Block, info: map<nat, Info>)
    requires Tiled(z, s) && Took(t, s, a) && a.head in info
    ensures PageBlocks(t, info - {a.head}) == PageBlocks(s, info)
  {
    hide Tiled;
    TookOthers(t, s, a);
    forall b: Block ensures b in PageBlocks(t, info - {a.head}) <==> b in PageBlocks(s, info) {
      if b in s && b != a {
        TiledApart(z, s, a, b);
      }
    }
  }
}
