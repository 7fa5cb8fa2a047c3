/** The zones of physical memory: the DMA zone below 16 MiB and the high zone
    above it, each a buddy allocator over the shared frame table. */
module Zones {
  import opened Blocks
  import opened BuddyAllocator
  import opened Dyadic
  import opened Frames
  import opened FreeLists
  import opened Geometry
  import opened Options
  import opened PfnRuns
  import opened SparseMemory
  import opened ZoneRecords

  const DMA_LIMIT_PFN: nat := 4096

  // When another part of the frame table changes.

  /** The records of a zone are as they were, but for links of pages that are not
      free. */
  ghost predicate ZoneSame(z: Bounds, r: Records, r': Records, s: set<Block>) {
    && Complete(r) && Complete(r') && r'.tag.Keys == r.tag.Keys
    && (forall p: nat {:trigger r'.tag[p]} :: z.lo <= p < z.hi && p in r.tag ==> r'.tag[p] == r.tag[p])
    && (forall p: nat {:trigger r'.order[p]} :: z.lo <= p < z.hi && p in r.tag ==> r'.order[p] == r.order[p])
    && (forall p: nat {:trigger r'.next[p]} :: PageFree(s, p) && p in r.tag ==> r'.next[p] == r.next[p])
    && (forall p: nat {:trigger r'.prev[p]} :: PageFree(s, p) && p in r.tag ==> r'.prev[p] == r.prev[p])
  }

  lemma SameTags(z: Bounds, r: Records, r': Records, s: set<Block>)
    requires ZoneSame(z, r, r', s) && Tiled(z, s) && TagsAgree(z, r.tag, r.order, s, INVALID_PFN)
    requires z.hi <= INVALID_PFN && Backed(r.tag.Keys, s)
    ensures TagsAgree(z, r'.tag, r'.order, s, INVALID_PFN) && Backed(r'.tag.Keys, s)
  {
    forall b | b in s && b.head != INVALID_PFN
      ensures b.head in r'.tag && b.head in r'.order && r'.order[b.head] == b.order
      ensures r'.tag[b.head] == if b.free then Free else Allocated
    {
      assert InBlock(b, b.head);
      assert b.head in r.tag.Keys;
    }
    forall p | p in r'.tag && z.lo <= p < z.hi && p != INVALID_PFN && r'.tag[p] != Unused
      ensures p in r'.order && Block(p, r'.order[p], r'.tag[p] == Free) in s
    {
      assert p in r'.tag.Keys && p in r.tag.Keys;
      assert r.tag[p] == r'.tag[p] && r.order[p] == r'.order[p];
    }
  }

  lemma SameInner(z: Bounds, r: Records, r': Records, s: set<Block>)
    requires ZoneSame(z, r, r', s) && InnerClear(r.next, s)
    ensures InnerClear(r'.next, s)
  {
    forall b, p: nat | b in s && b.free && InBlock(b, p) && p != b.head && p in r'.next
      ensures r'.next[p] == INVALID_PFN
    {
      assert PageFree(s, p);
      assert p in r'.tag.Keys && p in r.tag.Keys && p in r.next;
    }
  }

  lemma SameLinks(z: Bounds, r: Records, r': Records, free: seq<nat>, lists: seq<seq<nat>>, s: set<Block>)
    requires ZoneSame(z, r, r', s) && LinksOk(z, r, free, lists, s) && Backed(r.tag.Keys, s)
    ensures LinksOk(z, r', free, lists, s)
  {
    forall x | Listed(lists, x)
      ensures x in r'.next && x in r'.prev && r'.next[x] == r.next[x] && r'.prev[x] == r.prev[x]
    {
      var o :| 0 <= o < |lists| && x in lists[o];
      assert InBlock(Block(x, o, true), x) && PageFree(s, x);
      assert x in r.tag.Keys;
    }
    LinkedElsewhere(r.next, r.prev, r'.next, r'.prev, free, lists);
  }

  /** A zone survives changes elsewhere. */
  lemma ZoneKept(z: Bounds, r: Records, r': Records, free: seq<nat>, lists: seq<seq<nat>>, s: set<Block>)
    requires ZoneSame(z, r, r', s) && z.hi <= INVALID_PFN
    requires RecordsOk(z, r, s, INVALID_PFN) && LinksOk(z, r, free, lists, s)
    ensures RecordsOk(z, r', s, INVALID_PFN) && LinksOk(z, r', free, lists, s)
  {
    hide TagsAgree, Backed, InnerClear, LinksOk, Tiled, Complete;
    assert Complete(r') by {
      assert ZoneSame(z, r, r', s);
    }
    SameTags(z, r, r', s);
    SameInner(z, r, r', s);
    SameLinks(z, r, r', free, lists, s);
  }

  lemma TouchedElsewhere(z: Bounds, other: Bounds, r: Records, r': Records, s: set<Block>, t: set<Block>, u: set<Block>)
    requires Tiled(other, s) && Tiled(other, t) && OnlyFreeTouched(r, r', s, t) && Tiled(z, u)
    requires z.hi <= other.lo || other.hi <= z.lo
    ensures ZoneSame(z, r, r', u)
  {
    assert r'.tag.Keys == r.tag.Keys;
    forall p: nat | z.lo <= p < z.hi && p in r.tag ensures SameAt(r, r', p) {
      assert !PageFree(s, p) && !PageFree(t, p);
    }
    forall p: nat | PageFree(u, p) ensures z.lo <= p < z.hi {
      var b :| b in u && b.free && InBlock(b, p);
      assert BlockOk(z, b);
    }
  }

  // Building a zone.

  /** Only the zone field changes, at the usable frames of [lo, hi). */
  ghost predicate ZoneAssigned(r: Records, r': Records, zid: ZoneId, lo: nat, hi: nat) {
    && Complete(r) && r' == r.(zone := r'.zone) && r'.zone.Keys == r.zone.Keys
    && forall p: nat {:trigger r'.zone[p]} :: p in r.zone ==>
         r'.zone[p] == if lo <= p < hi && UsableAt(r.state, p) then zid else r.zone[p]
  }

  lemma AssignNothing(r: Records, zid: ZoneId, lo: nat)
    requires Complete(r)
    ensures ZoneAssigned(r, r, zid, lo, lo)
  {
  }

  lemma AssignOne(r: Records, r': Records, zid: ZoneId, lo: nat, p: nat)
    requires ZoneAssigned(r, r', zid, lo, p) && lo <= p && p in r.zone
    ensures p in r'.state
    ensures ZoneAssigned(r, if r'.state[p] == Usable then r'.(zone := r'.zone[p := zid]) else r', zid, lo, p + 1)
  {
    var z' := if r'.state[p] == Usable then r'.zone[p := zid] else r'.zone;
    assert z'.Keys == r.zone.Keys;
  }

  /** `assign_zone_to_run`. */
  method AssignZoneToRun(frames: FrameTable, zid: ZoneId, start: nat, len: nat)
    requires Complete(frames.r) && forall p: nat :: start <= p < start + len ==> p in frames.r.zone
    modifies frames
    ensures ZoneAssigned(old(frames.r), frames.r, zid, start, start + len)
  {
    hide ZoneAssigned, Complete;
    AssignNothing(frames.r, zid, start);
    if len == 0 {
      return;
    }
    var end, p := start + len, start;
    while p < end
      invariant start <= p <= end && ZoneAssigned(old(frames.r), frames.r, zid, start, p)
    {
      var secEnd := SectionBase(SectionOf(p)) + PAGES_PER_SECTION;
      var chunkEnd := if end < secEnd then end else secEnd;
      while p < chunkEnd
        invariant start <= p <= chunkEnd && ZoneAssigned(old(frames.r), frames.r, zid, start, p)
      {
        AssignOne(old(frames.r), frames.r, zid, start, p);
        if frames.r.state[p] == Usable {
          frames.r := frames.r.(zone := frames.r.zone[p := zid]);
        }
        p := p + 1;
      }
    }
  }

  /** A zone does not depend on zone fields. */
  lemma AssignKeeps(z: Bounds, r: Records, r': Records, zid: ZoneId, lo: nat, hi: nat, s: set<Block>)
    requires ZoneAssigned(r, r', zid, lo, hi)
    ensures ZoneSame(z, r, r', s)
  {
  }

  /** Nothing but the zone field changed outside [lo, hi), and no state anywhere. */
  ghost predicate OutsideSame(r: Records, r': Records, lo: nat, hi: nat) {
    && Complete(r) && Complete(r') && r'.state == r.state
    && (forall p: nat :: p in r.tag && !(lo <= p < hi) ==> SameAt(r, r', p))
    && (forall p: nat {:trigger r'.zone[p]} :: p in r.zone && !(lo <= p < hi) ==> r'.zone[p] == r.zone[p])
  }

  /** The usable frames of [lo, hi) below pos carry the zone. */
  ghost predicate ZoneMarked(r: Records, zid: ZoneId, lo: nat, hi: nat, pos: nat) {
    forall p: nat {:trigger r.zone[p]} :: p in r.zone && lo <= p < hi && p < pos && UsableAt(r.state, p) ==>
      r.zone[p] == zid
  }

  /** The blocks are free and hold the usable frames of [lo, hi) below pos. */
  ghost predicate Holds(m: map<nat, FrameState>, s: set<Block>, lo: nat, hi: nat, pos: nat) {
    && (forall p: nat :: PageFree(s, p) <==> lo <= p < hi && p < pos && UsableAt(m, p))
    && (forall p: nat :: Managed(s, p) <==> PageFree(s, p))
  }

  /** The runs still to come hold the usable frames from pos on. */
  ghost predicate Todo(m: map<nat, FrameState>, runs: seq<PfnRun>, pos: nat) {
    && Ascending(runs, pos)
    && (forall p: nat :: Covered(runs, p) <==> pos <= p && UsableAt(m, p))
  }

  lemma {:induction false} CoveredFrom(runs: seq<PfnRun>, pos: nat, p: nat)
    requires Ascending(runs, pos)
    ensures Covered(runs, p) ==> pos <= p
    decreases |runs|
  {
    if runs != [] {
      CoveredFrom(runs[1..], runs[0].start + runs[0].len + 1, p);
    }
  }

  /** From pos to one past end, the usable frames are [start, end). */
  ghost predicate RunAt(m: map<nat, FrameState>, pos: nat, start: nat, end: nat) {
    && pos <= start <= end
    && (forall p: nat :: pos <= p < end + 1 ==> (UsableAt(m, p) <==> start <= p < end))
  }

  /** The first run is exactly the usable frames from pos to one past its end. */
  lemma NextRun(m: map<nat, FrameState>, runs: seq<PfnRun>, pos: nat)
    requires Todo(m, runs, pos) && runs != []
    ensures var end := runs[0].start + runs[0].len;
            Todo(m, runs[1..], end + 1) && RunAt(m, pos, runs[0].start, end)
  {
    var r, rest := runs[0], runs[1..];
    var end := r.start + r.len;
    forall p: nat ensures Covered(rest, p) <==> end + 1 <= p && UsableAt(m, p) {
      CoveredFrom(rest, end + 1, p);
      assert Covered(runs, p) <==> InRun(r, p) || Covered(rest, p);
    }
    forall p: nat | pos <= p < end + 1 ensures UsableAt(m, p) <==> r.start <= p < end {
      assert Covered(runs, p) <==> InRun(r, p) || Covered(rest, p);
      CoveredFrom(rest, end + 1, p);
    }
  }

  /** [start, end) cut to [lo, hi). */
  function CutStart(start: nat, lo: nat): nat {
    if start < lo then lo else start
  }

  function CutLength(start: nat, end: nat, lo: nat, hi: nat): nat {
    var e := if end < hi then end else hi;
    if CutStart(start, lo) < e then e - CutStart(start, lo) else 0
  }

  lemma HoldsNext(m: map<nat, FrameState>, s: set<Block>, t: set<Block>, lo: nat, hi: nat, pos: nat, start: nat,
                  end: nat)
    requires Holds(m, s, lo, hi, pos) && Grew(s, t, CutStart(start, lo), CutLength(start, end, lo, hi))
    requires RunAt(m, pos, start, end)
    ensures Holds(m, t, lo, hi, end + 1)
  {
    forall p: nat ensures PageFree(t, p) <==> lo <= p < hi && p < end + 1 && UsableAt(m, p) {
      assert PageFree(s, p) <==> lo <= p < hi && p < pos && UsableAt(m, p);
    }
  }

  /** The zone field of the usable frames of [lo, hi), and of no other, is zid. */
  ghost predicate ZoneField(r: Records, r': Records, zid: ZoneId, lo: nat, hi: nat) {
    && Complete(r) && Complete(r') && r'.state == r.state
    && forall p: nat {:trigger r'.zone[p]} :: p in r.zone ==>
         p in r'.zone && r'.zone[p] == if lo <= p < hi && UsableAt(r.state, p) then zid else r.zone[p]
  }

  lemma RunAdded(z: Bounds, r: Records, r1: Records, r2: Records, s: set<Block>, t: set<Block>, zid: ZoneId, cs: nat,
                 ce: nat)
    requires Tiled(z, s) && Tiled(z, t) && OnlyFreeTouched(r, r1, s, t) && ZoneAssigned(r1, r2, zid, cs, ce)
    requires z.lo <= cs && ce <= z.hi
    ensures OutsideSame(r, r2, z.lo, z.hi) && ZoneField(r, r2, zid, cs, ce)
  {
    assert r1.tag.Keys == r.tag.Keys == r2.tag.Keys;
    forall p: nat | p in r.tag && !(z.lo <= p < z.hi) ensures SameAt(r, r2, p) {
      assert !PageFree(s, p) && !PageFree(t, p);
    }
  }

  lemma NothingAdded(r: Records, s: set<Block>, lo: nat, hi: nat, zid: ZoneId, cs: nat)
    requires Complete(r)
    ensures OutsideSame(r, r, lo, hi) && ZoneField(r, r, zid, cs, cs) && Grew(s, s, cs, 0)
  {
  }

  /** One round of `build_zone`: the run, cut to the zone, becomes free pages of it. */
  method AddRun(zone: Buddy, zid: ZoneId, start: nat, end: nat, ghost lo: nat, ghost hi: nat)
    requires zone.Valid() && lo == zone.base && hi == zone.base + zone.pages
    requires CutLength(start, end, lo, hi) > 0 ==>
               FreshPages(zone.Zone(), zone.mem.r, zone.blocks, CutStart(start, lo), CutLength(start, end, lo, hi))
    modifies zone, zone.mem
    ensures zone.Valid()
    ensures Grew(old(zone.blocks), zone.blocks, CutStart(start, lo), CutLength(start, end, lo, hi))
    ensures OutsideSame(old(zone.mem.r), zone.mem.r, lo, hi)
    ensures ZoneField(old(zone.mem.r), zone.mem.r, zid, CutStart(start, lo),
                      CutStart(start, lo) + CutLength(start, end, lo, hi))
  {
    hide *;
    ghost var r0, s0, z := zone.mem.r, zone.blocks, zone.Zone();
    var pfnEnd := zone.base + zone.pages;
    CutIs(zone, start, end);
    zone.ElimValid();
    zone.ElimConsistent(INVALID_PFN);
    NothingAdded(r0, s0, zone.base, pfnEnd, zid, CutStart(start, zone.base));
    var clippedStart := if start > zone.base then start else zone.base;
    var clippedEnd := if end < pfnEnd then end else pfnEnd;
    if clippedStart >= clippedEnd {
      return;
    }
    var clippedLen := clippedEnd - clippedStart;
    zone.AddUsableRun(clippedStart, clippedLen);
    ghost var r1 := zone.mem.r;
    zone.ElimValid();
    zone.ElimConsistent(INVALID_PFN);
    StillThere(z, r0, r1, s0, zone.blocks, clippedStart, clippedLen);
    AssignZoneToRun(zone.mem, zid, clippedStart, clippedLen);
    AssignKeeps(z, r1, zone.mem.r, zid, clippedStart, clippedEnd, zone.blocks);
    ZoneKept(z, r1, zone.mem.r, zone.free, zone.lists, zone.blocks);
    zone.IntroConsistent(INVALID_PFN);
    zone.IntroValid();
    RunAdded(z, r0, r1, zone.mem.r, s0, zone.blocks, zid, clippedStart, clippedEnd);
  }

  lemma CutIs(zone: Buddy, start: nat, end: nat)
    ensures var lo, hi := zone.base, zone.base + zone.pages;
            var cs, ce := if start > lo then start else lo, if end < hi then end else hi;
            && zone.Zone() == Bounds(lo, hi, zone.maxOrder)
            && CutStart(start, lo) == cs
            && CutLength(start, end, lo, hi) == (if cs < ce then ce - cs else 0)
            && (cs < ce ==> zone.ClipStart(cs) == cs && zone.ClipLength(cs, ce - cs) == ce - cs)
            && (cs < ce ==>
                  (zone.Fresh(cs, ce - cs) <==> FreshPages(zone.Zone(), zone.mem.r, zone.blocks, cs, ce - cs)))
  {
  }

  lemma StillThere(z: Bounds, r: Records, r': Records, s: set<Block>, t: set<Block>, lo: nat, n: nat)
    requires FreshPages(z, r, s, lo, n) && OnlyFreeTouched(r, r', s, t)
    ensures forall p: nat :: lo <= p < lo + n ==> p in r'.zone
  {
    assert r'.zone.Keys == r.tag.Keys;
  }

  /** A new iterator has every usable frame to come. */
  lemma StartRuns(it: RunIterator)
    requires it.Valid()
    requires it.Remaining() == if it.sparse.sections == [] then [] else Scan(it.sparse.States(), 0, it.Limit(), None)
    ensures Todo(it.sparse.frames.r.state, it.Remaining(), 0)
  {
    var m := it.sparse.States();
    ScanIsExact(m, it.Limit());
    forall p: nat | UsableAt(m, p) ensures p < it.Limit() && it.sparse.sections != [] {
      assert PresentAt(it.sparse.sections, SectionOf(p));
    }
  }

  lemma NoneLeft(m: map<nat, FrameState>, r: Records, s: set<Block>, zid: ZoneId, lo: nat, hi: nat, pos: nat,
                 todo: seq<PfnRun>)
    requires Todo(m, todo, pos) && (todo == [] || todo[0].start >= hi) && r.state == m
    requires Holds(m, s, lo, hi, pos) && ZoneMarked(r, zid, lo, hi, pos)
    ensures Holds(m, s, lo, hi, hi) && ZoneMarked(r, zid, lo, hi, hi)
  {
    forall p: nat | pos <= p < hi ensures !UsableAt(m, p) {
      if todo != [] {
        CoveredFrom(todo, todo[0].start, p);
      }
    }
  }

  lemma MarkedNext(r: Records, r': Records, zid: ZoneId, lo: nat, hi: nat, pos: nat, start: nat, end: nat)
    requires ZoneMarked(r, zid, lo, hi, pos) && RunAt(r.state, pos, start, end)
    requires ZoneField(r, r', zid, CutStart(start, lo), CutStart(start, lo) + CutLength(start, end, lo, hi))
    ensures ZoneMarked(r', zid, lo, hi, end + 1)
  {
    assert r'.zone.Keys == r.zone.Keys;
  }

  lemma RunIsFresh(z: Bounds, r: Records, s: set<Block>, pos: nat, start: nat, end: nat)
    requires Complete(r) && Holds(r.state, s, z.lo, z.hi, pos) && RunAt(r.state, pos, start, end)
    ensures var cl := CutLength(start, end, z.lo, z.hi);
            cl > 0 ==> FreshPages(z, r, s, CutStart(start, z.lo), cl)
  {
    var cs, cl := CutStart(start, z.lo), CutLength(start, end, z.lo, z.hi);
    forall p: nat | cs <= p < cs + cl ensures p in r.tag && !Managed(s, p) {
      assert UsableAt(r.state, p);
      assert p in r.state.Keys;
    }
  }

  lemma OutsideTwice(r: Records, r1: Records, r2: Records, lo: nat, hi: nat)
    requires OutsideSame(r, r1, lo, hi) && OutsideSame(r1, r2, lo, hi)
    ensures OutsideSame(r, r2, lo, hi)
  {
    assert r1.tag.Keys == r.tag.Keys && r1.zone.Keys == r.zone.Keys;
  }

  lemma ResetOutside(r: Records, r': Records, lo: nat, hi: nat, zid: ZoneId)
    requires ClearedTo(r, r', lo, hi)
    ensures OutsideSame(r, r', lo, hi) && Holds(r'.state, {}, lo, hi, 0) && ZoneMarked(r', zid, lo, hi, 0)
  {
  }

  lemma ZoneSized(zone: Buddy)
    requires Aligned(zone.base, MAX_ORDER) && zone.base + zone.pages <= INVALID_PFN
    requires zone.maxOrder == if zone.pages == 0 then 0 else Min(FloorLog2(zone.pages), MAX_ORDER)
    ensures zone.Sized() && zone.Zone() == Bounds(zone.base, zone.base + zone.pages, zone.maxOrder)
  {
    AlignedWeaken(zone.base, zone.maxOrder, MAX_ORDER);
  }

  /** `build_zone`: all usable frames of [pfnStart, pfnEnd), and nothing else,
      become free pages of the new zone and are marked with its id. */
  method BuildZone(sparse: SparseMem, zid: ZoneId, pfnStart: nat, pfnEnd: nat) returns (zone: Buddy)
    requires sparse.Valid() && pfnStart <= pfnEnd <= INVALID_PFN && Aligned(pfnStart, MAX_ORDER)
    modifies sparse.frames
    ensures fresh(zone) && zone.mem == sparse.frames && zone.base == pfnStart && zone.base + zone.pages == pfnEnd
    ensures zone.Valid() && sparse.Valid()
    ensures Holds(sparse.frames.r.state, zone.blocks, pfnStart, pfnEnd, pfnEnd)
    ensures ZoneMarked(sparse.frames.r, zid, pfnStart, pfnEnd, pfnEnd)
    ensures OutsideSame(old(sparse.frames.r), sparse.frames.r, pfnStart, pfnEnd)
  {
    hide *;
    var frames := sparse.frames;
    ghost var r0, m := frames.r, frames.r.state;
    ElimSparse(sparse);
    zone := new Buddy(pfnStart, pfnEnd - pfnStart, frames);
    ZoneSized(zone);
    zone.Reset();
    ResetOutside(r0, frames.r, pfnStart, pfnEnd, zid);
    OutsideMeans(r0, frames.r, pfnStart, pfnEnd);
    sparse.Unmoved();
    var it := new RunIterator(sparse);
    StartRuns(it);
    ghost var todo := it.Remaining();
    ghost var pos: nat := 0;
    var run := it.Next();
    while run.Some?
      invariant zone.Valid() && it.Valid() && it.sparse == sparse && sparse.Valid() && frames.r.state == m
      invariant run == (if todo == [] then None else Some(todo[0]))
      invariant it.Remaining() == if todo == [] then [] else todo[1..]
      invariant Todo(m, todo, pos) && Holds(m, zone.blocks, pfnStart, pfnEnd, pos)
      invariant ZoneMarked(frames.r, zid, pfnStart, pfnEnd, pos) && OutsideSame(r0, frames.r, pfnStart, pfnEnd)
      decreases |todo|
    {
      if run.value.start >= pfnEnd {
        break;
      }
      ghost var start, end := run.value.start, run.value.start + run.value.len;
      ElimSparse(sparse);
      NextRun(m, todo, pos);
      RunIsFresh(zone.Zone(), frames.r, zone.blocks, pos, start, end);
      ghost var r, s := frames.r, zone.blocks;
      label Before:
      AddRun(zone, zid, run.value.start, run.value.start + run.value.len, pfnStart, pfnEnd);
      OutsideMeans(r, frames.r, pfnStart, pfnEnd);
      OutsideTwice(r0, r, frames.r, pfnStart, pfnEnd);
      HoldsNext(m, s, zone.blocks, pfnStart, pfnEnd, pos, start, end);
      assert ZoneMarked(r, zid, pfnStart, pfnEnd, pos);
      assert RunAt(r.state, pos, start, end);
      assert ZoneField(r, frames.r, zid, CutStart(start, pfnStart),
                       CutStart(start, pfnStart) + CutLength(start, end, pfnStart, pfnEnd));
      MarkedNext(r, frames.r, zid, pfnStart, pfnEnd, pos, start, end);
      sparse.Unmoved@Before();
      it.Unmoved@Before();
      todo, pos := todo[1..], end + 1;
      run := it.Next();
    }
    NoneLeft(m, frames.r, zone.blocks, zid, pfnStart, pfnEnd, pos, todo);
  }

  lemma ElimSparse(sparse: SparseMem)
    requires sparse.Valid()
    ensures Complete(sparse.frames.r) && sparse.States() == sparse.frames.r.state
  {
  }

  lemma OutsideMeans(r: Records, r': Records, lo: nat, hi: nat)
    requires OutsideSame(r, r', lo, hi)
    ensures Complete(r) && Complete(r') && r'.state == r.state
  {
  }

  // The manager of both zones.

  /** The frames of the blocks carry the zone's id. */
  ghost predicate Owned(r: Records, s: set<Block>, zid: ZoneId) {
    forall p: nat :: Managed(s, p) ==> p in r.zone && r.zone[p] == zid
  }

  /** Every usable frame belongs to one of the two zones, and no other frame does. */
  ghost predicate Partition(m: map<nat, FrameState>, s: set<Block>, t: set<Block>) {
    forall p: nat :: UsableAt(m, p) <==> Managed(s, p) || Managed(t, p)
  }

  /** Two zones side by side over one frame table. */
  ghost predicate Neighbours(a: Buddy, b: Buddy)
    reads a, b, a.mem, b.mem
  {
    a != b && a.mem == b.mem && a.Valid() && b.Valid() && (a.base + a.pages <= b.base || b.base + b.pages <= a.base)
  }

  /** What a zone is when the frame table holds r. */
  ghost predicate ValidWith(b: Buddy, r: Records)
    reads b
  {
    && b.Sized() && Coalesced(b.Zone(), b.blocks) && b.freePages == |FreePages(b.blocks)|
    && RecordsOk(b.Zone(), r, b.blocks, INVALID_PFN) && LinksOk(b.Zone(), r, b.free, b.lists, b.blocks)
  }

  lemma NeighboursMean(a: Buddy, b: Buddy)
    requires Neighbours(a, b)
    ensures a.Valid() && b.Valid() && a != b && a.mem == b.mem && ValidWith(b, b.mem.r) && Tiled(a.Zone(), a.blocks)
    ensures b.Zone().hi <= a.Zone().lo || a.Zone().hi <= b.Zone().lo
  {
  }

  lemma ValidMeans(b: Buddy, r: Records)
    requires ValidWith(b, r)
    ensures b.Sized() && Coalesced(b.Zone(), b.blocks) && b.freePages == |FreePages(b.blocks)|
    ensures RecordsOk(b.Zone(), r, b.blocks, INVALID_PFN) && LinksOk(b.Zone(), r, b.free, b.lists, b.blocks)
    ensures Tiled(b.Zone(), b.blocks) && b.Zone().hi <= INVALID_PFN
    ensures b.Zone() == Bounds(b.base, b.base + b.pages, b.maxOrder)
  {
  }

  /** A change within one zone keeps the other. */
  lemma NeighbourKept(a: Buddy, b: Buddy, r: Records, s: set<Block>)
    requires a != b && a.mem == b.mem && a.Valid() && ValidWith(b, r) && Tiled(a.Zone(), s)
    requires b.Zone().hi <= a.Zone().lo || a.Zone().hi <= b.Zone().lo
    requires OnlyFreeTouched(r, a.mem.r, s, a.blocks)
    ensures Neighbours(a, b)
  {
    hide *;
    a.ElimValid();
    ValidMeans(b, r);
    TouchedElsewhere(b.Zone(), a.Zone(), r, a.mem.r, s, a.blocks, b.blocks);
    ZoneKept(b.Zone(), r, a.mem.r, b.free, b.lists, b.blocks);
    b.IntroConsistent(INVALID_PFN);
    b.IntroValid();
    IntroNeighbours(a, b);
  }

  lemma IntroNeighbours(a: Buddy, b: Buddy)
    requires a != b && a.mem == b.mem && a.Valid() && b.Valid()
    requires b.Zone().hi <= a.Zone().lo || a.Zone().hi <= b.Zone().lo
    ensures Neighbours(a, b)
  {
  }

  /** Takes a block from one of two neighbouring zones. */
  method AllocFrom(zone: Buddy, ghost other: Buddy, order: nat) returns (res: Option<nat>)
    requires Neighbours(zone, other)
    modifies zone, zone.mem
    ensures Neighbours(zone, other)
    ensures res == None <==>
              order > zone.maxOrder || !exists h: nat :: Aligned(h, order) && RunFree(old(zone.blocks), h, order)
    ensures res == None ==> zone.blocks == old(zone.blocks) && zone.mem.r == old(zone.mem.r)
    ensures res.Some? ==> Took(old(zone.blocks), zone.blocks, Block(res.value, order, false))
    ensures res.Some? ==> Unlinked(zone.mem.r, Block(res.value, order, false))
    ensures OnlyFreeTouched(old(zone.mem.r), zone.mem.r, old(zone.blocks), zone.blocks)
  {
    hide *;
    NeighboursMean(zone, other);
    ghost var r, s := zone.mem.r, zone.blocks;
    res := zone.Alloc(order);
    NeighbourKept(zone, other, r, s);
    if res.Some? {
      IntroUnlinked(zone.mem.r, Block(res.value, order, false));
    }
  }

  /** No page of the block carries a link. */
  ghost predicate Unlinked(r: Records, a: Block) {
    forall p: nat :: InBlock(a, p) && p in r.next ==> r.next[p] == INVALID_PFN
  }

  lemma IntroUnlinked(r: Records, a: Block)
    requires forall p: nat :: InBlock(a, p) && p in r.next ==> r.next[p] == INVALID_PFN
    ensures Unlinked(r, a)
  {
  }

  /** Gives a block back to one of two neighbouring zones. */
  method FreeTo(zone: Buddy, ghost other: Buddy, pfn: nat)
    requires Neighbours(zone, other) && pfn in zone.mem.r.order &&
             Block(pfn, zone.mem.r.order[pfn], false) in zone.blocks
    requires InnerCleared(zone.mem.r, Block(pfn, zone.mem.r.order[pfn], false))
    modifies zone, zone.mem
    ensures Neighbours(zone, other)
    ensures Took(zone.blocks, old(zone.blocks), Block(pfn, old(zone.mem.r.order[pfn]), false))
    ensures OnlyFreeTouched(old(zone.mem.r), zone.mem.r, old(zone.blocks), zone.blocks)
  {
    hide *;
    NeighboursMean(zone, other);
    ghost var r, s := zone.mem.r, zone.blocks;
    zone.Free(pfn);
    NeighbourKept(zone, other, r, s);
  }

  /** The zones array: DMA and high zone registered, the normal zone never. */
  class ZonesManager {
    const frames: FrameTable
    const dma: Buddy
    const high: Buddy

    ghost predicate Valid()
      reads this, frames, dma, high
    {
      && dma.mem == frames == high.mem && Neighbours(dma, high)
      && dma.base == 0 && dma.pages == DMA_LIMIT_PFN == high.base
      && Owned(frames.r, dma.blocks, Dma) && Owned(frames.r, high.blocks, High)
      && Partition(frames.r.state, dma.blocks, high.blocks)
    }

    constructor (frames: FrameTable, dma: Buddy, high: Buddy)
      ensures this.frames == frames && this.dma == dma && this.high == high
    {
      this.frames, this.dma, this.high := frames, dma, high;
    }

    /** `alloc_pages`: from the zone asked for and from no other. */
    method AllocPages(id: ZoneId, order: nat) returns (res: Option<nat>)
      requires Valid()
      modifies dma, high, frames
      ensures Valid() && frames.r.state == old(frames.r.state)
      ensures id == Normal ==> res == None
      ensures res == None ==>
                dma.blocks == old(dma.blocks) && high.blocks == old(high.blocks) && frames.r == old(frames.r)
      ensures id == Dma ==> high.blocks == old(high.blocks) && high.freePages == old(high.freePages)
      ensures id == High ==> dma.blocks == old(dma.blocks) && dma.freePages == old(dma.freePages)
      ensures id == Dma ==> (res == None <==> NoRun(dma.maxOrder, old(dma.blocks), order))
      ensures id == High ==> (res == None <==> NoRun(high.maxOrder, old(high.blocks), order))
      ensures res.Some? ==> Unlinked(frames.r, Block(res.value, order, false))
      ensures res.Some? ==> forall p: nat :: InBlock(Block(res.value, order, false), p) ==>
                              (id == Dma <==> p * PAGE_SIZE < 16 * 1024 * 1024)
      ensures res.Some? && id == Dma ==>
                Took(old(dma.blocks), dma.blocks, Block(res.value, order, false)) &&
                OnlyFreeTouched(old(frames.r), frames.r, old(dma.blocks), dma.blocks)
      ensures res.Some? && id == High ==>
                Took(old(high.blocks), high.blocks, Block(res.value, order, false)) &&
                OnlyFreeTouched(old(frames.r), frames.r, old(high.blocks), high.blocks)
    {
      hide *;
      ElimManager(this);
      ghost var r, s, t := frames.r, dma.blocks, high.blocks;
      match id {
        case Dma =>
          res := AllocFrom(dma, high, order);
          NoRunIs(dma.maxOrder, s, order);
          if res.Some? {
            Moved(r, frames.r, s, dma.blocks, Block(res.value, order, false));
          }
        case High =>
          NeighboursFlip(dma, high);
          res := AllocFrom(high, dma, order);
          NeighboursFlip(high, dma);
          NoRunIs(high.maxOrder, t, order);
          if res.Some? {
            Moved(r, frames.r, t, high.blocks, Block(res.value, order, false));
          }
        case Normal =>
          return None;
      }
      StillOwned(r, frames.r, s, t, dma.blocks, high.blocks);
      IntroManager(this);
      if res.Some? {
        BlockLies(this, id, if id == Dma then s else t, Block(res.value, order, false));
      }
    }

    /** `free_pages`: the block goes back to the zone it was taken from, which the
        frame's zone field names. */
    method FreePages(pfn: nat)
      requires Valid() && pfn in frames.r.order && pfn in frames.r.zone
      requires Block(pfn, frames.r.order[pfn], false) in dma.blocks ||
               Block(pfn, frames.r.order[pfn], false) in high.blocks
      requires InnerCleared(frames.r, Block(pfn, frames.r.order[pfn], false))
      modifies dma, high, frames
      ensures Valid() && frames.r.state == old(frames.r.state)
      ensures var a := Block(pfn, old(frames.r.order[pfn]), false);
              if a in old(dma.blocks)
              then Took(dma.blocks, old(dma.blocks), a) && high.blocks == old(high.blocks) &&
                   OnlyFreeTouched(old(frames.r), frames.r, old(dma.blocks), dma.blocks)
              else Took(high.blocks, old(high.blocks), a) && dma.blocks == old(dma.blocks) &&
                   OnlyFreeTouched(old(frames.r), frames.r, old(high.blocks), high.blocks)
    {
      hide *;
      ElimManager(this);
      ghost var r, s, t, a := frames.r, dma.blocks, high.blocks, Block(pfn, frames.r.order[pfn], false);
      HomeZone(r, s, t, a);
      var zid := frames.r.zone[pfn];
      if zid == Dma {
        FreeTo(dma, high, pfn);
        Moved(r, frames.r, dma.blocks, s, a);
      } else {
        NeighboursFlip(dma, high);
        FreeTo(high, dma, pfn);
        NeighboursFlip(high, dma);
        Moved(r, frames.r, high.blocks, t, a);
      }
      StillOwned(r, frames.r, s, t, dma.blocks, high.blocks);
      IntroManager(this);
    }
  }

  /** No aligned free run of 2^order pages. */
  ghost predicate NoRun(maxOrder: nat, s: set<Block>, order: nat) {
    order > maxOrder || !exists h: nat :: Aligned(h, order) && RunFree(s, h, order)
  }

  lemma NoRunIs(maxOrder: nat, s: set<Block>, order: nat)
    ensures NoRun(maxOrder, s, order) <==>
              order > maxOrder || !exists h: nat :: Aligned(h, order) && RunFree(s, h, order)
  {
  }

  lemma ElimManager(m: ZonesManager)
    requires m.Valid()
    ensures m.dma.mem == m.frames == m.high.mem && Neighbours(m.dma, m.high) && m.dma != m.high
    ensures m.dma.base == 0 && m.dma.pages == DMA_LIMIT_PFN == m.high.base
    ensures Owned(m.frames.r, m.dma.blocks, Dma) && Owned(m.frames.r, m.high.blocks, High)
    ensures Partition(m.frames.r.state, m.dma.blocks, m.high.blocks)
  {
  }

  lemma IntroManager(m: ZonesManager)
    requires m.dma.mem == m.frames == m.high.mem && Neighbours(m.dma, m.high)
    requires m.dma.base == 0 && m.dma.pages == DMA_LIMIT_PFN == m.high.base
    requires Owned(m.frames.r, m.dma.blocks, Dma) && Owned(m.frames.r, m.high.blocks, High)
    requires Partition(m.frames.r.state, m.dma.blocks, m.high.blocks)
    ensures m.Valid()
  {
  }

  /** Every page of the blocks lies below 16 MiB. */
  ghost predicate Below16MiB(s: set<Block>) {
    forall p: nat :: Managed(s, p) ==> p * PAGE_SIZE < 16 * 1024 * 1024
  }

  /** Every page of the blocks lies at or above 16 MiB. */
  ghost predicate From16MiB(s: set<Block>) {
    forall p: nat :: Managed(s, p) ==> p * PAGE_SIZE >= 16 * 1024 * 1024
  }

  /** The DMA zone lies below 16 MiB and the high zone above. */
  lemma ZonesLie(m: ZonesManager)
    requires m.Valid()
    ensures Below16MiB(m.dma.blocks) && From16MiB(m.high.blocks)
  {
    assert DMA_LIMIT_PFN * PAGE_SIZE == 16 * 1024 * 1024;
    ElimManager(m);
    NeighboursFlip(m.dma, m.high);
    NeighboursMean(m.high, m.dma);
    NeighboursMean(m.dma, m.high);
    ValidIs(m.dma);
    ValidIs(m.high);
    hide ValidWith, Neighbours;
    TiledInside(m.dma.Zone(), m.dma.blocks);
    TiledInside(m.high.Zone(), m.high.blocks);
  }

  lemma TiledInside(z: Bounds, s: set<Block>)
    requires Tiled(z, s)
    ensures forall p: nat :: Managed(s, p) ==> z.lo <= p < z.hi
  {
    forall p: nat | Managed(s, p) ensures z.lo <= p < z.hi {
      var b :| b in s && InBlock(b, p);
      assert BlockOk(z, b);
    }
  }

  /** A block taken from a zone lies where the zone does. */
  lemma BlockLies(m: ZonesManager, id: ZoneId, s: set<Block>, a: Block)
    requires m.Valid() && id != Normal && Took(s, if id == Dma then m.dma.blocks else m.high.blocks, a)
    ensures forall p: nat :: InBlock(a, p) ==> (id == Dma <==> p * PAGE_SIZE < 16 * 1024 * 1024)
  {
    ZonesLie(m);
    var t := if id == Dma then m.dma.blocks else m.high.blocks;
    assert a in t;
    forall p: nat | InBlock(a, p) ensures Managed(t, p) {
    }
  }

  lemma NeighboursFlip(a: Buddy, b: Buddy)
    requires Neighbours(a, b)
    ensures Neighbours(b, a)
  {
  }

  /** The block sets manage the same pages. */
  ghost predicate SamePages(s: set<Block>, t: set<Block>) {
    forall p: nat :: Managed(t, p) <==> Managed(s, p)
  }

  /** Taking or returning a block moves no page between zones. */
  lemma Moved(r: Records, r': Records, s: set<Block>, t: set<Block>, a: Block)
    requires Took(s, t, a) && (OnlyFreeTouched(r, r', s, t) || OnlyFreeTouched(r, r', t, s))
    ensures SamePages(s, t) && SamePages(t, s) && r'.state == r.state && r'.zone == r.zone
  {
  }

  lemma StillOwned(r: Records, r': Records, s: set<Block>, t: set<Block>, s': set<Block>, t': set<Block>)
    requires Owned(r, s, Dma) && Owned(r, t, High) && Partition(r.state, s, t)
    requires r'.state == r.state && r'.zone == r.zone && (s' == s || SamePages(s, s')) && (t' == t || SamePages(t, t'))
    ensures Owned(r', s', Dma) && Owned(r', t', High) && Partition(r'.state, s', t')
  {
  }

  /** The zone field of a block's head names the zone that holds the block. */
  lemma HomeZone(r: Records, s: set<Block>, t: set<Block>, a: Block)
    requires Owned(r, s, Dma) && Owned(r, t, High) && (a in s || a in t)
    ensures a.head in r.zone
    ensures r.zone[a.head] == Dma <==> a in s
    ensures r.zone[a.head] == High <==> a in t
  {
    assert InBlock(a, a.head);
    assert a in s ==> Managed(s, a.head);
    assert a in t ==> Managed(t, a.head);
  }

  // Setting both zones up.

  /** The usable frames. */
  ghost function UsableFrames(m: map<nat, FrameState>): set<nat> {
    set p | p in m && m[p] == Usable
  }

  /** Between them the two zones hold every usable frame, free, once. */
  ghost predicate AllFree(m: map<nat, FrameState>, s: set<Block>, t: set<Block>) {
    && (forall p: nat :: UsableAt(m, p) <==> PageFree(s, p) || PageFree(t, p))
    && (forall p: nat :: !(Managed(s, p) && Managed(t, p)))
  }

  lemma AllFreeCount(m: map<nat, FrameState>, s: set<Block>, t: set<Block>)
    requires AllFree(m, s, t)
    ensures |FreePages(s)| + |FreePages(t)| == |UsableFrames(m)|
  {
    forall p: nat | p in FreePages(s) ensures p !in FreePages(t) {
      FreeIsManaged(s, p);
      if PageFree(t, p) {
        FreeIsManaged(t, p);
        assert false;
      }
    }
    forall p: nat ensures p in UsableFrames(m) <==> p in FreePages(s) + FreePages(t) {
      assert UsableAt(m, p) <==> p in UsableFrames(m);
    }
    assert UsableFrames(m) == FreePages(s) + FreePages(t);
  }

  lemma BothHold(r: Records, s: set<Block>, t: set<Block>, max: nat)
    requires Holds(r.state, s, 0, DMA_LIMIT_PFN, DMA_LIMIT_PFN) && Holds(r.state, t, DMA_LIMIT_PFN, max, max)
    requires ZoneMarked(r, Dma, 0, DMA_LIMIT_PFN, DMA_LIMIT_PFN) && ZoneMarked(r, High, DMA_LIMIT_PFN, max, max)
    requires Complete(r) && DMA_LIMIT_PFN <= max && forall p: nat :: UsableAt(r.state, p) ==> p < max
    ensures Owned(r, s, Dma) && Owned(r, t, High) && Partition(r.state, s, t) && AllFree(r.state, s, t)
  {
    assert r.zone.Keys == r.state.Keys;
    forall p: nat | Managed(s, p) ensures p in r.zone && r.zone[p] == Dma {
      assert UsableAt(r.state, p);
      assert p in r.state.Keys;
    }
    forall p: nat | Managed(t, p) ensures p in r.zone && r.zone[p] == High {
      assert UsableAt(r.state, p);
      assert p in r.state.Keys;
    }
  }

  lemma OutsideIsSame(z: Bounds, r: Records, r': Records, lo: nat, hi: nat, s: set<Block>)
    requires OutsideSame(r, r', lo, hi) && z.hi <= lo && Tiled(z, s)
    ensures ZoneSame(z, r, r', s)
  {
    assert r'.tag.Keys == r.tag.Keys;
    forall p: nat | PageFree(s, p) ensures p < z.hi {
      var b :| b in s && b.free && InBlock(b, p);
      assert BlockOk(z, b);
    }
    forall p: nat | z.lo <= p < z.hi && p in r.tag ensures SameAt(r, r', p) {
    }
  }

  lemma MarkedOutside(r: Records, r': Records, zid: ZoneId, lo: nat, hi: nat, max: nat)
    requires ZoneMarked(r, zid, lo, hi, hi) && OutsideSame(r, r', hi, max)
    ensures ZoneMarked(r', zid, lo, hi, hi)
  {
    assert r'.zone.Keys == r.zone.Keys;
  }

  /** Zone bases are aligned to the largest block. */
  lemma {:induction false} BasesAligned()
    ensures Aligned(0, MAX_ORDER) && Aligned(DMA_LIMIT_PFN, MAX_ORDER)
  {
    ZeroIsAligned(MAX_ORDER);
    assert Pow2(4) == 16;
    assert Pow2(8) == 256;
    assert Pow2(11) == 2048;
    hide Pow2, Aligned;
    var q, r := AlignedIsMultiple(DMA_LIMIT_PFN, MAX_ORDER);
  }

  lemma UsableBelow(sparse: SparseMem)
    requires sparse.Valid() && LastIn(sparse.States(), 0, SectionBase(|sparse.sections|), sparse.cachedMaxPfn)
    ensures forall p: nat :: UsableAt(sparse.frames.r.state, p) ==> p < sparse.cachedMaxPfn
    ensures sparse.cachedMaxPfn <= INVALID_PFN
  {
    BelowTable(sparse.sections, sparse.States());
    forall p: nat | UsableAt(sparse.frames.r.state, p) ensures p < sparse.cachedMaxPfn {
      assert p < SectionBase(|sparse.sections|);
    }
  }

  lemma ValidIs(b: Buddy)
    requires b.Valid()
    ensures ValidWith(b, b.mem.r) && b.Zone() == Bounds(b.base, b.base + b.pages, b.maxOrder)
  {
  }

  /** Building the second zone keeps the first. */
  lemma FirstZoneKept(a: Buddy, b: Buddy, r: Records)
    requires a != b && a.mem == b.mem && b.Valid() && ValidWith(a, r) && a.base + a.pages == b.base
    requires OutsideSame(r, a.mem.r, b.base, b.base + b.pages)
    ensures Neighbours(a, b)
  {
    hide *;
    ValidMeans(a, r);
    OutsideIsSame(a.Zone(), r, a.mem.r, b.base, b.base + b.pages, a.blocks);
    ZoneKept(a.Zone(), r, a.mem.r, a.free, a.lists, a.blocks);
    a.IntroConsistent(INVALID_PFN);
    a.IntroValid();
    a.ElimConsistent(INVALID_PFN);
    ValidIs(b);
    IntroNeighbours(a, b);
  }

  lemma BothCounted(a: Buddy, b: Buddy, m: map<nat, FrameState>)
    requires Neighbours(a, b) && AllFree(m, a.blocks, b.blocks)
    ensures a.freePages + b.freePages == |UsableFrames(m)|
  {
    hide *;
    NeighboursMean(a, b);
    a.ElimValid();
    b.ElimValid();
    AllFreeCount(m, a.blocks, b.blocks);
  }

  /** Two zones built one after the other, the first from the records r, hold between
      them every usable frame. */
  lemma JoinZones(a: Buddy, b: Buddy, r: Records, max: nat)
    requires a != b && a.mem == b.mem && b.Valid() && ValidWith(a, r) && Complete(a.mem.r)
    requires a.base == 0 && a.base + a.pages == DMA_LIMIT_PFN == b.base && b.base + b.pages == max
    requires OutsideSame(r, a.mem.r, DMA_LIMIT_PFN, max) && r.state == a.mem.r.state
    requires Holds(r.state, a.blocks, 0, DMA_LIMIT_PFN, DMA_LIMIT_PFN)
    requires ZoneMarked(r, Dma, 0, DMA_LIMIT_PFN, DMA_LIMIT_PFN)
    requires Holds(r.state, b.blocks, DMA_LIMIT_PFN, max, max) && ZoneMarked(a.mem.r, High, DMA_LIMIT_PFN, max, max)
    requires DMA_LIMIT_PFN <= max && forall p: nat :: UsableAt(r.state, p) ==> p < max
    ensures Neighbours(a, b) && AllFree(r.state, a.blocks, b.blocks)
    ensures Owned(a.mem.r, a.blocks, Dma) && Owned(a.mem.r, b.blocks, High) && Partition(r.state, a.blocks, b.blocks)
    ensures a.freePages + b.freePages == |UsableFrames(r.state)|
  {
    hide *;
    FirstZoneKept(a, b, r);
    MarkedOutside(r, a.mem.r, Dma, 0, DMA_LIMIT_PFN, max);
    BothHold(a.mem.r, a.blocks, b.blocks, max);
    BothCounted(a, b, r.state);
  }

  /** Both zones of the manager, over the frames below maxPfn. */
  method BuildZones(sparse: SparseMem, maxPfn: nat) returns (dma: Buddy, high: Buddy)
    requires sparse.Valid() && DMA_LIMIT_PFN <= maxPfn <= INVALID_PFN
    requires forall p: nat :: UsableAt(sparse.frames.r.state, p) ==> p < maxPfn
    modifies sparse.frames
    ensures fresh(dma) && fresh(high) && sparse.Valid() && sparse.frames.r.state == old(sparse.frames.r.state)
    ensures dma.mem == high.mem == sparse.frames && Neighbours(dma, high)
    ensures dma.base == 0 && dma.pages == DMA_LIMIT_PFN == high.base
    ensures Owned(sparse.frames.r, dma.blocks, Dma) && Owned(sparse.frames.r, high.blocks, High)
    ensures Partition(sparse.frames.r.state, dma.blocks, high.blocks)
    ensures AllFree(sparse.frames.r.state, dma.blocks, high.blocks)
    ensures dma.freePages + high.freePages == |UsableFrames(sparse.frames.r.state)|
  {
    hide *;
    BasesAligned();
    dma := BuildZone(sparse, Dma, 0, DMA_LIMIT_PFN);
    ghost var r := sparse.frames.r;
    OutsideMeans(old(sparse.frames.r), r, 0, DMA_LIMIT_PFN);
    ValidIs(dma);
    high := BuildZone(sparse, High, DMA_LIMIT_PFN, maxPfn);
    OutsideMeans(r, sparse.frames.r, DMA_LIMIT_PFN, maxPfn);
    JoinZones(dma, high, r, maxPfn);
  }

  /** `init_zones_manager`; None where the source panics. */
  method InitZonesManager(sparse: SparseMem) returns (res: Option<ZonesManager>)
    requires sparse.Valid() && LastIn(sparse.States(), 0, SectionBase(|sparse.sections|), sparse.cachedMaxPfn)
    modifies sparse.frames
    ensures res == None <==> sparse.cachedMaxPfn < DMA_LIMIT_PFN
    ensures res.Some? ==> fresh(res.value) && res.value.frames == sparse.frames && res.value.Valid() && sparse.Valid()
    ensures sparse.frames.r.state == old(sparse.frames.r.state)
    ensures res.Some? ==> Below16MiB(res.value.dma.blocks) && From16MiB(res.value.high.blocks)
    ensures res.Some? ==>
              AllFree(sparse.frames.r.state, res.value.dma.blocks, res.value.high.blocks) &&
              res.value.dma.freePages + res.value.high.freePages == |UsableFrames(sparse.frames.r.state)|
  {
    assert DMA_LIMIT_PFN > 0;
    hide *;
    var maxPfn := sparse.cachedMaxPfn;
    if maxPfn == 0 || DMA_LIMIT_PFN > maxPfn {
      return None;
    }
    UsableBelow(sparse);
    var dma, high := BuildZones(sparse, maxPfn);
    var mgr := new ZonesManager(sparse.frames, dma, high);
    IntroManager(mgr);
    ZonesLie(mgr);
    return Some(mgr);
  }
}
