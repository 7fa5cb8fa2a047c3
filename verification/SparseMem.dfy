/** The sparse frame table: one record per page frame of every 128 MiB section
    that holds memory, built at boot in a range taken from that memory itself. */
module SparseMemory {
  import opened Align
  import opened BumpAllocator
  import opened Dyadic
  import opened Frames
  import opened Geometry
  import Regions
  import opened MemblockTable

  const MEMSECTION_BYTES: nat := 16
  const FRAME_BYTES: nat := 24
  const FRAME_ALIGN: nat := 8
  const SECTION_BYTES: nat := PAGES_PER_SECTION * FRAME_BYTES

  /** A non-null address at which a record may start. */
  predicate RecordAddress(a: nat) {
    a % FRAME_ALIGN == 0 && a > 0
  }

  /** Where the records of a section are kept. */
  datatype Memsection = Memsection(frames: nat, present: bool)

  predicate PresentAt(sections: seq<Memsection>, s: nat) {
    s < |sections| && sections[s].present
  }

  ghost function PresentSet(sections: seq<Memsection>): set<nat> {
    set s | 0 <= s < |sections| && sections[s].present
  }

  /** The record arrays of the present sections lie in [lo, hi) and do not overlap. */
  ghost predicate Placed(sections: seq<Memsection>, lo: nat, hi: nat) {
    && (forall s: nat :: PresentAt(sections, s) ==>
          lo <= sections[s].frames && sections[s].frames + SECTION_BYTES <= hi)
    && (forall s: nat, t: nat :: s < t && PresentAt(sections, s) && PresentAt(sections, t) ==>
          sections[s].frames + SECTION_BYTES <= sections[t].frames ||
          sections[t].frames + SECTION_BYTES <= sections[s].frames)
  }

  /** `Frame::absent`, but for the state. */
  ghost predicate BlankRecord(r: Records, p: nat) {
    && (p in r.order ==> r.order[p] == 0) && (p in r.tag ==> r.tag[p] == Tag.Unused)
    && (p in r.zone ==> r.zone[p] == Normal)
    && (p in r.next ==> r.next[p] == INVALID_PFN) && (p in r.prev ==> r.prev[p] == INVALID_PFN)
  }

  ghost predicate AllBlank(r: Records) {
    forall p: nat :: BlankRecord(r, p)
  }

  function AddAbsent(r: Records, p: nat): Records {
    Records(r.state[p := Absent], r.order[p := 0], r.tag[p := Tag.Unused], r.zone[p := Normal],
            r.next[p := INVALID_PFN], r.prev[p := INVALID_PFN])
  }

  /** The frames [lo, hi) join the table as absent. */
  ghost predicate StatesAdded(m: map<nat, FrameState>, m': map<nat, FrameState>, lo: nat, hi: nat) {
    && (forall p: nat {:trigger p in m'} :: p in m' <==> p in m || lo <= p < hi)
    && (forall p: nat {:trigger m'[p]} :: p in m' ==> m'[p] == if lo <= p < hi then Absent else m[p])
  }

  /** The frames of [lo, hi) that are in the table take a state; frames that were
      not in the table before are absent. */
  ghost predicate StatesMarked(m: map<nat, FrameState>, m': map<nat, FrameState>, lo: nat, hi: nat, st: FrameState) {
    && (forall p: nat {:trigger p in m'} :: p in m ==> p in m')
    && (forall p: nat {:trigger m'[p]} :: p in m' ==>
          m'[p] == if lo <= p < hi then st else if p in m then m[p] else Absent)
  }

  /** The sections of the pages [lo, hi) are in the table too. */
  ghost predicate SectionsAdded(a: seq<Memsection>, b: seq<Memsection>, lo: nat, hi: nat) {
    && |b| == |a|
    && forall s: nat :: s < |a| ==>
         (a[s].present ==> b[s] == a[s]) &&
         (b[s].present <==> a[s].present || (lo < hi && SectionOf(lo) <= s <= SectionOf(hi - 1)))
  }

  /** Each added section took its bytes at the end of what was in use. */
  ghost predicate Charged(a: seq<Memsection>, n: nat, b: seq<Memsection>, n': nat) {
    && n <= n' == n + SECTION_BYTES * (|PresentSet(b)| - |PresentSet(a)|)
    && (forall lo: nat {:trigger Placed(a, lo, n)} :: lo <= n && Placed(a, lo, n) ==> Placed(b, lo, n'))
  }

  /** Exactly the frames of present sections are in the table. */
  ghost predicate TableOf(sections: seq<Memsection>, m: map<nat, FrameState>) {
    forall p: nat :: p in m <==> PresentAt(sections, SectionOf(p))
  }

  ghost predicate LastPresent(sections: seq<Memsection>, last: nat) {
    && (sections != [] ==> last < |sections|)
    && (forall s: nat :: PresentAt(sections, s) ==> s <= last)
  }

  /** No further section fits. */
  ghost predicate Exhausted(bump: Bump)
    reads bump
  {
    bump.next + SECTION_BYTES > bump.end
  }

  class SparseMem {
    var sections: seq<Memsection>
    var maxPresentSec: nat
    var cachedMaxPfn: nat
    const frames: FrameTable

    constructor (frames: FrameTable)
      ensures this.frames == frames && sections == [] && maxPresentSec == 0 && cachedMaxPfn == 0
    {
      this.frames := frames;
      sections, maxPresentSec, cachedMaxPfn := [], 0, 0;
    }

    ghost predicate Valid()
      reads this, frames
    {
      && Complete(frames.r)
      && TableOf(sections, frames.r.state)
      && LastPresent(sections, maxPresentSec)
    }

    /** Only the frame states matter. */
    twostate lemma Unmoved()
      requires old(Valid()) && unchanged(this) && Complete(frames.r) && frames.r.state == old(frames.r.state)
      ensures Valid() && States() == old(States())
    {
    }

    ghost function States(): map<nat, FrameState>
      reads this, frames
    {
      frames.r.state
    }

    /** Writes an absent record for every frame of a section. */
    method WriteAbsent(base: nat)
      requires Complete(frames.r) && AllBlank(frames.r) && base + PAGES_PER_SECTION <= INVALID_PFN
      modifies frames
      ensures Complete(frames.r) && AllBlank(frames.r)
      ensures StatesAdded(old(frames.r.state), frames.r.state, base, base + PAGES_PER_SECTION)
    {
      hide *;
      AddedNone(frames.r.state, base);
      var i: nat := 0;
      while i < PAGES_PER_SECTION
        invariant i <= PAGES_PER_SECTION && Complete(frames.r) && AllBlank(frames.r)
        invariant StatesAdded(old(frames.r.state), frames.r.state, base, base + i)
      {
        AddAbsentBlank(frames.r, base + i);
        AddAbsentState(old(frames.r.state), frames.r, base, base + i);
        frames.r := AddAbsent(frames.r, base + i);
        i := i + 1;
      }
    }

    /** `ensure_section`: ok is false where the source panics for want of room. */
    method EnsureSection(bump: Bump, sec: nat) returns (ok: bool)
      requires Valid() && AllBlank(frames.r) && SectionBase(|sections|) <= INVALID_PFN
      requires RecordAddress(bump.next)
      modifies this, frames, bump
      ensures ok <==> sec >= |old(sections)| || old(sections)[sec].present || old(bump.next) + SECTION_BYTES <= bump.end
      ensures Valid() && AllBlank(frames.r)
      ensures ok && sec < |old(sections)| && !old(sections)[sec].present ==>
              sections == old(sections)[sec := Memsection(old(bump.next), true)] &&
              bump.next == old(bump.next) + SECTION_BYTES &&
              StatesAdded(old(frames.r.state), frames.r.state, SectionBase(sec), SectionBase(sec + 1))
      ensures !ok || sec >= |old(sections)| || old(sections)[sec].present ==>
              sections == old(sections) && frames.r == old(frames.r) && bump.next == old(bump.next)
      ensures cachedMaxPfn == old(cachedMaxPfn)
    {
      hide Complete, AllBlank, StatesAdded, TableOf, LastPresent, AlignUp, IsPowerOfTwo, Aligned, Pow2;
      if sec >= |sections| {
        return true;
      }
      if sections[sec].present {
        return true;
      }
      EightIsAligned(bump.next);
      var ptr := bump.Alloc(PAGES_PER_SECTION * FRAME_BYTES, FRAME_ALIGN);
      if ptr.None? {
        assert old(bump.next) + SECTION_BYTES > bump.end;
        return false;
      }
      EightDivides(ptr.value);
      assert ptr.value == old(bump.next);
      WriteAbsent(SectionBase(sec));
      AddedSection(sections, old(frames.r.state), frames.r.state, sec, ptr.value);
      AddedLast(sections, maxPresentSec, sec, ptr.value);
      sections := sections[sec := Memsection(ptr.value, true)];
      if sec > maxPresentSec {
        maxPresentSec := sec;
      }
      return true;
    }

    /** What every step of building the table keeps. */
    ghost predicate Ready(bump: Bump)
      reads this, frames, bump
    {
      && Valid() && AllBlank(frames.r) && SectionBase(|sections|) <= INVALID_PFN
      && RecordAddress(bump.next) && bump.next <= bump.end
    }

    /** Gives the frames [lo, hi) of the table a state. */
    method MarkChunk(lo: nat, hi: nat, st: FrameState)
      requires lo <= hi && Complete(frames.r) && AllBlank(frames.r)
      requires forall p: nat :: lo <= p < hi ==> p in frames.r.state
      modifies frames
      ensures Complete(frames.r) && AllBlank(frames.r) && frames.r.state.Keys == old(frames.r.state.Keys)
      ensures StatesMarked(old(frames.r.state), frames.r.state, lo, hi, st)
    {
      var p := lo;
      while p < hi
        invariant lo <= p <= hi && frames.r == old(frames.r).(state := frames.r.state)
        invariant frames.r.state.Keys == old(frames.r.state.Keys)
        invariant StatesMarked(old(frames.r.state), frames.r.state, lo, p, st)
      {
        frames.r := frames.r.(state := frames.r.state[p := st]);
        p := p + 1;
      }
      OnlyStates(old(frames.r), frames.r.state);
    }

    /** `mark_range`: gives the frames that meet the bytes [base, end) a state,
        first adding their sections when asked to. When room for a section runs
        out, which the source answers with a panic, `short` is the frame whose
        section could not be added. */
    method MarkRange(bump: Bump, base: nat, end: nat, st: FrameState, create: bool)
      returns (ok: bool, ghost short: nat)
      requires Ready(bump)
      modifies this, frames, bump
      ensures Ready(bump) && |sections| == |old(sections)| && cachedMaxPfn == old(cachedMaxPfn)
      ensures Charged(old(sections), old(bump.next), sections, bump.next)
      ensures !create ==> ok && sections == old(sections) && bump.next == old(bump.next)
      ensures ok && base < end ==>
              StatesMarked(old(frames.r.state), frames.r.state, PageOf(base), PageEnd(end), st) &&
              SectionsAdded(old(sections), sections, PageOf(base), if create then PageEnd(end) else PageOf(base))
      ensures ok && base >= end ==> sections == old(sections) && frames.r == old(frames.r)
      ensures !ok ==> Exhausted(bump) && create && base < end && PageOf(base) <= short < PageEnd(end)
      ensures !ok ==> SectionsAdded(old(sections), sections, PageOf(base), short)
      ensures !ok ==> SectionOf(short) < |sections| && !PresentAt(sections, SectionOf(short))
    {
      hide Complete, AllBlank, TableOf, LastPresent, StatesMarked, StatesAdded, SectionsAdded, Charged,
        SectionOf, SectionBase, PageOf, PageEnd, RecordAddress;
      short := 0;
      PagesOfRange(base, end);
      ChargedNothing(sections, bump.next);
      if base >= end {
        return true, 0;
      }
      var startPfn, endPfn := PageOf(base), PageEnd(end);
      var pfn := startPfn;
      MarkedNothing(sections, frames.r.state, startPfn, st);
      while pfn < endPfn
        invariant startPfn <= pfn <= endPfn
        invariant pfn == startPfn || pfn == endPfn || pfn == SectionBase(SectionOf(pfn))
        invariant Ready(bump) && cachedMaxPfn == old(cachedMaxPfn) && |sections| == |old(sections)|
        invariant Charged(old(sections), old(bump.next), sections, bump.next)
        invariant StatesMarked(old(frames.r.state), frames.r.state, startPfn, pfn, st)
        invariant SectionsAdded(old(sections), sections, startPfn, if create then pfn else startPfn)
        invariant !create ==> sections == old(sections) && bump.next == old(bump.next)
      {
        var sec := SectionOf(pfn);
        SectionBounds(pfn);
        if sec >= |sections| {
          OffTheTable(sections, frames.r.state, pfn, endPfn);
          MarkedAbsent(old(frames.r.state), frames.r.state, startPfn, pfn, endPfn, st);
          if create {
            AddedBeyond(old(sections), sections, startPfn, pfn, endPfn);
          }
          return true, 0;
        }
        var chunkEnd := if endPfn < SectionBase(sec + 1) then endPfn else SectionBase(sec + 1);
        if create {
          ghost var m, a, n := frames.r.state, sections, bump.next;
          ok := EnsureSection(bump, sec);
          if !ok {
            return false, pfn;
          }
          if !a[sec].present {
            SectionKeepsEight(n);
            OffTheTable(a, m, SectionBase(sec), SectionBase(sec + 1));
            MarkedAdded(old(frames.r.state), m, frames.r.state, startPfn, pfn, st, sec);
            ChargedOne(old(sections), old(bump.next), a, n, sec);
          }
          AddedStep(old(sections), a, sections, startPfn, pfn, chunkEnd);
        }
        ghost var m := frames.r.state;
        if sections[sec].present {
          OnTheTable(sections, m, pfn, chunkEnd);
          MarkChunk(pfn, chunkEnd, st);
          MarkedChunk(old(frames.r.state), m, frames.r.state, startPfn, pfn, chunkEnd, st);
          TableOfKeys(sections, m, frames.r.state);
        } else {
          OffTheTable(sections, m, pfn, chunkEnd);
          MarkedAbsent(old(frames.r.state), m, startPfn, pfn, chunkEnd, st);
        }
        pfn := chunkEnd;
      }
      return true, 0;
    }

    /** Adds and marks the frames of every memory region. */
    method MarkMemory(bump: Bump, memblock: Memblock) returns (ok: bool)
      requires Ready(bump) && memblock.Valid() && forall s: nat :: !PresentAt(sections, s)
      modifies this, frames, bump
      ensures Ready(bump) && |sections| == |old(sections)| && cachedMaxPfn == old(cachedMaxPfn)
      ensures Charged(old(sections), old(bump.next), sections, bump.next)
      ensures ok ==> PresentIn(sections, memblock.Mem()) && AfterMemory(memblock.Mem(), frames.r.state)
      ensures !ok ==> Exhausted(bump) && |PresentSet(sections)| < |Touched(memblock.Mem(), |sections|)|
    {
      hide Complete, AllBlank, TableOf, LastPresent, StatesMarked, SectionsAdded, Charged, PresentIn, AfterMemory,
        Exhausted, Touched, PresentSet, SectionOf, SectionBase, PageOf, PageEnd, RecordAddress,
        Regions.AllSized, Regions.AllUsable;
      ghost var mem := memblock.Mem();
      MeetsNothing(frames.r.state, sections);
      ChargedNothing(sections, bump.next);
      assert mem[..0] == [];
      var k := 0;
      while k < memblock.memCnt
        invariant k <= memblock.memCnt == |mem| && memblock.memory.Length == MAX_REGIONS
        invariant Ready(bump) && |sections| == |old(sections)| && cachedMaxPfn == old(cachedMaxPfn)
        invariant Charged(old(sections), old(bump.next), sections, bump.next)
        invariant PresentIn(sections, mem[..k]) && AfterMemory(mem[..k], frames.r.state)
      {
        var r := memblock.memory[k];
        ghost var a, m, n := sections, frames.r.state, bump.next;
        assert mem[..k + 1] == mem[..k] + [r] && r == mem[k];
        UsableSized(mem, k);
        if r.kind == Regions.Usable && r.size != 0 {
          ghost var short;
          ok, short := MarkRange(bump, r.base, Regions.End(r), Usable, true);
          ChargedTwice(old(sections), old(bump.next), a, n, sections, bump.next);
          if !ok {
            ShortOfRoom(a, sections, mem, k, short);
            return;
          }
          PresentStep(a, sections, mem[..k], r);
          MemoryStep(a, sections, m, frames.r.state, mem[..k], r);
        } else {
          EmptyRegion(mem[..k], r);
          SameMeeting(sections, m, mem[..k], mem[..k + 1]);
        }
        k := k + 1;
      }
      assert mem[..k] == mem;
      return true;
    }

    /** Marks the frames that meet a reserved region, in sections that are there. */
    method MarkReserved(bump: Bump, memblock: Memblock)
      requires Ready(bump) && memblock.Valid() && AfterMemory(memblock.Mem(), frames.r.state)
      modifies this, frames, bump
      ensures Ready(bump) && sections == old(sections) && bump.next == old(bump.next)
      ensures AfterReserved(memblock.Mem(), memblock.Res(), frames.r.state)
    {
      hide Complete, AllBlank, TableOf, LastPresent, StatesMarked, SectionsAdded, Charged, AfterMemory, AfterReserved,
        Exhausted, SectionOf, SectionBase, PageOf, PageEnd, RecordAddress, Regions.AllSized, Regions.AllUsable;
      ghost var mem, res := memblock.Mem(), memblock.Res();
      ReservedNothing(mem, frames.r.state);
      assert res[..0] == [];
      var k := 0;
      while k < memblock.resCnt
        invariant k <= memblock.resCnt == |res| && memblock.reserved.Length == MAX_REGIONS
        invariant Ready(bump) && sections == old(sections) && bump.next == old(bump.next)
        invariant AfterReserved(mem, res[..k], frames.r.state)
      {
        var r := memblock.reserved[k];
        ghost var m := frames.r.state;
        assert res[..k + 1] == res[..k] + [r] && r == res[k];
        SizedAt(res, k);
        if r.size != 0 {
          ghost var short;
          var ok;
          ok, short := MarkRange(bump, r.base, Regions.End(r), Reserved, false);
          SameKeys(sections, m, frames.r.state);
          ReservedStep(mem, res[..k], r, m, frames.r.state);
        } else {
          EmptyRegion(res[..k], r);
          SameReserved(mem, res[..k], res[..k + 1], m);
        }
        k := k + 1;
      }
      assert res[..k] == res;
    }

    /** One past the last frame of the section that is not absent, or 0. */
    method LastInSection(sec: nat) returns (e: nat)
      requires Valid() && PresentAt(sections, sec)
      ensures LastIn(frames.r.state, SectionBase(sec), SectionBase(sec + 1), e)
    {
      hide Complete, LastPresent, TableOf;
      var base := SectionBase(sec);
      OnTheTable(sections, frames.r.state, base, SectionBase(sec + 1));
      var i := PAGES_PER_SECTION;
      while i > 0
        invariant i <= PAGES_PER_SECTION
        invariant forall p: nat :: base + i <= p < SectionBase(sec + 1) && p in frames.r.state ==>
                    frames.r.state[p] == Absent
      {
        i := i - 1;
        if frames.r.state[base + i] != Absent {
          return base + i + 1;
        }
      }
      return 0;
    }

    method ComputeMaxPresentPfn() returns (max: nat)
      requires Valid()
      ensures LastIn(frames.r.state, 0, SectionBase(|sections|), max)
      ensures forall p: nat :: p in frames.r.state ==> p < SectionBase(|sections|)
    {
      hide LastIn, Complete, LastPresent, TableOf, SectionOf;
      BelowTable(sections, frames.r.state);
      LastInNothing(frames.r.state);
      max := 0;
      var sec := 0;
      while sec < |sections|
        invariant sec <= |sections| && LastIn(frames.r.state, 0, SectionBase(sec), max)
      {
        var e := 0;
        if sections[sec].present {
          e := LastInSection(sec);
        } else {
          AbsentSection(sections, frames.r.state, sec);
        }
        LastInNext(frames.r.state, SectionBase(sec), SectionBase(sec + 1), max, e);
        if e > max {
          max := e;
        }
        sec := sec + 1;
      }
    }

    /** `init_from_memblock`: ok is false where the source panics for want of room. */
    method InitFromMemblock(bump: Bump, memblock: Memblock) returns (ok: bool)
      requires sections == [] && maxPresentSec == 0 && frames.r == NO_FRAMES && memblock.Valid() && bump.next > 0
      modifies this, frames, bump
      ensures ok <==>
                MaxEnd(memblock.Raw()) == 0 || RoomNeeded(old(bump.next), memblock.Raw(), memblock.Mem()) <= bump.end
      ensures ok ==> Valid() && AllBlank(frames.r)
      ensures ok ==> Placed(sections, TableEnd(old(bump.next), memblock.Raw()), bump.end)
      ensures ok ==> UsableIs(frames.r.state, memblock.Mem(), memblock.Res())
      ensures ok ==> StatesAre(frames.r.state, memblock.Mem(), memblock.Res())
      ensures ok ==> |sections| == SectionCount(MaxEnd(memblock.Raw())) && PresentIn(sections, memblock.Mem())
      ensures ok ==> LastIn(frames.r.state, 0, SectionBase(|sections|), cachedMaxPfn)
    {
      hide Complete, AllBlank, TableOf, LastPresent, Charged, PresentIn, AfterMemory, AfterReserved, LastIn, Placed,
        Touched, PresentSet, SectionOf, SectionBase, PageOf, PageEnd, RecordAddress, UsableIs, StatesAre, AlignUp,
        IsPowerOfTwo, Aligned, Pow2, SectionCount, MaxEnd, MemoryEnd, Rooted, Regions.AllSized, Regions.AllUsable;
      ghost var raw, mem, res := memblock.Raw(), memblock.Mem(), memblock.Res();
      cachedMaxPfn := 0;
      var maxPhys := memblock.MaxPhysAddr();
      if maxPhys == 0 {
        NoMemory(bump.next, bump.end, raw, mem, res);
        return true;
      }
      var count := SectionCount(maxPhys);
      EightIsAligned(bump.next);
      var ptr := bump.Alloc(count * MEMSECTION_BYTES, FRAME_ALIGN);
      SectionCountPositive(maxPhys);
      if ptr.None? {
        return false;
      }
      sections := seq(count, _ => Memsection(0, false));
      EmptyTable(sections, ptr.value, bump.next);
      ghost var a, n := sections, bump.next;
      ok := MarkMemory(bump, memblock);
      ChargedFrom(a, n, sections, bump.next);
      if !ok {
        OutOfRoom(sections, mem, n, bump.next, bump.end);
        return;
      }
      AllTouched(sections, mem);
      PlacedWiden(sections, n, bump.next, bump.end);
      MarkReserved(bump, memblock);
      Built(sections, frames.r.state, raw, mem, res);
      cachedMaxPfn := ComputeMaxPresentPfn();
    }
  }

  lemma SectionKeepsEight(n: nat)
    requires RecordAddress(n)
    ensures RecordAddress(n + SECTION_BYTES)
  {
  }

  // Marking all regions.

  /** Exactly the sections that meet the regions are present. */
  ghost predicate PresentIn(sections: seq<Memsection>, mem: seq<Regions.Region>) {
    forall s: nat :: s < |sections| ==> (PresentAt(sections, s) <==> MeetsSection(mem, s))
  }

  ghost predicate AfterMemory(mem: seq<Regions.Region>, m: map<nat, FrameState>) {
    forall p: nat :: p in m ==> m[p] == if MeetsPage(mem, p) then Usable else Absent
  }

  ghost predicate AfterReserved(mem: seq<Regions.Region>, res: seq<Regions.Region>, m: map<nat, FrameState>) {
    forall p: nat :: p in m ==>
      m[p] == if MeetsPage(res, p) then Reserved else if MeetsPage(mem, p) then Usable else Absent
  }

  /** The sections below n that meet the regions. */
  ghost function Touched(mem: seq<Regions.Region>, n: nat): set<nat> {
    set s: nat | s < n && MeetsSection(mem, s)
  }

  lemma SectionsOfRegion(r: Regions.Region, s: nat)
    requires r.base < Regions.End(r)
    ensures RegionMeetsSection(r, s) <==>
            SectionOf(PageOf(r.base)) <= s <= SectionOf(PageEnd(Regions.End(r)) - 1)
  {
    SectionOfByte(r.base);
    SectionOfByte(Regions.End(r) - 1);
    assert PageEnd(Regions.End(r)) - 1 == PageOf(Regions.End(r) - 1);
  }

  lemma PresentStep(a: seq<Memsection>, b: seq<Memsection>, mem: seq<Regions.Region>, r: Regions.Region)
    requires PresentIn(a, mem) && r.base < Regions.End(r)
    requires SectionsAdded(a, b, PageOf(r.base), PageEnd(Regions.End(r)))
    ensures PresentIn(b, mem + [r])
  {
    PagesOfRange(r.base, Regions.End(r));
    forall s: nat | s < |b| ensures PresentAt(b, s) <==> MeetsSection(mem + [r], s) {
      MeetsSectionStep(mem, r, s);
      SectionsOfRegion(r, s);
      assert PresentAt(a, s) <==> MeetsSection(mem, s);
    }
  }

  lemma MemoryStep(a: seq<Memsection>, b: seq<Memsection>, m: map<nat, FrameState>, m': map<nat, FrameState>,
                   mem: seq<Regions.Region>, r: Regions.Region)
    requires PresentIn(a, mem) && TableOf(a, m) && TableOf(b, m') && |a| == |b| && AfterMemory(mem, m)
    requires r.base < Regions.End(r) && StatesMarked(m, m', PageOf(r.base), PageEnd(Regions.End(r)), Usable)
    ensures AfterMemory(mem + [r], m')
  {
    forall p: nat | p in m' ensures m'[p] == if MeetsPage(mem + [r], p) then Usable else Absent {
      MeetsPageStep(mem, r, p);
      if MeetsPage(mem, p) {
        PageInSection(mem, p);
        assert PresentAt(b, SectionOf(p));
        assert PresentAt(a, SectionOf(p));
      }
    }
  }

  lemma ReservedStep(mem: seq<Regions.Region>, res: seq<Regions.Region>, r: Regions.Region,
                     m: map<nat, FrameState>, m': map<nat, FrameState>)
    requires AfterReserved(mem, res, m) && m'.Keys == m.Keys
    requires r.base < Regions.End(r) && StatesMarked(m, m', PageOf(r.base), PageEnd(Regions.End(r)), Reserved)
    ensures AfterReserved(mem, res + [r], m')
  {
    forall p: nat | p in m'
      ensures m'[p] == if MeetsPage(res + [r], p) then Reserved else if MeetsPage(mem, p) then Usable else Absent
    {
      MeetsPageStep(res, r, p);
      assert p in m.Keys;
    }
  }

  /** A region without bytes meets nothing. */
  lemma EmptyRegion(mem: seq<Regions.Region>, r: Regions.Region)
    requires r.base >= Regions.End(r)
    ensures forall p: nat :: MeetsPage(mem + [r], p) <==> MeetsPage(mem, p)
    ensures forall s: nat :: MeetsSection(mem + [r], s) <==> MeetsSection(mem, s)
  {
    forall p: nat ensures MeetsPage(mem + [r], p) <==> MeetsPage(mem, p) {
      MeetsPageStep(mem, r, p);
    }
    forall s: nat ensures MeetsSection(mem + [r], s) <==> MeetsSection(mem, s) {
      MeetsSectionStep(mem, r, s);
    }
  }

  lemma MeetsNothing(m: map<nat, FrameState>, sections: seq<Memsection>)
    requires TableOf(sections, m) && forall s: nat :: !PresentAt(sections, s)
    ensures PresentIn(sections, []) && AfterMemory([], m)
  {
  }

  lemma UsableSized(mem: seq<Regions.Region>, k: nat)
    requires Regions.AllSized(mem) && Regions.AllUsable(mem) && k < |mem|
    ensures mem[k].kind == Regions.Usable && (mem[k].size > 0 <==> mem[k].base < Regions.End(mem[k]))
  {
    assert mem[k] in mem;
  }

  lemma SameMeeting(sections: seq<Memsection>, m: map<nat, FrameState>, mem: seq<Regions.Region>,
                    mem': seq<Regions.Region>)
    requires PresentIn(sections, mem) && AfterMemory(mem, m)
    requires forall p: nat :: MeetsPage(mem', p) <==> MeetsPage(mem, p)
    requires forall s: nat :: MeetsSection(mem', s) <==> MeetsSection(mem, s)
    ensures PresentIn(sections, mem') && AfterMemory(mem', m)
  {
  }

  lemma ChargedTwice(a: seq<Memsection>, n: nat, b: seq<Memsection>, k: nat, c: seq<Memsection>, l: nat)
    requires Charged(a, n, b, k) && Charged(b, k, c, l)
    ensures Charged(a, n, c, l)
  {
  }

  lemma PrefixMeets(mem: seq<Regions.Region>, k: nat, s: nat)
    requires k <= |mem| && MeetsSection(mem[..k], s)
    ensures MeetsSection(mem, s)
  {
    var x: nat :| Regions.Covers(mem[..k], x) && ByteSection(x) == s;
    Regions.CoversConcat(mem[..k], mem[k..], x);
    assert mem == mem[..k] + mem[k..];
  }

  /** The section that found no room makes one touched section more than there are
      present ones. */
  lemma ShortOfRoom(a: seq<Memsection>, b: seq<Memsection>, mem: seq<Regions.Region>, k: nat, short: nat)
    requires k < |mem| && PresentIn(a, mem[..k]) && mem[k].base < Regions.End(mem[k])
    requires SectionsAdded(a, b, PageOf(mem[k].base), short)
    requires PageOf(mem[k].base) <= short < PageEnd(Regions.End(mem[k]))
    requires SectionOf(short) < |b| && !PresentAt(b, SectionOf(short))
    ensures |PresentSet(b)| < |Touched(mem, |b|)|
  {
    var r, sec := mem[k], SectionOf(short);
    assert mem[..k + 1] == mem[..k] + [r];
    forall s: nat | s < |b| && (b[s].present || s == sec) ensures MeetsSection(mem, s) {
      SectionsOfRegion(r, s);
      MeetsSectionStep(mem[..k], r, s);
      assert SectionOf(short) <= SectionOf(PageEnd(Regions.End(r)) - 1);
      assert PageOf(r.base) < short ==> SectionOf(short - 1) <= SectionOf(short);
      assert PresentAt(a, s) ==> MeetsSection(mem[..k], s);
      PrefixMeets(mem, k + 1, s);
    }
    assert PresentSet(b) + {sec} <= Touched(mem, |b|);
    SubsetCard(PresentSet(b) + {sec}, Touched(mem, |b|));
  }

  lemma {:induction false} SubsetCard(a: set<nat>, b: set<nat>)
    requires a <= b
    ensures |a| <= |b|
    decreases |a|
  {
    if a != {} {
      var x :| x in a;
      SubsetCard(a - {x}, b - {x});
    }
  }

  lemma SizedAt(res: seq<Regions.Region>, k: nat)
    requires Regions.AllSized(res) && k < |res|
    ensures res[k].size > 0 <==> res[k].base < Regions.End(res[k])
  {
    assert res[k] in res;
  }

  lemma ReservedNothing(mem: seq<Regions.Region>, m: map<nat, FrameState>)
    requires AfterMemory(mem, m)
    ensures AfterReserved(mem, [], m)
  {
  }

  lemma SameReserved(mem: seq<Regions.Region>, res: seq<Regions.Region>, res': seq<Regions.Region>,
                     m: map<nat, FrameState>)
    requires AfterReserved(mem, res, m) && forall p: nat :: MeetsPage(res', p) <==> MeetsPage(res, p)
    ensures AfterReserved(mem, res', m)
  {
  }

  lemma SameKeys(sections: seq<Memsection>, m: map<nat, FrameState>, m': map<nat, FrameState>)
    requires TableOf(sections, m) && TableOf(sections, m')
    ensures m'.Keys == m.Keys
  {
    assert forall p: nat :: p in m' <==> p in m;
  }

  // The end of the frames that are not absent.

  /** e is one past the last frame of [lo, hi) that is not absent, or 0. */
  ghost predicate LastIn(m: map<nat, FrameState>, lo: nat, hi: nat, e: nat) {
    && (e == 0 || (lo < e <= hi && e - 1 in m && m[e - 1] != Absent))
    && forall p: nat :: lo <= p < hi && p in m && m[p] != Absent ==> p < e
  }

  lemma BelowTable(sections: seq<Memsection>, m: map<nat, FrameState>)
    requires TableOf(sections, m)
    ensures forall p: nat :: p in m ==> p < SectionBase(|sections|)
  {
    forall p: nat | p in m ensures p < SectionBase(|sections|) {
      assert PresentAt(sections, SectionOf(p));
    }
  }

  lemma LastInNothing(m: map<nat, FrameState>)
    ensures LastIn(m, 0, SectionBase(0), 0)
  {
  }

  lemma AbsentSection(sections: seq<Memsection>, m: map<nat, FrameState>, sec: nat)
    requires TableOf(sections, m) && !PresentAt(sections, sec)
    ensures LastIn(m, SectionBase(sec), SectionBase(sec + 1), 0)
  {
    OffTheTable(sections, m, SectionBase(sec), SectionBase(sec + 1));
  }

  lemma LastInNext(m: map<nat, FrameState>, mid: nat, hi: nat, e: nat, f: nat)
    requires LastIn(m, 0, mid, e) && LastIn(m, mid, hi, f) && mid <= hi
    ensures LastIn(m, 0, hi, if f > e then f else e)
  {
  }

  // The whole table.

  const NO_FRAMES: Records := Records(map[], map[], map[], map[], map[], map[])

  /** `section_count_from_max_phys`. */
  function SectionCount(maxPhys: nat): nat {
    if maxPhys == 0 then 0 else ByteSection(maxPhys - 1) + 1
  }

  /** Where the section table ends when the room starts at next. */
  ghost function TableEnd(next: nat, raw: seq<Regions.Region>): nat {
    AlignUp(next, FRAME_ALIGN) + SectionCount(MaxEnd(raw)) * MEMSECTION_BYTES
  }

  /** Where the last record ends. */
  ghost function RoomNeeded(next: nat, raw: seq<Regions.Region>, mem: seq<Regions.Region>): nat {
    TableEnd(next, raw) + SECTION_BYTES * |Touched(mem, SectionCount(MaxEnd(raw)))|
  }

  /** A frame is usable exactly when its page meets some memory region and no
      reserved one. */
  ghost predicate UsableIs(m: map<nat, FrameState>, mem: seq<Regions.Region>, res: seq<Regions.Region>) {
    forall p: nat :: UsableAt(m, p) <==> MeetsPage(mem, p) && !MeetsPage(res, p)
  }

  /** A frame has a record exactly when its section meets memory, and its state says
      whether its page meets a reserved region, or else memory. */
  ghost predicate StatesAre(m: map<nat, FrameState>, mem: seq<Regions.Region>, res: seq<Regions.Region>) {
    AfterReserved(mem, res, m) && forall p: nat :: p in m <==> MeetsSection(mem, SectionOf(p))
  }

  lemma SectionCountPositive(maxPhys: nat)
    requires 0 < maxPhys <= Regions.U64_MAX
    ensures SectionCount(maxPhys) > 0 && SectionBase(SectionCount(maxPhys)) <= INVALID_PFN
  {
  }

  lemma NoMemory(next: nat, end: nat, raw: seq<Regions.Region>, mem: seq<Regions.Region>, res: seq<Regions.Region>)
    requires MemoryEnd(raw, 0) && Rooted(mem, raw) && MaxEnd(raw) == 0
    ensures SectionCount(MaxEnd(raw)) == 0
    ensures Complete(NO_FRAMES) && AllBlank(NO_FRAMES) && TableOf([], NO_FRAMES.state) && LastPresent([], 0)
    ensures Placed([], TableEnd(next, raw), end) && UsableIs(NO_FRAMES.state, mem, res) && PresentIn([], mem)
    ensures StatesAre(NO_FRAMES.state, mem, res)
    ensures LastIn(NO_FRAMES.state, 0, SectionBase(0), 0)
  {
  }

  lemma EmptyTable(sections: seq<Memsection>, ptr: nat, next: nat)
    requires sections != [] && (forall s: nat :: s < |sections| ==> !sections[s].present)
    requires ptr % FRAME_ALIGN == 0 && ptr > 0 && next == ptr + |sections| * MEMSECTION_BYTES
    ensures Complete(NO_FRAMES) && AllBlank(NO_FRAMES) && TableOf(sections, NO_FRAMES.state) && LastPresent(sections, 0)
    ensures forall s: nat :: !PresentAt(sections, s)
    ensures RecordAddress(next) && Placed(sections, next, next) && PresentSet(sections) == {}
  {
    AfterHeaders(ptr, |sections|);
    hide RecordAddress;
    assert forall s: nat :: !PresentAt(sections, s);
    NoRecords(sections, next);
    hide PresentAt, Placed, PresentSet, SectionOf;
  }

  lemma AfterHeaders(ptr: nat, n: nat)
    requires ptr % FRAME_ALIGN == 0 && ptr > 0
    ensures RecordAddress(ptr + n * MEMSECTION_BYTES)
  {
    var q := ptr / FRAME_ALIGN;
    assert ptr == FRAME_ALIGN * q;
    assert ptr + n * MEMSECTION_BYTES == FRAME_ALIGN * (q + 2 * n);
  }

  /** Before the first section is present there are no records. */
  lemma NoRecords(sections: seq<Memsection>, next: nat)
    requires forall s: nat :: !PresentAt(sections, s)
    ensures Placed(sections, next, next) && PresentSet(sections) == {}
  {
    forall s | s in PresentSet(sections) ensures false {
      assert PresentAt(sections, s);
    }
  }

  lemma ChargedFrom(a: seq<Memsection>, n: nat, b: seq<Memsection>, n': nat)
    requires Charged(a, n, b, n') && Placed(a, n, n) && PresentSet(a) == {}
    ensures n' == n + SECTION_BYTES * |PresentSet(b)| && Placed(b, n, n')
  {
  }

  lemma OutOfRoom(sections: seq<Memsection>, mem: seq<Regions.Region>, n: nat, next: nat, end: nat)
    requires |PresentSet(sections)| < |Touched(mem, |sections|)| && next + SECTION_BYTES > end
    requires next == n + SECTION_BYTES * |PresentSet(sections)|
    ensures n + SECTION_BYTES * |Touched(mem, |sections|)| > end
  {
  }

  lemma AllTouched(sections: seq<Memsection>, mem: seq<Regions.Region>)
    requires PresentIn(sections, mem)
    ensures PresentSet(sections) == Touched(mem, |sections|)
  {
    forall s: nat ensures s in PresentSet(sections) <==> s in Touched(mem, |sections|) {
      assert PresentAt(sections, s) <==> s in PresentSet(sections);
    }
  }

  lemma PlacedWiden(sections: seq<Memsection>, lo: nat, hi: nat, hi': nat)
    requires Placed(sections, lo, hi) && hi <= hi'
    ensures Placed(sections, lo, hi')
  {
  }

  lemma Built(sections: seq<Memsection>, m: map<nat, FrameState>,
              raw: seq<Regions.Region>, mem: seq<Regions.Region>, res: seq<Regions.Region>)
    requires TableOf(sections, m) && PresentIn(sections, mem) && AfterReserved(mem, res, m)
    requires Rooted(mem, raw) && MemoryEnd(raw, MaxEnd(raw)) && |sections| == SectionCount(MaxEnd(raw))
    ensures UsableIs(m, mem, res) && StatesAre(m, mem, res)
  {
    forall p: nat ensures p in m <==> MeetsSection(mem, SectionOf(p)) {
      if MeetsSection(mem, SectionOf(p)) {
        var x: nat :| Regions.Covers(mem, x) && ByteSection(x) == SectionOf(p);
        assert x < MaxEnd(raw);
        assert PresentAt(sections, SectionOf(p));
      }
    }
    forall p: nat ensures UsableAt(m, p) <==> MeetsPage(mem, p) && !MeetsPage(res, p) {
      if MeetsPage(mem, p) {
        var x: nat :| Regions.Covers(mem, x) && PageOf(x) == p;
        SectionOfByte(x);
        PageInSection(mem, p);
        assert x < MaxEnd(raw);
        assert PresentAt(sections, SectionOf(p));
      }
    }
  }

  lemma OnlyStates(r: Records, m: map<nat, FrameState>)
    requires Complete(r) && AllBlank(r) && m.Keys == r.state.Keys
    ensures Complete(r.(state := m)) && AllBlank(r.(state := m))
  {
    forall p: nat ensures BlankRecord(r.(state := m), p) {
      assert BlankRecord(r, p);
    }
    forall p | p in m ensures p < INVALID_PFN {
      assert p in r.state.Keys;
    }
  }

  lemma MarkedNothing(sections: seq<Memsection>, m: map<nat, FrameState>, lo: nat, st: FrameState)
    ensures StatesMarked(m, m, lo, lo, st) && SectionsAdded(sections, sections, lo, lo)
  {
  }

  /** Pages of a section that is not present have no frame. */
  lemma OffTheTable(sections: seq<Memsection>, m: map<nat, FrameState>, lo: nat, hi: nat)
    requires TableOf(sections, m) && (hi > lo ==> hi <= SectionBase(SectionOf(lo) + 1) || SectionOf(lo) >= |sections|)
    requires !PresentAt(sections, SectionOf(lo))
    ensures forall p: nat :: lo <= p < hi ==> p !in m
  {
    forall p: nat | lo <= p < hi ensures p !in m {
      assert SectionOf(lo) <= SectionOf(p);
    }
  }

  lemma OnTheTable(sections: seq<Memsection>, m: map<nat, FrameState>, lo: nat, hi: nat)
    requires TableOf(sections, m) && hi <= SectionBase(SectionOf(lo) + 1) && PresentAt(sections, SectionOf(lo))
    ensures forall p: nat :: lo <= p < hi ==> p in m
  {
    forall p: nat | lo <= p < hi ensures p in m {
      assert SectionOf(p) == SectionOf(lo);
    }
  }

  lemma TableOfKeys(sections: seq<Memsection>, m: map<nat, FrameState>, m': map<nat, FrameState>)
    requires TableOf(sections, m) && m'.Keys == m.Keys
    ensures TableOf(sections, m')
  {
    forall p: nat ensures p in m' <==> PresentAt(sections, SectionOf(p)) {
      assert p in m'.Keys <==> p in m.Keys;
    }
  }

  lemma MarkedAbsent(m: map<nat, FrameState>, m': map<nat, FrameState>, lo: nat, mid: nat, hi: nat, st: FrameState)
    requires StatesMarked(m, m', lo, mid, st) && mid <= hi && forall p: nat :: mid <= p < hi ==> p !in m'
    ensures StatesMarked(m, m', lo, hi, st)
  {
  }

  lemma MarkedChunk(m: map<nat, FrameState>, m1: map<nat, FrameState>, m2: map<nat, FrameState>,
                    lo: nat, mid: nat, hi: nat, st: FrameState)
    requires StatesMarked(m, m1, lo, mid, st) && StatesMarked(m1, m2, mid, hi, st) && m2.Keys == m1.Keys
    requires lo <= mid <= hi
    ensures StatesMarked(m, m2, lo, hi, st)
  {
    forall p: nat | p in m2 ensures m2[p] == if lo <= p < hi then st else if p in m then m[p] else Absent {
      assert p in m1.Keys;
    }
  }

  lemma MarkedAdded(m: map<nat, FrameState>, m1: map<nat, FrameState>, m2: map<nat, FrameState>,
                    lo: nat, mid: nat, st: FrameState, sec: nat)
    requires StatesMarked(m, m1, lo, mid, st) && StatesAdded(m1, m2, SectionBase(sec), SectionBase(sec + 1))
    requires mid == lo || mid <= SectionBase(sec)
    requires forall p: nat :: SectionBase(sec) <= p < SectionBase(sec + 1) ==> p !in m1
    ensures StatesMarked(m, m2, lo, mid, st)
  {
    forall p: nat | p in m2 ensures m2[p] == if lo <= p < mid then st else if p in m then m[p] else Absent {
      assert p in m1 || SectionBase(sec) <= p < SectionBase(sec + 1);
      assert p in m ==> p in m1;
    }
  }

  lemma AddedStep(a: seq<Memsection>, b: seq<Memsection>, b': seq<Memsection>, lo: nat, mid: nat, hi: nat)
    requires SectionsAdded(a, b, lo, mid) && lo <= mid < hi <= SectionBase(SectionOf(mid) + 1) && SectionOf(mid) < |b|
    requires |b'| == |b| && b'[SectionOf(mid)].present
    requires b[SectionOf(mid)].present ==> b' == b
    requires forall s: nat :: s < |b| && s != SectionOf(mid) ==> b'[s] == b[s]
    ensures SectionsAdded(a, b', lo, hi)
  {
    assert SectionOf(hi - 1) == SectionOf(mid);
    assert mid > lo ==> SectionOf(mid) - 1 <= SectionOf(mid - 1) <= SectionOf(mid);
  }

  lemma AddedBeyond(a: seq<Memsection>, b: seq<Memsection>, lo: nat, mid: nat, hi: nat)
    requires SectionsAdded(a, b, lo, mid) && lo <= mid < hi && |b| <= SectionOf(mid)
    ensures SectionsAdded(a, b, lo, hi)
  {
    assert SectionOf(mid) <= SectionOf(hi - 1);
    assert mid > lo ==> SectionOf(mid) - 1 <= SectionOf(mid - 1);
  }

  lemma ChargedNothing(a: seq<Memsection>, n: nat)
    ensures Charged(a, n, a, n)
  {
  }

  lemma ChargedOne(a: seq<Memsection>, n: nat, b: seq<Memsection>, k: nat, sec: nat)
    requires Charged(a, n, b, k) && sec < |b| && !b[sec].present
    ensures Charged(a, n, b[sec := Memsection(k, true)], k + SECTION_BYTES)
  {
    var c := b[sec := Memsection(k, true)];
    assert PresentSet(c) == PresentSet(b) + {sec};
    forall lo: nat | lo <= n && Placed(a, lo, n) ensures Placed(c, lo, k + SECTION_BYTES) {
      PlacedOne(b, lo, k, sec);
    }
  }

  lemma PlacedOne(b: seq<Memsection>, lo: nat, k: nat, sec: nat)
    requires Placed(b, lo, k) && lo <= k && sec < |b|
    ensures Placed(b[sec := Memsection(k, true)], lo, k + SECTION_BYTES)
  {
    var c := b[sec := Memsection(k, true)];
    assert forall s: nat :: PresentAt(c, s) && s != sec ==> PresentAt(b, s);
  }

  lemma AddAbsentBlank(r: Records, p: nat)
    requires Complete(r) && AllBlank(r) && p < INVALID_PFN
    ensures Complete(AddAbsent(r, p)) && AllBlank(AddAbsent(r, p))
  {
    forall q: nat ensures BlankRecord(AddAbsent(r, p), q) {
      assert BlankRecord(r, q);
    }
  }

  lemma AddAbsentState(m: map<nat, FrameState>, r: Records, lo: nat, hi: nat)
    requires StatesAdded(m, r.state, lo, hi) && lo <= hi
    ensures StatesAdded(m, AddAbsent(r, hi).state, lo, hi + 1)
  {
  }

  lemma AddedNone(m: map<nat, FrameState>, lo: nat)
    ensures StatesAdded(m, m, lo, lo)
  {
  }

  /** Adding the frames of one section keeps the table in step with the sections. */
  lemma AddedSection(sections: seq<Memsection>, m: map<nat, FrameState>, m': map<nat, FrameState>, sec: nat, ptr: nat)
    requires sec < |sections| && TableOf(sections, m)
    requires StatesAdded(m, m', SectionBase(sec), SectionBase(sec + 1))
    ensures TableOf(sections[sec := Memsection(ptr, true)], m')
  {
    forall p: nat ensures p in m' <==> PresentAt(sections[sec := Memsection(ptr, true)], SectionOf(p)) {
      assert SectionBase(sec) <= p < SectionBase(sec + 1) <==> SectionOf(p) == sec;
    }
  }

  lemma AddedLast(sections: seq<Memsection>, last: nat, sec: nat, ptr: nat)
    requires sec < |sections| && LastPresent(sections, last)
    ensures LastPresent(sections[sec := Memsection(ptr, true)], if sec > last then sec else last)
  {
    var t := sections[sec := Memsection(ptr, true)];
    forall s: nat | PresentAt(t, s) ensures s == sec || s <= last {
      assert s == sec || PresentAt(sections, s);
    }
  }

  lemma EightDivides(x: nat)
    ensures Pow2(3) == FRAME_ALIGN && (Aligned(x, 3) <==> x % FRAME_ALIGN == 0)
  {
    assert Pow2(3) == 8;
    hide Pow2, Aligned;
    var q, r := AlignedIsMultiple(x, 3);
  }

  /** An address divisible by 8 is its own aligned address. */
  lemma EightIsAligned(x: nat)
    ensures IsPowerOfTwo(FRAME_ALIGN)
    ensures x <= AlignUp(x, FRAME_ALIGN) < x + FRAME_ALIGN && AlignUp(x, FRAME_ALIGN) % FRAME_ALIGN == 0
    ensures x % FRAME_ALIGN == 0 ==> AlignUp(x, FRAME_ALIGN) == x
  {
    hide *;
    Pow2IsPowerOfTwo(3);
    AlignUpPow2(x, 3);
    EightDivides(x);
    EightDivides(AlignUp(x, FRAME_ALIGN));
  }
}
