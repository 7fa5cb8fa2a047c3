/** Sizing and placing the sparse frame table: the bytes counted before the table
    is built are enough to build it. */
module SparseBoot {
  import opened Align
  import opened BumpAllocator
  import opened Dyadic
  import opened Frames
  import opened Geometry
  import opened MemblockTable
  import opened Options
  import opened Regions
  import opened SparseMemory

  /** The sections `count_present_sections` can tell apart: 512 GiB. */
  const MAX_SECTIONS: nat := 4096

  /** Sets the bit of every section of a region. */
  method MarkSections(seen: array<bool>, first: nat, last: nat)
    requires seen.Length == MAX_SECTIONS
    modifies seen
    ensures forall s :: 0 <= s < MAX_SECTIONS ==> (seen[s] <==> old(seen[s]) || first <= s <= last)
  {
    var sec := first;
    while sec <= last
      invariant first <= sec <= last + 1 || (sec == first && first > last)
      invariant forall s :: 0 <= s < MAX_SECTIONS ==> (seen[s] <==> old(seen[s]) || first <= s < sec)
      decreases last + 1 - sec
    {
      if sec < MAX_SECTIONS {
        seen[sec] := true;
      }
      sec := sec + 1;
    }
  }

  /** `count_present_sections`: the number of sections below 512 GiB that hold memory. */
  method CountPresentSections(memblock: Memblock) returns (count: nat)
    requires memblock.Valid()
    ensures count == |Touched(memblock.Mem(), MAX_SECTIONS)| <= MAX_SECTIONS
  {
    hide AllSized, AllUsable, Rooted, RegionMeetsSection, MeetsSection, ByteSection, Touched, End;
    ghost var mem := memblock.Mem();
    var seen := new bool[MAX_SECTIONS](_ => false);
    var k := 0;
    assert mem[..0] == [];
    NoneTouched(seen[..]);
    while k < memblock.memCnt
      invariant k <= memblock.memCnt == |mem| && Seen(seen[..], mem[..k])
    {
      var r := memblock.memory[k];
      assert r == mem[k] && mem[..k + 1] == mem[..k] + [r];
      UsableSized(mem, k);
      ghost var before := seen[..];
      if r.size != 0 {
        MarkSections(seen, ByteSection(r.base), ByteSection(End(r) - 1));
      }
      SeenStep(before, seen[..], mem[..k], r);
      k := k + 1;
    }
    assert mem[..k] == mem;
    count := CountOnes(seen);
    SeenAll(seen[..], mem);
  }

  method CountOnes(seen: array<bool>) returns (count: nat)
    ensures count == |Ones(seen[..])| <= seen.Length
  {
    count := 0;
    var i := 0;
    while i < seen.Length
      invariant i <= seen.Length && count == |Ones(seen[..i])| <= i
    {
      OnesStep(seen[..i], seen[i]);
      assert seen[..i + 1] == seen[..i] + [seen[i]];
      if seen[i] {
        count := count + 1;
      }
      i := i + 1;
    }
    assert seen[..i] == seen[..];
  }

  ghost function Ones(bits: seq<bool>): set<nat> {
    set s: nat | s < |bits| && bits[s]
  }

  lemma OnesStep(bits: seq<bool>, b: bool)
    ensures |Ones(bits + [b])| == |Ones(bits)| + if b then 1 else 0
  {
    assert Ones(bits + [b]) == Ones(bits) + if b then {|bits|} else {};
  }

  ghost predicate Seen(bits: seq<bool>, mem: seq<Region>) {
    |bits| == MAX_SECTIONS && forall s: nat :: s < MAX_SECTIONS ==> (bits[s] <==> MeetsSection(mem, s))
  }

  lemma NoneTouched(bits: seq<bool>)
    requires |bits| == MAX_SECTIONS && forall s :: 0 <= s < MAX_SECTIONS ==> !bits[s]
    ensures Seen(bits, [])
  {
  }

  lemma SeenStep(bits: seq<bool>, bits': seq<bool>, mem: seq<Region>, r: Region)
    requires Seen(bits, mem) && |bits'| == MAX_SECTIONS && (r.size > 0 <==> r.base < End(r))
    requires r.size == 0 ==> bits' == bits
    requires r.size != 0 ==> forall s :: 0 <= s < MAX_SECTIONS ==>
               (bits'[s] <==> bits[s] || ByteSection(r.base) <= s <= ByteSection(End(r) - 1))
    ensures Seen(bits', mem + [r])
  {
    forall s: nat | s < MAX_SECTIONS ensures bits'[s] <==> MeetsSection(mem + [r], s) {
      MeetsSectionStep(mem, r, s);
    }
  }

  lemma SeenAll(bits: seq<bool>, mem: seq<Region>)
    requires Seen(bits, mem)
    ensures Ones(bits) == Touched(mem, MAX_SECTIONS)
  {
  }

  /** `sparsemem_required_bytes` for a number of sections and of present ones. */
  function RequiredBytes(sectionCount: nat, present: nat): nat {
    sectionCount * MEMSECTION_BYTES + present * PAGES_PER_SECTION * FRAME_BYTES + FRAME_ALIGN * (present + 1)
  }

  /** Room for need bytes from the first page boundary of the region on. */
  predicate Suits(r: Region, need: nat) {
    r.size > 0 && AlignUp(r.base, PAGE_SIZE) < r.base + r.size && AlignUp(r.base, PAGE_SIZE) + need <= r.base + r.size
  }

  /** The first region of the list with room for need bytes. */
  function FirstSuitable(mem: seq<Region>, need: nat): (res: Option<Region>)
    ensures res.None? <==> forall r :: r in mem ==> !Suits(r, need)
    ensures res.Some? ==> res.value in mem && Suits(res.value, need)
  {
    if mem == [] then None
    else if Suits(mem[0], need) then Some(mem[0])
    else FirstSuitable(mem[1..], need)
  }

  /** It is the one that no suitable region comes before. */
  lemma {:induction false} FirstIs(mem: seq<Region>, need: nat, k: nat)
    requires k < |mem| && Suits(mem[k], need) && forall i :: 0 <= i < k ==> !Suits(mem[i], need)
    ensures FirstSuitable(mem, need) == Some(mem[k])
    decreases k
  {
    hide Suits;
    if k > 0 {
      assert mem[1..][k - 1] == mem[k];
      assert forall i :: 0 <= i < k - 1 ==> mem[1..][i] == mem[i + 1];
      FirstIs(mem[1..], need, k - 1);
    }
  }

  /** `find_suitable_region`: the first region in list order with enough room. */
  method FindSuitableRegion(memblock: Memblock, need: nat) returns (res: Option<Region>)
    requires memblock.Valid()
    ensures res == FirstSuitable(memblock.Mem(), need)
    ensures res.Some? <==> exists k :: 0 <= k < |memblock.Mem()| && Suits(memblock.Mem()[k], need)
    ensures res.Some? ==> exists k :: 0 <= k < |memblock.Mem()| && memblock.Mem()[k] == res.value &&
                                      forall i :: 0 <= i < k ==> !Suits(memblock.Mem()[i], need)
  {
    hide Suits, Rooted, AllSized, AllUsable, FirstSuitable;
    var k := 0;
    while k < memblock.memCnt
      invariant k <= memblock.memCnt && forall i :: 0 <= i < k ==> !Suits(memblock.Mem()[i], need)
    {
      var r := memblock.memory[k];
      assert r == memblock.Mem()[k];
      if Suits(r, need) {
        FirstIs(memblock.Mem(), need, k);
        return Some(r);
      }
      k := k + 1;
    }
    return None;
  }

  /** How booting the layer ends; all but the first are panics of the source. */
  datatype Boot =
    | Booted(sparse: SparseMem, start: nat, bytes: nat)
    | NoRegion
    | NoSlots(start: nat)
    | Overrun(start: nat)

  /** What the layer asks for. */
  ghost function Need(raw: seq<Region>, mem: seq<Region>): nat {
    RequiredBytes(SectionCount(MaxEnd(raw)), |Touched(mem, MAX_SECTIONS)|)
  }

  /** What the layer asks for, and where its bytes are put, if anywhere. */
  ghost function Asked(g: Lists): nat {
    Need(g.raw, g.mem)
  }

  ghost function Place(g: Lists): Option<nat> {
    match FirstSuitable(g.mem, Asked(g))
    case None => None
    case Some(r) => Some(AlignUp(r.base, PAGE_SIZE))
  }

  /** The memory left once the layer's own bytes are reserved. */
  ghost function Remaining(g: Lists, start: nat): seq<Region> {
    Regions.Normal(g.mem, g.res + [Region(start, Asked(g), Kind.Reserved)])
  }

  /** There is a slot for the reservation and for every piece of memory left. */
  ghost predicate Slots(g: Lists, start: nat) {
    |g.res| < MAX_REGIONS && |Remaining(g, start)| <= MAX_REGIONS
  }

  /** The slots suffice, and no more sections hold memory after the reservation than
      were counted before it. */
  ghost predicate Builds(g: Lists, start: nat) {
    Slots(g, start) && |Touched(Remaining(g, start), SectionCount(MaxEnd(g.raw)))| <= |Touched(g.mem, MAX_SECTIONS)|
  }

  /** What reserving the layer's own bytes makes of the lists. */
  ghost predicate SetAside(g: Lists, g': Lists, start: nat, n: nat) {
    && (forall x: nat :: Covers(g'.mem, x) <==> Covers(g.mem, x) && !Covers(g.res, x) && !InRange(start, n, x))
    && (forall x: nat :: Covers(g'.res, x) <==> Covers(g.res, x) || InRange(start, n, x))
  }

  /** The bytes [start, start + n). */
  ghost predicate InRange(start: nat, n: nat, x: nat) {
    start <= x < start + n
  }

  /** The bytes asked for are enough exactly when no more sections hold memory
      after the reservation than were counted before it. */
  lemma Enough(next: nat, raw: seq<Region>, mem: seq<Region>, raw': seq<Region>, mem': seq<Region>)
    requires MaxEnd(raw') == MaxEnd(raw) && |Touched(mem, MAX_SECTIONS)| <= MAX_SECTIONS
    ensures RoomNeeded(next, raw', mem') <= next + Need(raw, mem) <==>
            |Touched(mem', SectionCount(MaxEnd(raw)))| <= |Touched(mem, MAX_SECTIONS)|
  {
    hide AlignUp, RoomNeeded, Need, Touched, SectionCount, MaxEnd, IsPowerOfTwo;
    EightIsAligned(next);
    RoomIs(next, raw', mem');
    NeedIs(raw, mem);
  }

  lemma RoomIs(next: nat, raw: seq<Region>, mem: seq<Region>)
    ensures RoomNeeded(next, raw, mem) ==
            AlignUp(next, FRAME_ALIGN) + 16 * SectionCount(MaxEnd(raw)) +
            786432 * |Touched(mem, SectionCount(MaxEnd(raw)))|
  {
    hide AlignUp, SectionCount, MaxEnd, Touched;
  }

  lemma NeedIs(raw: seq<Region>, mem: seq<Region>)
    ensures Need(raw, mem) == 16 * SectionCount(MaxEnd(raw)) + 786440 * |Touched(mem, MAX_SECTIONS)| + 8
  {
    hide SectionCount, MaxEnd, Touched;
  }

  lemma {:induction false} SectionsBelow(s: set<nat>, n: nat)
    requires forall x :: x in s ==> x < n
    ensures |s| <= n
    decreases n
  {
    if n > 0 {
      SectionsBelow(s - {n - 1}, n - 1);
    } else {
      assert s == {};
    }
  }

  lemma {:induction false} SectionsFrom(s: set<nat>, lo: nat, hi: nat)
    requires lo <= hi && forall x :: lo <= x < hi ==> x in s
    ensures |s| >= hi - lo
    decreases hi - lo
  {
    if lo < hi {
      SectionsFrom(s - {lo}, lo + 1, hi);
    }
  }

  const TERABYTE: seq<Region> := [Region(0, 2 * MAX_SECTIONS * SECTION_SIZE, Kind.Usable)]

  lemma TerabyteEnd()
    ensures MaxEnd(TERABYTE) == 2 * MAX_SECTIONS * SECTION_SIZE && SectionCount(MaxEnd(TERABYTE)) == 2 * MAX_SECTIONS
    ensures AllSized(TERABYTE) && AllUsable(TERABYTE)
  {
    assert TERABYTE[..0] == [];
  }

  lemma TerabyteNeed()
    ensures |Touched(TERABYTE, MAX_SECTIONS)| <= MAX_SECTIONS
    ensures Need(TERABYTE, TERABYTE) <= (MAX_SECTIONS - 1) * SECTION_SIZE &&
            Suits(TERABYTE[0], Need(TERABYTE, TERABYTE))
  {
    hide AlignUp, Need, MaxEnd, Touched, SectionCount;
    TerabyteEnd();
    assert forall x :: x in Touched(TERABYTE, MAX_SECTIONS) ==> x < MAX_SECTIONS by {
      TouchedBelow(TERABYTE, MAX_SECTIONS);
    }
    SectionsBelow(Touched(TERABYTE, MAX_SECTIONS), MAX_SECTIONS);
    NeedIs(TERABYTE, TERABYTE);
    PageAligned(0);
  }

  lemma TouchedBelow(mem: seq<Region>, n: nat)
    ensures forall x :: x in Touched(mem, n) ==> x < n
  {
  }

  /** One TiB of memory from address 0 on: the reservation succeeds, and then the table
      outgrows it. */
  lemma TableCanOverrun()
    ensures var g := Lists(TERABYTE, TERABYTE, []);
            Place(g) == Some(0) && Slots(g, 0) && !Builds(g, 0)
  {
    hide Place, Need, Regions.Normal, Touched, MaxEnd, SectionCount, Covers, AllSized, AllUsable, TERABYTE, Prepared,
      Canonical;
    TerabytePlace();
    TerabyteEnd();
    TerabyteNeed();
    var need := Need(TERABYTE, TERABYTE);
    var reserved := Region(0, need, Kind.Reserved);
    var other := [Region(need, 2 * MAX_SECTIONS * SECTION_SIZE - need, Kind.Usable)];
    assert [] + [reserved] == [reserved];
    ReservedSized(reserved);
    TerabyteLeft(reserved, other);
    NormalizeMeaning(TERABYTE, [reserved], other);
    StillMemory(reserved, Regions.Normal(TERABYTE, [reserved]));
  }

  lemma TerabytePlace()
    ensures Place(Lists(TERABYTE, TERABYTE, [])) == Some(0)
  {
    hide Need, AlignUp, Suits;
    TerabyteNeed();
    PageAligned(0);
    assert FirstSuitable(TERABYTE, Need(TERABYTE, TERABYTE)) == Some(TERABYTE[0]);
    hide FirstSuitable;
  }

  /** What is left of the terabyte is one region. */
  lemma TerabyteLeft(reserved: Region, other: seq<Region>)
    requires reserved.base == 0 && reserved.size <= (MAX_SECTIONS - 1) * SECTION_SIZE
    requires other == [Region(reserved.size, 2 * MAX_SECTIONS * SECTION_SIZE - reserved.size, Kind.Usable)]
    ensures forall x: nat :: Covers(other, x) <==> Covers(TERABYTE, x) && !Covers([reserved], x)
  {
  }

  lemma ReservedSized(r: Region)
    requires r.base == 0 && r.size <= (MAX_SECTIONS - 1) * SECTION_SIZE
    ensures AllSized([r])
  {
  }

  lemma StillMemory(reserved: Region, left: seq<Region>)
    requires reserved.base == 0 && reserved.size <= (MAX_SECTIONS - 1) * SECTION_SIZE
    requires forall x: nat :: Covers(left, x) <==> Covers(TERABYTE, x) && !Covers([reserved], x)
    ensures |Touched(left, 2 * MAX_SECTIONS)| > MAX_SECTIONS
  {
    forall s: nat | MAX_SECTIONS - 1 <= s < 2 * MAX_SECTIONS ensures s in Touched(left, 2 * MAX_SECTIONS) {
      var x := s * SECTION_SIZE;
      assert Covers(TERABYTE, x) && !Covers([reserved], x);
      assert Covers(left, x) && ByteSection(x) == s;
      assert MeetsSection(left, s);
    }
    SectionsFrom(Touched(left, 2 * MAX_SECTIONS), MAX_SECTIONS - 1, 2 * MAX_SECTIONS);
  }

  /** Below 512 GiB every section is counted, so the reservation always suffices. */
  lemma NothingUncounted(mem: seq<Region>, mem': seq<Region>, end: nat)
    requires end <= MAX_SECTIONS * SECTION_SIZE && forall x: nat :: Covers(mem', x) ==> Covers(mem, x)
    ensures |Touched(mem', SectionCount(end))| <= |Touched(mem, MAX_SECTIONS)|
  {
    assert SectionCount(end) <= MAX_SECTIONS;
    forall s | s in Touched(mem', SectionCount(end)) ensures s in Touched(mem, MAX_SECTIONS) {
      assert MeetsSection(mem', s);
    }
    SubsetCard(Touched(mem', SectionCount(end)), Touched(mem, MAX_SECTIONS));
  }

  /** The range taken from a suitable region is memory. */
  lemma SuitableRange(mem: seq<Region>, r: Region, need: nat)
    requires r in mem && AllSized(mem) && Suits(r, need)
    ensures forall x: nat :: InRange(AlignUp(r.base, PAGE_SIZE), need, x) ==> Covers(mem, x)
    ensures AlignUp(r.base, PAGE_SIZE) + need <= U64_MAX && AlignUp(r.base, PAGE_SIZE) % PAGE_SIZE == 0
  {
    PageAligned(r.base);
    var j :| 0 <= j < |mem| && mem[j] == r;
    forall x: nat | InRange(AlignUp(r.base, PAGE_SIZE), need, x) ensures Covers(mem, x) {
      CoversMember(mem, j, x);
    }
  }

  /** No page that holds a reserved byte is usable. */
  lemma ReservedNotUsable(m: map<nat, FrameState>, mem: seq<Region>, res: seq<Region>, x: nat)
    requires UsableIs(m, mem, res) && Covers(res, x)
    ensures !UsableAt(m, PageOf(x))
  {
    assert MeetsPage(res, PageOf(x));
  }

  /** The lists after reserving [start, start + need) and normalising. */
  lemma AfterReservation(raw: seq<Region>, mem: seq<Region>, res: seq<Region>, start: nat, need: nat)
    requires AllSized(raw) && AllSized(mem) && AllSized(res) && AllUsable(mem) && Rooted(mem, raw)
    requires start + need <= U64_MAX
    ensures var res1 := res + [Region(start, need, Kind.Reserved)];
            && MaxEnd(Prepared(raw)) == MaxEnd(raw)
            && (forall x: nat :: Covers(Regions.Normal(mem, res1), x) <==>
                  Covers(mem, x) && !Covers(res, x) && !InRange(start, need, x))
            && (forall x: nat :: Covers(Prepared(res1), x) <==> Covers(res, x) || InRange(start, need, x))
  {
    hide Regions.Normal, Prepared, Covers, MaxEnd;
    var r := Region(start, need, Kind.Reserved);
    var res1 := res + [r];
    RootedNormal(mem, res1, raw);
    PreparedFacts(raw);
    forall x: nat ensures Covers(Prepared(raw), x) <==> Covers(raw, x) {
      PreparedCovers(raw, x);
    }
    MaxEndByCover(Prepared(raw), raw);
    NormalIsDifference(mem, res1);
    forall x: nat ensures Covers(res1, x) <==> Covers(res, x) || InRange(start, need, x) {
      CoversOneMore(res, r, x);
    }
    forall x: nat ensures Covers(Prepared(res1), x) <==> Covers(res1, x) {
      PreparedCovers(res1, x);
    }
  }

  lemma PageAligned(x: nat)
    ensures x <= AlignUp(x, PAGE_SIZE) < x + PAGE_SIZE && AlignUp(x, PAGE_SIZE) % PAGE_SIZE == 0
  {
    hide AlignUp, Aligned;
    PageIsPow2();
    AlignUpPow2(x, 12);
    var q, r := AlignedIsMultiple(AlignUp(x, PAGE_SIZE), 12);
  }

  lemma {:induction false} PageIsPow2()
    ensures Pow2(12) == PAGE_SIZE
  {
    assert Pow2(4) == 16;
    assert Pow2(8) == 256;
    assert Pow2(12) == 4096;
  }

  /** `reserve_for_sparsemem`. */
  method ReserveForSparsemem(memblock: Memblock, start: nat, need: nat) returns (e: Result<()>)
    requires memblock.Valid() && need > 0 && start + need <= U64_MAX && need == Asked(memblock.View())
    modifies memblock, memblock.memory, memblock.reserved, memblock.rawMemory
    ensures memblock.Valid()
    ensures e.Ok? <==> Slots(old(memblock.View()), start)
    ensures e.Ok? ==> MaxEnd(memblock.View().raw) == MaxEnd(old(memblock.View()).raw)
    ensures e.Ok? ==> memblock.View().mem == Remaining(old(memblock.View()), start)
    ensures e.Ok? ==> SetAside(old(memblock.View()), memblock.View(), start, need)
  {
    hide MaxEnd, Rooted, AllSized, AllUsable, Regions.Normal, Prepared, Covers, Need;
    AfterReservation(memblock.Raw(), memblock.Mem(), memblock.Res(), start, need);
    e := memblock.AddReserved(start, need, Kind.Reserved);
    if e.Err? {
      return;
    }
    e := memblock.Normalize();
  }

  /** The layer's bytes are put at a page boundary inside memory. */
  ghost predicate PutAt(g: Lists, start: nat) {
    && Place(g) == Some(start) && start % PAGE_SIZE == 0
    && forall x: nat :: InRange(start, Asked(g), x) ==> Covers(g.mem, x)
  }

  /** The sparse table of the memory map, in the bytes reserved for it. */
  ghost predicate TableOfMap(sparse: SparseMem, g: Lists, lo: nat, n: nat)
    reads sparse, sparse.frames
  {
    && sparse.Valid() && AllBlank(sparse.frames.r)
    && UsableIs(sparse.frames.r.state, g.mem, g.res) && StatesAre(sparse.frames.r.state, g.mem, g.res)
    && LastIn(sparse.frames.r.state, 0, SectionBase(|sparse.sections|), sparse.cachedMaxPfn)
    && Placed(sparse.sections, TableEnd(lo, g.raw), lo + n)
  }

  /** Builds the table in the n bytes from lo on, if they suffice. */
  method BuildTable(memblock: Memblock, frames: FrameTable, lo: nat, n: nat) returns (sparse: Option<SparseMem>)
    requires memblock.Valid() && frames.r == NO_FRAMES && lo > 0
    modifies frames
    ensures sparse.Some? <==> MaxEnd(memblock.View().raw) == 0 ||
                              RoomNeeded(lo, memblock.View().raw, memblock.View().mem) <= lo + n
    ensures sparse.Some? ==> fresh(sparse.value) && sparse.value.frames == frames &&
                             TableOfMap(sparse.value, memblock.View(), lo, n)
  {
    hide Touched, SectionCount, MaxEnd, Rooted, AllSized, AllUsable, MemoryEnd, UsableIs, LastIn, Placed, TableEnd,
      RoomNeeded, AllBlank, PresentIn, Covers, NO_FRAMES, Complete, TableOf, LastPresent, StatesAre;
    var bump := new Bump(lo, lo + n);
    var s := new SparseMem(frames);
    var ok := s.InitFromMemblock(bump, memblock);
    sparse := if ok then Some(s) else None;
  }

  lemma WhereItIs(g: Lists, r: Region)
    requires AllSized(g.mem) && FirstSuitable(g.mem, Asked(g)) == Some(r)
    ensures PutAt(g, AlignUp(r.base, PAGE_SIZE)) && AlignUp(r.base, PAGE_SIZE) + Asked(g) <= U64_MAX && Asked(g) > 0
  {
    hide AlignUp, Need, Covers, Suits;
    NeedIs(g.raw, g.mem);
    SuitableRange(g.mem, r, Asked(g));
  }

  /** The bytes asked for are enough exactly under the condition of Builds. */
  lemma EnoughIs(lo: nat, g: Lists, g': Lists, start: nat)
    requires Slots(g, start) && g'.mem == Remaining(g, start) && MaxEnd(g'.raw) == MaxEnd(g.raw)
    requires |Touched(g.mem, MAX_SECTIONS)| <= MAX_SECTIONS && SetAside(g, g', start, Asked(g))
    ensures RoomNeeded(lo, g'.raw, g'.mem) <= lo + Asked(g) <==> Builds(g, start)
    ensures MaxEnd(g.raw) == 0 ==> Builds(g, start)
    ensures !Builds(g, start) ==> MaxEnd(g.raw) > MAX_SECTIONS * SECTION_SIZE
  {
    hide Touched, SectionCount, MaxEnd, RoomNeeded, Need, Covers;
    Enough(lo, g.raw, g.mem, g'.raw, g'.mem);
    if MaxEnd(g.raw) <= MAX_SECTIONS * SECTION_SIZE {
      NothingUncounted(g.mem, g'.mem, MaxEnd(g.raw));
    }
  }

  /** The table's own bytes lie in no usable frame. */
  lemma OwnBytesHeld(m: map<nat, FrameState>, g: Lists, g': Lists, start: nat, n: nat)
    requires UsableIs(m, g'.mem, g'.res) && SetAside(g, g', start, n)
    ensures forall x: nat :: InRange(start, n, x) ==> !UsableAt(m, PageOf(x))
  {
    forall x: nat | InRange(start, n, x) ensures !UsableAt(m, PageOf(x)) {
      ReservedNotUsable(m, g'.mem, g'.res, x);
    }
  }

  /** `init_sparsemem_layer`. Addresses used by the kernel are physical ones plus
      hhdm. */
  method InitSparsememLayer(memblock: Memblock, frames: FrameTable, hhdm: nat) returns (b: Boot)
    requires memblock.Valid() && frames.r == NO_FRAMES && hhdm > 0
    modifies memblock, memblock.memory, memblock.reserved, memblock.rawMemory, frames
    ensures memblock.Valid()
    ensures b.NoRegion? <==> Place(old(memblock.View())).None?
    ensures !b.NoRegion? ==>
              && PutAt(old(memblock.View()), b.start)
              && (b.NoSlots? <==> !Slots(old(memblock.View()), b.start))
              && (b.Booted? <==> Builds(old(memblock.View()), b.start))
    ensures b.Overrun? ==> MaxEnd(old(memblock.View()).raw) > MAX_SECTIONS * SECTION_SIZE
    ensures b.Booted? ==>
              && b.bytes == Asked(old(memblock.View()))
              && SetAside(old(memblock.View()), memblock.View(), b.start, b.bytes)
              && b.sparse.frames == frames && TableOfMap(b.sparse, memblock.View(), hhdm + b.start, b.bytes)
              && (forall x: nat :: InRange(b.start, b.bytes, x) ==> !UsableAt(frames.r.state, PageOf(x)))
  {
    hide AlignUp, Touched, SectionCount, MaxEnd, RequiredBytes, Rooted, AllSized, AllUsable, Suits, MemoryEnd,
      UsableIs, LastIn, Placed, TableEnd, RoomNeeded, AllBlank, Remaining, Prepared, Covers, NO_FRAMES,
      Complete, TableOf, LastPresent, Slots, StatesAre, SetAside, Builds, InRange, PutAt;
    ghost var g := memblock.View();
    var maxPhys := memblock.MaxPhysAddr();
    var present := CountPresentSections(memblock);
    var need := RequiredBytes(SectionCount(maxPhys), present);
    assert need == Asked(g);
    hide Asked, FirstSuitable;
    var region := FindSuitableRegion(memblock, need);
    if region.None? {
      return NoRegion;
    }
    var start := AlignUp(region.value.base, PAGE_SIZE);
    WhereItIs(g, region.value);
    var e := ReserveForSparsemem(memblock, start, need);
    if e.Err? {
      SlotsFirst(g, start);
      return NoSlots(start);
    }
    ghost var g' := memblock.View();
    EnoughIs(hhdm + start, g, g', start);
    var sparse := BuildTable(memblock, frames, hhdm + start, need);
    if sparse.None? {
      return Overrun(start);
    }
    OwnBytesHeld(frames.r.state, g, g', start, need);
    return Booted(sparse.value, start, need);
  }

  lemma SlotsFirst(g: Lists, start: nat)
    requires !Slots(g, start)
    ensures !Builds(g, start)
  {
  }
}
