/** Bringing physical memory up: from the memory map to an empty kernel heap. */
module PhysicalMemory {
  import opened Blocks
  import opened Dyadic
  import opened Frames
  import opened FreeLists
  import opened Geometry
  import opened KernelHeap
  import opened MemblockTable
  import opened Options
  import opened Regions
  import opened SlabAllocation
  import opened SlabFrames
  import opened SparseBoot
  import opened SparseMemory
  import opened Zones

  /** How it ends; all but the first are panics of the source. */
  datatype Outcome = Up(heap: SlabAllocator, start: nat, bytes: nat) | NoFrames(boot: Boot) | NoZones

  /** The frame table fits somewhere and can be built there. */
  ghost predicate CanBuild(g: Lists) {
    Place(g).Some? && Builds(g, Place(g).value)
  }

  /** x is a byte of the 4 KiB page p. */
  predicate InPage(p: nat, x: nat) {
    p * 4096 <= x < (p + 1) * 4096
  }

  /** x is a byte of the 128 MiB that page p lies in. */
  predicate InPart(p: nat, x: nat) {
    x / 0x800_0000 == p * 4096 / 0x800_0000
  }

  /** Some byte of the page is memory. */
  ghost predicate MemoryPage(g: Lists, p: nat) {
    exists x: nat :: InPage(p, x) && Covers(g.mem, x)
  }

  /** Some byte of the page is reserved, or one of the n bytes of the frame table. */
  ghost predicate HeldPage(g: Lists, start: nat, n: nat, p: nat) {
    exists x: nat :: InPage(p, x) && (Covers(g.res, x) || InRange(start, n, x))
  }

  /** A byte of the page's section is memory that is neither reserved nor the frame
      table's. */
  ghost predicate FreeSection(g: Lists, start: nat, n: nat, p: nat) {
    exists x: nat :: InPart(p, x) && Covers(g.mem, x) && !Covers(g.res, x) && !InRange(start, n, x)
  }

  /** The frame table has a record for the page, and not as an absent one. */
  ghost predicate KnownPage(g: Lists, start: nat, n: nat, p: nat) {
    FreeSection(g, start, n, p) && (MemoryPage(g, p) || HeldPage(g, start, n, p))
  }

  lemma PartOfPage(p: nat, x: nat)
    ensures InPage(p, x) <==> PageOf(x) == p
    ensures InPart(p, x) <==> ByteSection(x) == SectionOf(p)
  {
  }

  /** Every known page lies below the last page of the DMA zone. */
  ghost predicate NoHighPage(g: Lists, start: nat, n: nat) {
    forall p: nat :: KnownPage(g, start, n, p) ==> p + 1 < DMA_LIMIT_PFN
  }

  /** That is so with the frame table at the place it is put. */
  ghost predicate TooLow(g: Lists) {
    Place(g).Some? && NoHighPage(g, Place(g).value, Asked(g))
  }

  /** Exactly the frames are usable whose page meets memory and holds no byte that is
      reserved or the frame table's. */
  ghost predicate UsableFrom(m: map<nat, FrameState>, g: Lists, start: nat, n: nat) {
    forall p: nat :: UsableAt(m, p) <==> MemoryPage(g, p) && !HeldPage(g, start, n, p)
  }

  /** `init_physical_memory`, from the memory map on: it fails exactly when the frame
      table cannot be built or no known page is as high as the last one of the DMA
      zone; otherwise the usable frames are those of the given map without the frame
      table's bytes, each is a free page of exactly one zone, and the heap on top is
      valid and empty. */
  method InitPhysicalMemory(memblock: Memblock, frames: FrameTable, hhdm: nat) returns (res: Outcome)
    requires memblock.Valid() && frames.r == NO_FRAMES && hhdm > 0 && Aligned(hhdm, 12 + MAX_ORDER)
    modifies memblock, memblock.memory, memblock.reserved, memblock.rawMemory, frames
    ensures memblock.Valid()
    ensures res.NoFrames? <==> !CanBuild(old(memblock.View()))
    ensures res.NoZones? <==> CanBuild(old(memblock.View())) && TooLow(old(memblock.View()))
    ensures res.Up? ==>
              && Place(old(memblock.View())) == Some(res.start) && res.bytes == Asked(old(memblock.View()))
              && SetAside(old(memblock.View()), memblock.View(), res.start, res.bytes)
              && UsableFrom(frames.r.state, old(memblock.View()), res.start, res.bytes)
    ensures res.Up? ==>
              && res.heap.zones.frames == frames && HeapOk(res.heap)
              && AllFree(frames.r.state, res.heap.zones.dma.blocks, res.heap.zones.high.blocks)
              && Below16MiB(res.heap.zones.dma.blocks) && From16MiB(res.heap.zones.high.blocks)
              && res.heap.zones.dma.freePages + res.heap.zones.high.freePages == |UsableFrames(frames.r.state)|
              && (forall o: Owner :: !LiveOwner(res.heap.Cfg(), res.heap.s, res.heap.fl, res.heap.zones.high.blocks, o))
  {
    hide *;
    ghost var g := memblock.View();
    var boot := InitSparsememLayer(memblock, frames, hhdm);
    if !boot.Booted? {
      CannotBuild(g, boot);
      return NoFrames(boot);
    }
    var sparse := boot.sparse;
    BuiltFrom(sparse, g, memblock.View(), boot.start, hhdm + boot.start, boot.bytes);
    var zones := InitZonesManager(sparse);
    if zones.None? {
      return NoZones;
    }
    AlignedWeaken(hhdm, 12, 12 + MAX_ORDER);
    EveryBlockFree(frames.r.state, zones.value);
    NothingAllocated(frames.r, zones.value.high.blocks);
    var heap := new SlabAllocator(zones.value, hhdm);
    IntroHeap(heap);
    EmptyHeap(heap);
    return Up(heap, boot.start, boot.bytes);
  }

  lemma CannotBuild(g: Lists, boot: Boot)
    requires boot.NoRegion? <==> Place(g).None?
    requires !boot.NoRegion? ==> PutAt(g, boot.start) && !Builds(g, boot.start)
    ensures !CanBuild(g)
  {
    hide Builds, Place;
  }

  /** What the built frame table says in terms of the given map. */
  lemma BuiltFrom(sparse: SparseMem, g: Lists, g': Lists, start: nat, lo: nat, n: nat)
    requires PutAt(g, start) && Builds(g, start) && n == Asked(g)
    requires SetAside(g, g', start, n) && TableOfMap(sparse, g', lo, n)
    ensures CanBuild(g) && Place(g) == Some(start)
    ensures UsableFrom(sparse.frames.r.state, g, start, n)
    ensures TooLow(g) <==> sparse.cachedMaxPfn < DMA_LIMIT_PFN
    ensures sparse.Valid() && LastIn(sparse.States(), 0, SectionBase(|sparse.sections|), sparse.cachedMaxPfn)
  {
    assert sparse.States() == sparse.frames.r.state;
    hide Builds, Place, SetAside, UsableIs, StatesAre, LastIn, Placed, AllBlank, Complete, LastPresent, UsableFrom,
      NoHighPage, Covers, MeetsPage;
    UsableAfter(sparse.frames.r.state, g, g', start, n);
    BelowTable(sparse.sections, sparse.frames.r.state);
    HighAfter(sparse.frames.r.state, g, g', start, n, SectionBase(|sparse.sections|), sparse.cachedMaxPfn);
  }

  /** The pages that meet the lists after the reservation. */
  lemma HeldAfter(g: Lists, g': Lists, start: nat, n: nat, p: nat)
    requires SetAside(g, g', start, n)
    ensures MeetsPage(g'.res, p) <==> HeldPage(g, start, n, p)
    ensures MeetsPage(g'.mem, p) || MeetsPage(g'.res, p) <==> MemoryPage(g, p) || HeldPage(g, start, n, p)
    ensures MeetsPage(g'.mem, p) ==> MemoryPage(g, p)
  {
    hide Covers, InRange, PageOf, InPage;
    forall x: nat ensures InPage(p, x) <==> PageOf(x) == p {
      PartOfPage(p, x);
    }
    if MemoryPage(g, p) {
      var x: nat :| InPage(p, x) && Covers(g.mem, x);
      assert Covers(g'.mem, x) || Covers(g'.res, x);
    }
  }

  lemma UsableAfter(m: map<nat, FrameState>, g: Lists, g': Lists, start: nat, n: nat)
    requires UsableIs(m, g'.mem, g'.res) && SetAside(g, g', start, n)
    ensures UsableFrom(m, g, start, n)
  {
    hide SetAside, MeetsPage, HeldPage, MemoryPage;
    forall p: nat ensures UsableAt(m, p) <==> MemoryPage(g, p) && !HeldPage(g, start, n, p) {
      HeldAfter(g, g', start, n, p);
    }
  }

  /** The frame table ends below the DMA limit exactly when no known page is high. */
  lemma HighAfter(m: map<nat, FrameState>, g: Lists, g': Lists, start: nat, n: nat, hi: nat, e: nat)
    requires StatesAre(m, g'.mem, g'.res) && SetAside(g, g', start, n)
    requires LastIn(m, 0, hi, e) && forall p: nat :: p in m ==> p < hi
    ensures NoHighPage(g, start, n) <==> e < DMA_LIMIT_PFN
  {
    hide StatesAre, SetAside, KnownPage;
    forall p: nat ensures KnownPage(g, start, n, p) <==> p in m && m[p] != Absent {
      KnownAfter(m, g, g', start, n, p);
    }
  }

  lemma KnownAfter(m: map<nat, FrameState>, g: Lists, g': Lists, start: nat, n: nat, p: nat)
    requires StatesAre(m, g'.mem, g'.res) && SetAside(g, g', start, n)
    ensures KnownPage(g, start, n, p) <==> p in m && m[p] != Absent
  {
    HeldAfter(g, g', start, n, p);
    SectionAfter(g, g', start, n, p);
    hide SetAside, MeetsPage, HeldPage, MemoryPage, MeetsSection, FreeSection;
  }

  lemma SectionAfter(g: Lists, g': Lists, start: nat, n: nat, p: nat)
    requires SetAside(g, g', start, n)
    ensures MeetsSection(g'.mem, SectionOf(p)) <==> FreeSection(g, start, n, p)
  {
    hide Covers, InRange, ByteSection, InPart, SectionOf;
    forall x: nat ensures InPart(p, x) <==> ByteSection(x) == SectionOf(p) {
      PartOfPage(p, x);
    }
  }

  /** Pages that are all free leave no room for an allocated block. */
  lemma EveryBlockFree(m: map<nat, FrameState>, zones: ZonesManager)
    requires zones.Valid() && zones.frames.r.state == m && AllFree(m, zones.dma.blocks, zones.high.blocks)
    ensures forall b :: b in zones.high.blocks ==> b.free
  {
    forall b | b in zones.high.blocks ensures b.free {
      assert InBlock(b, b.head) && Managed(zones.high.blocks, b.head);
      assert UsableAt(m, b.head);
      assert !Managed(zones.dma.blocks, b.head);
      assert PageFree(zones.high.blocks, b.head) by {
        if PageFree(zones.dma.blocks, b.head) {
          assert Managed(zones.dma.blocks, b.head);
        }
      }
      var f :| f in zones.high.blocks && f.free && InBlock(f, b.head);
      assert f == b || Apart(f, b);
    }
  }

  lemma NothingAllocated(r: Records, high: set<Block>)
    requires forall b :: b in high ==> b.free
    ensures OthersUnlinked(r, high, NO_SLABS) && PageBlocks(high, NO_SLABS.info) == {}
  {
  }

  lemma EmptyHeap(heap: SlabAllocator)
    requires heap.s == NO_SLABS && heap.fl == map[] && PageBlocks(heap.zones.high.blocks, NO_SLABS.info) == {}
    ensures forall o: Owner :: !LiveOwner(heap.Cfg(), heap.s, heap.fl, heap.zones.high.blocks, o)
  {
  }
}
