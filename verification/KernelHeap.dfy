/** `kmalloc`, `kfree` and the global allocator on top of slabs and pages. */
module KernelHeap {
  import opened Align
  import opened Blocks
  import opened BuddyAllocator
  import opened Dyadic
  import opened Frames
  import opened FreeLists
  import opened Geometry
  import opened Options
  import opened SlabAllocation
  import opened SlabFrames
  import opened SlabLayout
  import opened SlabSlots
  import opened SlabState
  import opened ZoneRecords
  import opened Zones

  /** Who a pointer belongs to: an object of a slab, or a block of pages. */
  datatype Owner = InSlab(slab: nat, obj: nat) | Pages(block: Block)

  ghost predicate LiveOwner(g: Config, s: Slabs, fl: map<nat, seq<nat>>, high: set<Block>, o: Owner) {
    match o
    case InSlab(v, a) => LiveAt(g, s, fl, v, a)
    case Pages(b) => b in PageBlocks(high, s.info)
  }

  ghost function Base(g: Config, o: Owner): nat {
    match o
    case InSlab(v, a) => a
    case Pages(b) => Virt(g, b.head)
  }

  /** The bytes an owner may use. */
  ghost function Length(g: Config, s: Slabs, o: Owner): nat {
    match o
    case InSlab(v, a) =>
      if v in s.info && s.info[v].cls < |g.caches| then g.caches[s.info[v].cls].objSize else 0
    case Pages(b) => Span(b.order)
  }

  /** The block an owner's bytes lie in. */
  ghost function Home(s: Slabs, o: Owner): Block {
    match o
    case InSlab(v, a) => if v in s.info then SlabBlock(s, v) else Block(v, 0, false)
    case Pages(b) => b
  }

  lemma InsideHome(g: Config, s: Slabs, fl: map<nat, seq<nat>>, r: Records, high: set<Block>, o: Owner)
    requires GoodConfig(g) && SlabsOk(g, s, fl) && SlabPages(r, high, s) && LiveOwner(g, s, fl, high, o)
    ensures Home(s, o) in high && !Home(s, o).free
    ensures Virt(g, Home(s, o).head) <= Base(g, o)
    ensures Base(g, o) + Length(g, s, o) <= Virt(g, Home(s, o).head) + Span(Home(s, o).order)
    ensures o.Pages? <==> Home(s, o).head !in s.info
  {
    hide SlabOk, SlabsOk, GoodConfig, Span, SlabPages, IsSlot;
    if o.InSlab? {
      AtSlab(g, s, fl, o.slab);
      SlabHeader(g, s, fl[o.slab], o.slab);
      SlotInside(g, s.info[o.slab].cls, o.slab, o.obj);
      SlabIsBlock(r, high, s, o.slab);
    }
  }

  lemma SpansApart(g: Config, a: Block, b: Block)
    requires Apart(a, b)
    ensures Virt(g, a.head) + Span(a.order) <= Virt(g, b.head) || Virt(g, b.head) + Span(b.order) <= Virt(g, a.head)
  {
    hide Pow2;
  }

  /** No two live allocations share a byte. */
  lemma LiveDisjoint(g: Config, s: Slabs, fl: map<nat, seq<nat>>, z: Bounds, r: Records, high: set<Block>, o: Owner,
                     q: Owner)
    requires GoodConfig(g) && SlabsOk(g, s, fl) && SlabPages(r, high, s) && Tiled(z, high) && o != q
    requires LiveOwner(g, s, fl, high, o) && LiveOwner(g, s, fl, high, q)
    ensures Base(g, o) + Length(g, s, o) <= Base(g, q) || Base(g, q) + Length(g, s, q) <= Base(g, o)
  {
    hide SlabOk, SlabsOk, GoodConfig, Span, Tiled, SlabPages;
    InsideHome(g, s, fl, r, high, o);
    InsideHome(g, s, fl, r, high, q);
    if Home(s, o) != Home(s, q) {
      TiledApart(z, high, Home(s, o), Home(s, q));
      SpansApart(g, Home(s, o), Home(s, q));
    } else if o.InSlab? {
      AtSlab(g, s, fl, o.slab);
      var c := g.caches[s.info[o.slab].cls];
      SlotsDisjoint(Virt(g, o.slab) + Start(c.objSize), c.objSize, c.objsPerSlab, o.obj, q.obj);
    }
  }

  /** The same owners are live, with the same bytes. */
  ghost predicate SameOwners(g: Config, s: Slabs, fl: map<nat, seq<nat>>, high: set<Block>,
                             s': Slabs, fl': map<nat, seq<nat>>, high': set<Block>) {
    forall q: Owner ::
      (LiveOwner(g, s', fl', high', q) <==> LiveOwner(g, s, fl, high, q)) &&
      (LiveOwner(g, s, fl, high, q) ==> Length(g, s', q) == Length(g, s, q))
  }

  /** Owner o, not live before, is live too. */
  ghost predicate OneOwnerMore(g: Config, s: Slabs, fl: map<nat, seq<nat>>, high: set<Block>,
                               s': Slabs, fl': map<nat, seq<nat>>, high': set<Block>, o: Owner) {
    && !LiveOwner(g, s, fl, high, o)
    && forall q: Owner ::
         (LiveOwner(g, s', fl', high', q) <==> LiveOwner(g, s, fl, high, q) || q == o) &&
         (LiveOwner(g, s, fl, high, q) ==> Length(g, s', q) == Length(g, s, q))
  }

  /** Owner o is live no longer. */
  ghost predicate OneOwnerLess(g: Config, s: Slabs, fl: map<nat, seq<nat>>, high: set<Block>,
                               s': Slabs, fl': map<nat, seq<nat>>, high': set<Block>, o: Owner) {
    forall q: Owner ::
      (LiveOwner(g, s', fl', high', q) <==> LiveOwner(g, s, fl, high, q) && q != o) &&
      (LiveOwner(g, s', fl', high', q) ==> Length(g, s', q) == Length(g, s, q))
  }

  // Slab operations, seen as owners.

  lemma SlabSame(g: Config, s: Slabs, fl: map<nat, seq<nat>>, high: set<Block>, s': Slabs, fl': map<nat, seq<nat>>,
                 high': set<Block>)
    requires SameLive(g, s, fl, s', fl') && PageBlocks(high', s'.info) == PageBlocks(high, s.info)
    ensures SameOwners(g, s, fl, high, s', fl', high')
  {
    hide LiveAt, PageBlocks;
    forall q: Owner
      ensures LiveOwner(g, s', fl', high', q) <==> LiveOwner(g, s, fl, high, q)
      ensures LiveOwner(g, s, fl, high, q) ==> Length(g, s', q) == Length(g, s, q)
    {
      if q.InSlab? && LiveAt(g, s, fl, q.slab, q.obj) {
        assert SameClass(s, s', q.slab);
      }
    }
  }

  lemma SlabMore(g: Config, s: Slabs, fl: map<nat, seq<nat>>, high: set<Block>, s': Slabs, fl': map<nat, seq<nat>>,
                 high': set<Block>, v: nat, a: nat)
    requires LiveMore(g, s, fl, s', fl', v, a) && PageBlocks(high', s'.info) == PageBlocks(high, s.info)
    ensures OneOwnerMore(g, s, fl, high, s', fl', high', InSlab(v, a))
  {
    hide LiveAt, PageBlocks;
    forall q: Owner
      ensures LiveOwner(g, s', fl', high', q) <==> LiveOwner(g, s, fl, high, q) || q == InSlab(v, a)
      ensures LiveOwner(g, s, fl, high, q) ==> Length(g, s', q) == Length(g, s, q)
    {
      if q.InSlab? && LiveAt(g, s, fl, q.slab, q.obj) {
        assert SameClass(s, s', q.slab);
      }
    }
  }

  lemma SlabLess(g: Config, s: Slabs, fl: map<nat, seq<nat>>, high: set<Block>, s': Slabs, fl': map<nat, seq<nat>>,
                 high': set<Block>, v: nat, a: nat)
    requires LiveLess(g, s, fl, s', fl', v, a) && PageBlocks(high', s'.info) == PageBlocks(high, s.info)
    ensures OneOwnerLess(g, s, fl, high, s', fl', high', InSlab(v, a))
  {
    hide LiveAt, PageBlocks;
    forall q: Owner
      ensures LiveOwner(g, s', fl', high', q) <==> LiveOwner(g, s, fl, high, q) && q != InSlab(v, a)
      ensures LiveOwner(g, s', fl', high', q) ==> Length(g, s', q) == Length(g, s, q)
    {
      if q.InSlab? && LiveAt(g, s', fl', q.slab, q.obj) {
        assert SameClass(s, s', q.slab);
      }
    }
  }

  // Page blocks.

  lemma PagesMore(g: Config, s: Slabs, fl: map<nat, seq<nat>>, high: set<Block>, high': set<Block>, a: Block)
    requires Took(high, high', a) && a.head !in s.info
    ensures OneOwnerMore(g, s, fl, high, s, fl, high', Pages(a))
  {
    hide LiveAt;
    TookOthers(high, high', a);
  }

  lemma PagesLess(g: Config, s: Slabs, fl: map<nat, seq<nat>>, high: set<Block>, high': set<Block>, a: Block)
    requires Took(high', high, a) && a.head !in s.info
    ensures OneOwnerLess(g, s, fl, high, s, fl, high', Pages(a))
  {
    hide LiveAt;
    TookOthers(high', high, a);
  }

  // Allocation.

  /** `pages_to_order`: the smallest order whose blocks hold that many pages. */
  method PagesToOrder(pages: nat) returns (order: nat)
    requires pages > 0
    ensures pages <= Pow2(order) && (order > 0 ==> Pow2(order - 1) < pages)
  {
    order := 0;
    var n := 1;
    while n < pages
      invariant n == Pow2(order) && (order > 0 ==> Pow2(order - 1) < pages)
      decreases pages - n
    {
      n := 2 * n;
      order := order + 1;
    }
  }

  /** A heap: its slab allocator, with physical memory mapped at a multiple of the
      largest block. */
  ghost predicate HeapOk(heap: SlabAllocator)
    reads heap, heap.zones, heap.zones.frames, heap.zones.dma, heap.zones.high
  {
    heap.Valid() && Aligned(heap.hhdm, 12 + MAX_ORDER)
  }

  /** `alloc_pages_by_order` from the high zone, as an address. */
  method AllocBlock(heap: SlabAllocator, order: nat) returns (r: Option<nat>, ghost a: Block)
    requires HeapOk(heap)
    modifies heap.zones.dma, heap.zones.high, heap.zones.frames
    ensures HeapOk(heap)
    ensures r == None <==> NoRun(heap.zones.high.maxOrder, old(heap.zones.high.blocks), order)
    ensures r == None ==> heap.zones.high.blocks == old(heap.zones.high.blocks)
    ensures r.Some? ==> a == Block(a.head, order, false) && r.value == Virt(heap.Cfg(), a.head) && BlockAligned(a)
    ensures r.Some? ==> OneOwnerMore(heap.Cfg(), heap.s, heap.fl, old(heap.zones.high.blocks),
                                     heap.s, heap.fl, heap.zones.high.blocks, Pages(a))
  {
    hide *;
    ElimHeap(heap);
    heap.ElimValid();
    heap.ElimFramed();
    ghost var z, r0, high0 := heap.zones.high.Zone(), heap.zones.frames.r, heap.zones.high.blocks;
    ManagerComplete(heap.zones);
    var pfn := heap.zones.AllocPages(High, order);
    ManagerComplete(heap.zones);
    a := Block(0, order, false);
    if pfn.None? {
      heap.IntroValid();
      IntroHeap(heap);
      return None, a;
    }
    a := Block(pfn.value, order, false);
    TakenKeeps(z, r0, heap.zones.frames.r, high0, heap.zones.high.blocks, a, heap.s);
    TookOthers(high0, heap.zones.high.blocks, a);
    HighBlockAligned(heap.zones, a);
    PagesMore(heap.Cfg(), heap.s, heap.fl, high0, heap.zones.high.blocks, a);
    heap.IntroValid();
    IntroHeap(heap);
    VirtIs(heap, pfn.value);
    return Some(heap.hhdm + pfn.value * PAGE_SIZE), a;
  }

  ghost predicate BlockAligned(a: Block) {
    Aligned(a.head, a.order) && a.order <= MAX_ORDER
  }

  lemma HighBlockAligned(m: ZonesManager, a: Block)
    requires m.Valid() && a in m.high.blocks
    ensures BlockAligned(a)
  {
    assert BlockOk(m.high.Zone(), a);
  }

  lemma ElimHeap(heap: SlabAllocator)
    requires HeapOk(heap)
    ensures heap.Valid() && Aligned(heap.hhdm, 12 + MAX_ORDER)
  {
  }

  lemma IntroHeap(heap: SlabAllocator)
    requires heap.Valid() && Aligned(heap.hhdm, 12 + MAX_ORDER)
    ensures HeapOk(heap)
  {
  }

  lemma VirtIs(heap: SlabAllocator, pfn: nat)
    ensures Virt(heap.Cfg(), pfn) == heap.hhdm + pfn * PAGE_SIZE && heap.Cfg().hhdm == heap.hhdm
  {
  }

  /** `slab_alloc`. */
  method AllocObject(heap: SlabAllocator, size: nat) returns (r: Option<nat>, ghost o: Owner)
    requires HeapOk(heap)
    modifies heap, heap.zones.dma, heap.zones.high, heap.zones.frames
    ensures HeapOk(heap) && heap.caches == old(heap.caches)
    ensures r == None ==> SameOwners(heap.Cfg(), old(heap.s), old(heap.fl), old(heap.zones.high.blocks),
                                     heap.s, heap.fl, heap.zones.high.blocks)
    ensures r == None <==>
              (size > SLAB_MAX_ALLOC ||
               NoSlabFor(heap.caches, heap.zones.high.maxOrder, old(heap.zones.high.blocks), old(heap.s), size))
    ensures r.Some? ==> OneOwnerMore(heap.Cfg(), old(heap.s), old(heap.fl), old(heap.zones.high.blocks),
                                     heap.s, heap.fl, heap.zones.high.blocks, o)
    ensures r.Some? ==> r.value == Base(heap.Cfg(), o) && size <= Length(heap.Cfg(), heap.s, o)
    ensures r.Some? ==> r.value > 0 && r.value % SLAB_MIN_ALIGN == 0
  {
    hide *;
    ElimHeap(heap);
    heap.ElimValid();
    heap.ElimCore(INVALID_PFN);
    ghost var g, s0, fl0, high0 := heap.Cfg(), heap.s, heap.fl, heap.zones.high.blocks;
    ghost var slab;
    r, slab := heap.Alloc(size);
    IntroHeap(heap);
    o := InSlab(slab, 0);
    if r.None? {
      SlabSame(g, s0, fl0, high0, heap.s, heap.fl, heap.zones.high.blocks);
      return;
    }
    o := InSlab(slab, r.value);
    SlabMore(g, s0, fl0, high0, heap.s, heap.fl, heap.zones.high.blocks, slab, r.value);
    ObjectIs(g, s0, fl0, heap.s, heap.fl, slab, r.value);
  }

  lemma ObjectIs(g: Config, s0: Slabs, fl0: map<nat, seq<nat>>, s: Slabs, fl: map<nat, seq<nat>>, v: nat, a: nat)
    requires GoodConfig(g) && LiveMore(g, s0, fl0, s, fl, v, a) && v in s.info && s.info[v].cls < |g.caches|
    requires Aligned(g.hhdm, 12)
    ensures Base(g, InSlab(v, a)) == a > 0 && a % SLAB_MIN_ALIGN == 0
    ensures Length(g, s, InSlab(v, a)) == g.caches[s.info[v].cls].objSize
  {
    hide Slots, Start, GoodCache, GoodConfig;
    assert LiveAt(g, s, fl, v, a);
    SlotInside(g, s.info[v].cls, v, a);
    SlotAligned(g, s.info[v].cls, v, a);
  }

  lemma {:induction false} SlotsSixteen(a: nat, size: nat, n: nat, x: nat)
    requires x in Slots(a, size, n) && a % 16 == 0 && size % 16 == 0
    ensures x % 16 == 0
    decreases n
  {
    if x != a {
      SlotsSixteen(a + size, size, n - 1, x);
    }
  }

  lemma SlotAligned(g: Config, cls: nat, v: nat, a: nat)
    requires GoodConfig(g) && IsSlot(g, cls, v, a) && Aligned(g.hhdm, 12)
    ensures a % SLAB_MIN_ALIGN == 0
  {
    hide Slots, Start, GoodCache, Aligned, Virt;
    var c := g.caches[cls];
    CacheSixteen(c);
    VirtSixteen(g, v);
    SlotsSixteen(Virt(g, v) + Start(c.objSize), c.objSize, c.objsPerSlab, a);
  }

  lemma CacheSixteen(c: Cache)
    requires GoodCache(c)
    ensures c.objSize > 0 && Start(c.objSize) % 16 == 0 && c.objSize % 16 == 0
  {
    hide Start, Span;
  }

  lemma VirtSixteen(g: Config, v: nat)
    requires Aligned(g.hhdm, 12)
    ensures Virt(g, v) % 16 == 0
  {
    hide Aligned, Pow2;
    SmallMask();
    var q, r := AlignedIsMultiple(g.hhdm, 12);
    ModOfMultiple(256 * (q + v), 16, 0);
  }

  /** The smallest order whose blocks hold the bytes and reach the alignment. */
  ghost predicate FitsOrder(order: nat, bytes: nat, align: nat) {
    && bytes <= PAGE_SIZE * Pow2(order) && align <= PAGE_SIZE * Pow2(order)
    && (order > 0 ==> PAGE_SIZE * Pow2(order - 1) < bytes || PAGE_SIZE * Pow2(order - 1) < align)
  }

  /** There is no block of the smallest order that would do. */
  ghost predicate NoBlockFor(maxOrder: nat, high: set<Block>, bytes: nat, align: nat) {
    exists order: nat :: FitsOrder(order, bytes, align) && NoRun(maxOrder, high, order)
  }

  lemma {:induction false} FitsUnique(i: nat, j: nat, bytes: nat, align: nat)
    requires FitsOrder(i, bytes, align) && FitsOrder(j, bytes, align)
    ensures i == j
  {
    hide Pow2;
    if i < j {
      Pow2Monotone(i, j - 1);
    } else if j < i {
      Pow2Monotone(j, i - 1);
    }
  }

  lemma NoBlockIs(maxOrder: nat, high: set<Block>, bytes: nat, align: nat, order: nat)
    requires FitsOrder(order, bytes, align)
    ensures NoBlockFor(maxOrder, high, bytes, align) <==> NoRun(maxOrder, high, order)
  {
    hide NoRun, FitsOrder;
    forall i: nat | FitsOrder(i, bytes, align) ensures i == order {
      FitsUnique(i, order, bytes, align);
    }
  }

  /** `kmalloc`, up to zeroing: None exactly for no bytes or no memory; otherwise
      bytes that no live allocation has. */
  method Kmalloc(heap: SlabAllocator, bytes: nat) returns (r: Option<nat>, ghost o: Owner)
    requires HeapOk(heap)
    modifies heap, heap.zones.dma, heap.zones.high, heap.zones.frames
    ensures HeapOk(heap) && heap.caches == old(heap.caches)
    ensures r == None <==>
              (if bytes == 0 then true
               else if bytes <= SLAB_MAX_ALLOC
               then NoSlabFor(heap.caches, heap.zones.high.maxOrder, old(heap.zones.high.blocks), old(heap.s), bytes)
               else NoBlockFor(heap.zones.high.maxOrder, old(heap.zones.high.blocks), bytes, 1))
    ensures r == None ==> SameOwners(heap.Cfg(), old(heap.s), old(heap.fl), old(heap.zones.high.blocks),
                                     heap.s, heap.fl, heap.zones.high.blocks)
    ensures r.Some? ==> OneOwnerMore(heap.Cfg(), old(heap.s), old(heap.fl), old(heap.zones.high.blocks),
                                     heap.s, heap.fl, heap.zones.high.blocks, o)
    ensures r.Some? ==> r.value == Base(heap.Cfg(), o) && bytes <= Length(heap.Cfg(), heap.s, o)
    ensures r.Some? ==> r.value > 0 && r.value % SLAB_MIN_ALIGN == 0
  {
    hide *;
    ghost var g, s0, fl0, high0 := heap.Cfg(), heap.s, heap.fl, heap.zones.high.blocks;
    SameOwnersRefl(g, s0, fl0, high0);
    o := InSlab(0, 0);
    if bytes == 0 {
      return None, o;
    }
    if bytes <= SLAB_MAX_ALLOC {
      r, o := AllocObject(heap, bytes);
      return;
    }
    PagesFor(bytes);
    var aligned := AlignUp(bytes, PAGE_SIZE);
    ElimHeap(heap);
    heap.ElimValid();
    heap.ElimCore(INVALID_PFN);
    var order := PagesToOrder(aligned / PAGE_SIZE);
    FitsBytes(bytes, order);
    NoBlockIs(heap.zones.high.maxOrder, high0, bytes, 1, order);
    ghost var a;
    r, a := AllocBlock(heap, order);
    o := Pages(a);
    if r.Some? {
      BlockHolds(heap.Cfg(), heap.s, bytes, a);
    }
  }

  lemma SameOwnersRefl(g: Config, s: Slabs, fl: map<nat, seq<nat>>, high: set<Block>)
    ensures SameOwners(g, s, fl, high, s, fl, high)
  {
  }

  lemma PagesFor(bytes: nat)
    requires bytes > 0
    ensures PAGE_SIZE > 0 && AlignUp(bytes, PAGE_SIZE) / PAGE_SIZE > 0
    ensures forall n: nat :: AlignUp(bytes, PAGE_SIZE) / PAGE_SIZE <= n <==> bytes <= PAGE_SIZE * n
  {
    SmallMask();
    RoundPow2(bytes, PAGE_SIZE, 12);
  }

  lemma FitsBytes(bytes: nat, order: nat)
    requires bytes > 0 && PAGE_SIZE > 0 && var n := AlignUp(bytes, PAGE_SIZE) / PAGE_SIZE;
             n <= Pow2(order) && (order > 0 ==> Pow2(order - 1) < n)
    ensures FitsOrder(order, bytes, 1)
  {
    hide AlignUp;
    PagesFor(bytes);
  }

  lemma FitsBoth(bytes: nat, align: nat, i: nat, j: nat)
    requires FitsOrder(i, bytes, 1) && FitsOrder(j, align, 1) && bytes > 0 && align > 0
    ensures FitsOrder(if j > i then j else i, bytes, align)
  {
    hide Pow2;
    Pow2Monotone(i, if j > i then j else i);
    Pow2Monotone(j, if j > i then j else i);
  }

  lemma BlockHolds(g: Config, s: Slabs, bytes: nat, a: Block)
    requires g.hhdm > 0 && Aligned(g.hhdm, 12) && bytes <= PAGE_SIZE * Pow2(a.order)
    ensures Base(g, Pages(a)) == Virt(g, a.head) > 0 && Virt(g, a.head) % SLAB_MIN_ALIGN == 0
    ensures bytes <= Length(g, s, Pages(a))
  {
    hide Aligned, Pow2;
    VirtSixteen(g, a.head);
  }

  // Alignment of page blocks.

  lemma DoubleAligned(x: nat, k: nat)
    requires Aligned(x, k)
    ensures Aligned(2 * x, k + 1)
  {
  }

  lemma {:induction false} ShiftAligned(x: nat, j: nat, k: nat)
    requires Aligned(x, k)
    ensures Aligned(x * Pow2(j), j + k)
    decreases j
  {
    if j > 0 {
      ShiftAligned(x, j - 1, k);
      assert x * Pow2(j) == 2 * (x * Pow2(j - 1));
      DoubleAligned(x * Pow2(j - 1), j - 1 + k);
    }
  }

  /** A block of an order is aligned to its own size, when the mapping is. */
  lemma BlockAddress(hhdm: nat, a: Block, k: nat)
    requires Aligned(hhdm, 12 + MAX_ORDER) && BlockAligned(a) && k <= 12 + a.order
    ensures Aligned(hhdm + a.head * PAGE_SIZE, k)
  {
    hide Aligned, Pow2;
    SmallMask();
    ShiftAligned(a.head, 12, a.order);
    AlignedWeaken(hhdm, k, 12 + MAX_ORDER);
    AlignedWeaken(a.head * PAGE_SIZE, k, 12 + a.order);
    AlignedAdd(hhdm, a.head * PAGE_SIZE, k);
  }

  /** Enough pages for an alignment make an order that reaches it. */
  lemma OrderReaches(align: nat, k: nat, order: nat)
    requires align == Pow2(k)
    requires var n := AlignUp(align, PAGE_SIZE) / PAGE_SIZE; (if n < 1 then 1 else n) <= Pow2(order)
    ensures k <= 12 + order
  {
    hide AlignUp, Pow2;
    SmallMask();
    RoundPow2(align, PAGE_SIZE, 12);
    PowSplit(12, order);
    PowSplit(1, 12 + order);
    PowOne();
    assert align <= PAGE_SIZE * Pow2(order);
    if k > 12 + order {
      Pow2Monotone(12 + order + 1, k);
    }
  }

  lemma PowOne()
    ensures Pow2(1) == 2
  {
  }

  lemma {:induction false} PowSplit(j: nat, k: nat)
    ensures Pow2(j + k) == Pow2(j) * Pow2(k)
    decreases j
  {
    if j > 0 {
      PowSplit(j - 1, k);
      assert Pow2(j) * Pow2(k) == 2 * (Pow2(j - 1) * Pow2(k));
    }
  }

  lemma AlignedDivides(x: nat, align: nat, k: nat)
    requires align == Pow2(k) && Aligned(x, k)
    ensures x % align == 0
  {
    var q, r := AlignedIsMultiple(x, k);
  }

  lemma SmallAlign(x: nat, align: nat, k: nat)
    requires align == Pow2(k) && align <= SLAB_MIN_ALIGN && x % SLAB_MIN_ALIGN == 0
    ensures x % align == 0
  {
    hide Pow2, Aligned;
    Powers();
    if k > 4 {
      Pow2Monotone(5, k);
    }
    var q, r := AlignedIsMultiple(x, 4);
    AlignedWeaken(x, k, 4);
    AlignedDivides(x, align, k);
  }

  /** The page path of `alloc_for_layout`. */
  method AllocAligned(heap: SlabAllocator, size: nat, align: nat, ghost k: nat) returns (r: nat, ghost o: Owner)
    requires HeapOk(heap) && size > 0 && align == Pow2(k)
    modifies heap.zones.dma, heap.zones.high, heap.zones.frames
    ensures HeapOk(heap)
    ensures r == 0 <==> NoBlockFor(heap.zones.high.maxOrder, old(heap.zones.high.blocks), size, align)
    ensures r == 0 ==> heap.zones.high.blocks == old(heap.zones.high.blocks)
    ensures r > 0 ==>
              && OneOwnerMore(heap.Cfg(), heap.s, heap.fl, old(heap.zones.high.blocks),
                              heap.s, heap.fl, heap.zones.high.blocks, o)
              && r == Base(heap.Cfg(), o) && size <= Length(heap.Cfg(), heap.s, o) && r % align == 0
  {
    hide *;
    PagesFor(size);
    PagesFor(align);
    var sizePages, alignPages := AlignUp(size, PAGE_SIZE) / PAGE_SIZE, AlignUp(align, PAGE_SIZE) / PAGE_SIZE;
    var bySize := PagesToOrder(sizePages);
    var byAlign := PagesToOrder(if alignPages < 1 then 1 else alignPages);
    var order := if byAlign > bySize then byAlign else bySize;
    Pow2Monotone(bySize, order);
    Pow2Monotone(byAlign, order);
    FitsBytes(size, bySize);
    FitsBytes(align, byAlign);
    FitsBoth(size, align, bySize, byAlign);
    NoBlockIs(heap.zones.high.maxOrder, heap.zones.high.blocks, size, align, order);
    ElimHeap(heap);
    heap.ElimValid();
    heap.ElimCore(INVALID_PFN);
    ghost var a;
    var found;
    found, a := AllocBlock(heap, order);
    o := Pages(a);
    if found.None? {
      return 0, o;
    }
    BlockHolds(heap.Cfg(), heap.s, size, a);
    OrderReaches(align, k, order);
    BlockAddress(heap.hhdm, a, k);
    VirtIs(heap, a.head);
    AlignedDivides(found.value, align, k);
    return found.value, o;
  }

  /** What `NonNull::dangling` is for bytes. */
  const DANGLING: nat := 1

  /** `alloc_for_layout`, up to zeroing: the null address 0 when there is no memory,
      otherwise as many bytes as asked for, aligned as asked for, that no live
      allocation has. */
  method AllocForLayout(heap: SlabAllocator, size: nat, align: nat) returns (r: nat, ghost o: Owner)
    requires HeapOk(heap) && IsPowerOfTwo(align)
    modifies heap, heap.zones.dma, heap.zones.high, heap.zones.frames
    ensures HeapOk(heap) && heap.caches == old(heap.caches)
    ensures size == 0 ==> r == DANGLING
    ensures r == 0 <==>
              (if size == 0 then false
               else if size <= SLAB_MAX_ALLOC && align <= SLAB_MIN_ALIGN
               then NoSlabFor(heap.caches, heap.zones.high.maxOrder, old(heap.zones.high.blocks), old(heap.s), size)
               else NoBlockFor(heap.zones.high.maxOrder, old(heap.zones.high.blocks), size, align))
    ensures r == 0 || size == 0 ==>
              SameOwners(heap.Cfg(), old(heap.s), old(heap.fl), old(heap.zones.high.blocks),
                         heap.s, heap.fl, heap.zones.high.blocks)
    ensures r > 0 && size > 0 ==>
              && OneOwnerMore(heap.Cfg(), old(heap.s), old(heap.fl), old(heap.zones.high.blocks),
                              heap.s, heap.fl, heap.zones.high.blocks, o)
              && r == Base(heap.Cfg(), o) && size <= Length(heap.Cfg(), heap.s, o) && r % align == 0
  {
    ghost var k := PowerOfTwoIsPow2(align);
    hide *;
    ghost var g, s0, fl0, high0 := heap.Cfg(), heap.s, heap.fl, heap.zones.high.blocks;
    SameOwnersRefl(g, s0, fl0, high0);
    o := InSlab(0, 0);
    var found;
    if size == 0 {
      DanglingIsOne();
      return DANGLING, o;
    }
    if size <= SLAB_MAX_ALLOC && align <= SLAB_MIN_ALIGN {
      found, o := AllocObject(heap, size);
      if found.Some? {
        SmallAlign(found.value, align, k);
      }
      return if found.Some? then found.value else 0, o;
    }
    r, o := AllocAligned(heap, size, align, k);
  }

  lemma DanglingIsOne()
    ensures DANGLING == 1
  {
  }

  // Freeing.

  /** An allocation has at least one byte. */
  lemma Occupied(g: Config, s: Slabs, fl: map<nat, seq<nat>>, high: set<Block>, o: Owner)
    requires GoodConfig(g) && SlabsOk(g, s, fl) && LiveOwner(g, s, fl, high, o)
    ensures Length(g, s, o) > 0
  {
    hide SlabOk, SlabsOk, GoodConfig;
    if o.InSlab? {
      AtSlab(g, s, fl, o.slab);
      SizePositive(g, s.info[o.slab].cls);
    }
  }

  /** An address is the base of at most one allocation. */
  lemma OneOwner(g: Config, s: Slabs, fl: map<nat, seq<nat>>, z: Bounds, r: Records, high: set<Block>, o: Owner,
                 q: Owner)
    requires GoodConfig(g) && SlabsOk(g, s, fl) && SlabPages(r, high, s) && Tiled(z, high)
    requires LiveOwner(g, s, fl, high, o) && LiveOwner(g, s, fl, high, q) && Base(g, o) == Base(g, q)
    ensures o == q
  {
    hide *;
    Occupied(g, s, fl, high, o);
    Occupied(g, s, fl, high, q);
    if o != q {
      LiveDisjoint(g, s, fl, z, r, high, o, q);
    }
  }

  /** The base of a live allocation looks like an object of slab v only if it is one. */
  lemma BaseIsPlausible(g: Config, s: Slabs, fl: map<nat, seq<nat>>, z: Bounds, r: Records, high: set<Block>,
                        o: Owner, v: nat)
    requires GoodConfig(g) && SlabsOk(g, s, fl) && SlabPages(r, high, s) && Tiled(z, high)
    requires LiveOwner(g, s, fl, high, o) && v in s.info && Plausible(g, s, v, Base(g, o))
    ensures LiveAt(g, s, fl, v, Base(g, o))
  {
    hide SlabOk, SlabsOk, GoodConfig, Span, Tiled, SlabPages, LiveAt, PageBlocks, Start;
    InsideHome(g, s, fl, r, high, o);
    Occupied(g, s, fl, high, o);
    SlabIsBlock(r, high, s, v);
    if Home(s, o) != SlabBlock(s, v) {
      TiledApart(z, high, Home(s, o), SlabBlock(s, v));
      SpansApart(g, Home(s, o), SlabBlock(s, v));
    }
  }

  /** `kfree`: the pointer goes back to its owner, slab or buddy block, and to no
      other; the null pointer is ignored. The size is not needed. */
  method Kfree(heap: SlabAllocator, ptr: nat, ghost o: Owner)
    requires HeapOk(heap)
    requires ptr > 0 ==> LiveOwner(heap.Cfg(), heap.s, heap.fl, heap.zones.high.blocks, o) && Base(heap.Cfg(), o) == ptr
    modifies heap, heap.zones.dma, heap.zones.high, heap.zones.frames
    ensures HeapOk(heap) && heap.caches == old(heap.caches)
    ensures ptr == 0 ==> SameOwners(heap.Cfg(), old(heap.s), old(heap.fl), old(heap.zones.high.blocks),
                                    heap.s, heap.fl, heap.zones.high.blocks)
    ensures ptr > 0 ==> OneOwnerLess(heap.Cfg(), old(heap.s), old(heap.fl), old(heap.zones.high.blocks),
                                     heap.s, heap.fl, heap.zones.high.blocks, o)
  {
    hide *;
    ghost var g, s0, fl0, high0, r0, z :=
      heap.Cfg(), heap.s, heap.fl, heap.zones.high.blocks, heap.zones.frames.r, heap.zones.high.Zone();
    SameOwnersRefl(g, s0, fl0, high0);
    if ptr == 0 {
      return;
    }
    ElimHeap(heap);
    heap.ElimValid();
    heap.ElimCore(INVALID_PFN);
    heap.ElimFramed();
    ManagerComplete(heap.zones);
    InsideHome(g, s0, fl0, r0, high0, o);
    AboveMap(g, Home(s0, o).head);
    forall v | v in s0.info && Plausible(g, s0, v, ptr) ensures LiveAt(g, s0, fl0, v, ptr) {
      BaseIsPlausible(g, s0, fl0, z, r0, high0, o, v);
    }
    var ok := heap.Free(ptr);
    if ok {
      ghost var v :| LiveAt(g, s0, fl0, v, ptr) && LiveLess(g, s0, fl0, heap.s, heap.fl, v, ptr);
      ObjectOwner(g, s0, fl0, high0, v, ptr);
      OneOwner(g, s0, fl0, z, r0, high0, o, InSlab(v, ptr));
      SlabLess(g, s0, fl0, high0, heap.s, heap.fl, heap.zones.high.blocks, v, ptr);
      IntroHeap(heap);
      return;
    }
    IntroHeap(heap);
    PageOwner(g, s0, fl0, high0, o, ptr);
    FreeBlock(heap, ptr, o.block);
  }

  lemma AboveMap(g: Config, pfn: nat)
    ensures Virt(g, pfn) >= g.hhdm
  {
  }

  lemma ObjectOwner(g: Config, s: Slabs, fl: map<nat, seq<nat>>, high: set<Block>, v: nat, a: nat)
    requires LiveAt(g, s, fl, v, a)
    ensures LiveOwner(g, s, fl, high, InSlab(v, a)) && Base(g, InSlab(v, a)) == a
  {
  }

  lemma PageOwner(g: Config, s: Slabs, fl: map<nat, seq<nat>>, high: set<Block>, o: Owner, ptr: nat)
    requires LiveOwner(g, s, fl, high, o) && Base(g, o) == ptr && forall v :: !LiveAt(g, s, fl, v, ptr)
    ensures o.Pages? && o.block in PageBlocks(high, s.info) && ptr == Virt(g, o.block.head)
  {
  }

  /** `free_pages` of a block that is no slab. */
  method FreeBlock(heap: SlabAllocator, ptr: nat, ghost a: Block)
    requires HeapOk(heap) && a in PageBlocks(heap.zones.high.blocks, heap.s.info) && ptr == Virt(heap.Cfg(), a.head)
    modifies heap.zones.dma, heap.zones.high, heap.zones.frames
    ensures HeapOk(heap)
    ensures OneOwnerLess(heap.Cfg(), heap.s, heap.fl, old(heap.zones.high.blocks),
                         heap.s, heap.fl, heap.zones.high.blocks, Pages(a))
  {
    hide *;
    ElimHeap(heap);
    heap.ElimValid();
    heap.ElimFramed();
    ManagerComplete(heap.zones);
    ghost var z, r0, high0 := heap.zones.high.Zone(), heap.zones.frames.r, heap.zones.high.blocks;
    PageBlockIs(r0, high0, heap.s, a);
    HighOnly(heap.zones, a);
    UnlinkedIsCleared(r0, a);
    VirtIs(heap, a.head);
    PageOfVirt(heap.Cfg(), a.head);
    var pfn := PageAt(heap.hhdm, ptr);
    heap.zones.FreePages(pfn);
    ManagerComplete(heap.zones);
    ReturnedKeeps(z, r0, heap.zones.frames.r, high0, heap.zones.high.blocks, a, heap.s);
    PagesLess(heap.Cfg(), heap.s, heap.fl, high0, heap.zones.high.blocks, a);
    heap.IntroValid();
    IntroHeap(heap);
  }

  lemma PageBlockIs(r: Records, high: set<Block>, s: Slabs, a: Block)
    requires a in PageBlocks(high, s.info) && OthersUnlinked(r, high, s)
    ensures a in high && !a.free && a.head !in s.info && Unlinked(r, a) && a == Block(a.head, a.order, false)
  {
  }

  lemma PageOfVirt(g: Config, pfn: nat)
    ensures Virt(g, pfn) >= g.hhdm && PageAt(g.hhdm, Virt(g, pfn)) == pfn
  {
  }
}
