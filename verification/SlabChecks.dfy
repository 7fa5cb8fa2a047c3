/** What the checks of `free` let through beside live objects, and what becomes of the
    slab then. */
module SlabChecks {
  import opened Frames
  import opened KernelHeap
  import opened SlabAllocation
  import opened SlabFrames
  import opened SlabLayout
  import opened SlabSlots
  import opened SlabState

  /** The address behind the last whole slot of the slab. */
  ghost function CutOff(g: Config, cls: nat, v: nat): nat
    requires cls < |g.caches| && g.caches[cls].objSize > 0
  {
    Virt(g, v) + Start(g.caches[cls].objSize) + g.caches[cls].objsPerSlab * g.caches[cls].objSize
  }

  /** The address of the slot that the end of the slab cuts off, where there is one. */
  ghost predicate IsCutOff(g: Config, cls: nat, v: nat, a: nat) {
    && cls < |g.caches| && g.caches[cls].objSize > 0
    && a == CutOff(g, cls, v) && a < Virt(g, v) + Span(g.caches[cls].order)
  }

  /** In a slab with objects in use the checks let through exactly the slots, free or live,
      and the address of the slot cut off at the end. */
  lemma PlausibleExactly(g: Config, s: Slabs, fl: map<nat, seq<nat>>, v: nat, a: nat)
    requires GoodConfig(g) && SlabsOk(g, s, fl) && v in s.info && v in s.inuse && s.inuse[v] > 0
    ensures Plausible(g, s, v, a) <==> IsSlot(g, s.info[v].cls, v, a) || IsCutOff(g, s.info[v].cls, v, a)
  {
    hide *;
    AtSlab(g, s, fl, v);
    SlabHeader(g, s, fl[v], v);
    SpanFacts(g, s.info[v].cls);
    PlausibleIs(g, s, v, a);
    var c := g.caches[s.info[v].cls];
    Meanings(g, s.info[v].cls, v, a);
    OnGrid(Virt(g, v) + Start(c.objSize), c.objSize, c.objsPerSlab, Virt(g, v) + Span(c.order), a);
  }

  lemma Meanings(g: Config, cls: nat, v: nat, a: nat)
    requires cls < |g.caches| && g.caches[cls].objSize > 0
    ensures var c := g.caches[cls];
            var base := Virt(g, v) + Start(c.objSize);
            && (IsSlot(g, cls, v, a) <==> a in Slots(base, c.objSize, c.objsPerSlab))
            && (IsCutOff(g, cls, v, a) <==> a == base + c.objsPerSlab * c.objSize && a < Virt(g, v) + Span(c.order))
  {
    hide Start, Span, Virt, Slots;
  }

  lemma SpanFacts(g: Config, cls: nat)
    requires GoodConfig(g) && cls < |g.caches|
    ensures var c := g.caches[cls];
            && c.objSize > 0 && Start(c.objSize) + c.objsPerSlab * c.objSize <= Span(c.order)
            && Span(c.order) < Start(c.objSize) + (c.objsPerSlab + 1) * c.objSize
  {
    hide Start, Span;
    assert GoodCache(g.caches[cls]);
  }

  /** The grid points before an end that lies less than a slot behind the n slots. */
  lemma OnGrid(base: nat, size: nat, n: nat, end: nat, a: nat)
    requires size > 0 && base + n * size <= end < base + (n + 1) * size
    ensures base <= a < end && (a - base) % size == 0 <==>
            a in Slots(base, size, n) || (a == base + n * size && a < end)
  {
    hide Slots;
    SlotIffOnGrid(base, size, n, a);
    SlotIffOnGrid(base, size, n + 1, a);
    SlotsSnoc(base, size, n);
  }

  /** Of the addresses that the checks let through, exactly the live objects leave a
      well-formed slab; the others are the free slots and the slot cut off. */
  lemma FreeExactly(g: Config, s: Slabs, fl: map<nat, seq<nat>>, v: nat, a: nat)
    requires GoodConfig(g) && SlabsOk(g, s, fl) && Plausible(g, s, v, a) && v in s.free && v in fl
    ensures LiveAt(g, s, fl, v, a) <==> exists free :: SlabOk(g, PutSlot(s, v, a), free, v)
    ensures LiveAt(g, s, fl, v, a) <==> a !in fl[v] && !IsCutOff(g, s.info[v].cls, v, a)
  {
    PlausibleExactly(g, s, fl, v, a);
    AtSlab(g, s, fl, v);
    PutSlotExactly(g, s, fl, v, a) by {
      SpanFacts(g, s.info[v].cls);
      assert g.hhdm > 0;
    }
    FreeAreSlots(g, s, fl[v], v, a);
    CutOffIsNoSlot(g, s.info[v].cls, v);
    hide SlabOk, SlabsOk, GoodConfig, Plausible, IsCutOff, IsSlot;
  }

  lemma FreeAreSlots(g: Config, s: Slabs, free: seq<nat>, v: nat, a: nat)
    requires SlabOk(g, s, free, v)
    ensures a in free ==> IsSlot(g, s.info[v].cls, v, a)
  {
  }

  lemma CutOffIsNoSlot(g: Config, cls: nat, v: nat)
    requires GoodConfig(g) && cls < |g.caches|
    ensures forall a :: IsCutOff(g, cls, v, a) ==> !IsSlot(g, cls, v, a)
  {
    SpanFacts(g, cls);
    var c := g.caches[cls];
    var base := Virt(g, v) + Start(c.objSize);
    hide Start, Span, Virt, Slots;
    SlotIffOnGrid(base, c.objSize, c.objsPerSlab, base + c.objsPerSlab * c.objSize);
  }

  /** The cut-off slot of the 96-byte class: 4064 bytes into the slab, on the grid and below
      the end, so the checks let it through, and the push ruins the slab. */
  lemma CutOffPasses(g: Config, s: Slabs, fl: map<nat, seq<nat>>, v: nat)
    requires CachesOk(g.caches) && GoodConfig(g) && SlabsOk(g, s, fl)
    requires v in s.info && v in s.inuse && v in s.free && s.inuse[v] > 0 && s.info[v].cls == 4
    ensures var a := Virt(g, v) + 4064;
            && CLASSES[4] == 96 && Plausible(g, s, v, a) && !LiveAt(g, s, fl, v, a)
            && !exists free :: SlabOk(g, PutSlot(s, v, a), free, v)
  {
    hide *;
    SmallSlab(g, v);
    CutOffRuins(g, s, fl, v, Virt(g, v) + 4064);
  }

  lemma CutOffRuins(g: Config, s: Slabs, fl: map<nat, seq<nat>>, v: nat, a: nat)
    requires GoodConfig(g) && SlabsOk(g, s, fl)
    requires v in s.info && v in s.inuse && v in s.free && s.inuse[v] > 0 && IsCutOff(g, s.info[v].cls, v, a)
    ensures Plausible(g, s, v, a) && !LiveAt(g, s, fl, v, a)
    ensures !exists free :: SlabOk(g, PutSlot(s, v, a), free, v)
  {
    hide *;
    AtSlab(g, s, fl, v);
    PlausibleExactly(g, s, fl, v, a);
    FreeExactly(g, s, fl, v, a);
  }

  lemma SmallSlab(g: Config, v: nat)
    requires CachesOk(g.caches)
    ensures CLASSES[4] == 96 && IsCutOff(g, 4, v, Virt(g, v) + 4064)
  {
    ClassLayout(4, g.caches[4]);
    Starts(4);
    Spans();
    hide Start, Span, Virt, CachesOk, GoodCache, Chosen;
  }

  /** A free slot of a slab in use, so an object freed before: the checks let it through, and
      the push ruins the slab. */
  lemma SecondFreePasses(g: Config, s: Slabs, fl: map<nat, seq<nat>>, v: nat, a: nat)
    requires GoodConfig(g) && SlabsOk(g, s, fl) && v in s.info && v in s.inuse && v in s.free && s.inuse[v] > 0
    requires v in fl && a in fl[v]
    ensures Plausible(g, s, v, a) && !LiveAt(g, s, fl, v, a)
    ensures !exists free :: SlabOk(g, PutSlot(s, v, a), free, v)
  {
    AtSlab(g, s, fl, v);
    FreeAreSlots(g, s, fl[v], v, a);
    hide SlabOk, SlabsOk, GoodConfig;
    PlausibleExactly(g, s, fl, v, a);
    FreeExactly(g, s, fl, v, a);
  }

  /** The run: an object is freed while another of its slab stays live; then the checks let
      a second free of it through, and it would ruin the slab. */
  method FreeTwice(heap: SlabAllocator, ghost v: nat, a: nat, ghost b: nat) returns (ok: bool)
    requires HeapOk(heap) && a != b
    requires LiveAt(heap.Cfg(), heap.s, heap.fl, v, a) && LiveAt(heap.Cfg(), heap.s, heap.fl, v, b)
    modifies heap, heap.zones.dma, heap.zones.high, heap.zones.frames
    ensures ok && HeapOk(heap) && v in heap.s.free && v in heap.s.inuse
    ensures Plausible(heap.Cfg(), heap.s, v, a) && !LiveAt(heap.Cfg(), heap.s, heap.fl, v, a)
    ensures !exists free :: SlabOk(heap.Cfg(), PutSlot(heap.s, v, a), free, v)
  {
    hide *;
    ghost var g, s0, fl0 := heap.Cfg(), heap.s, heap.fl;
    ElimHeap(heap);
    FreeReady(heap, v, a);
    ok := heap.Free(a);
    ghost var u :| LiveAt(g, s0, fl0, u, a) && LiveLess(g, s0, fl0, heap.s, heap.fl, u, a);
    IntroHeap(heap);
    ElimHeap(heap);
    heap.ElimValid();
    heap.ElimCore(INVALID_PFN);
    AfterFirst(g, s0, fl0, heap.s, heap.fl, u, v, a, b);
    SecondFreePasses(g, heap.s, heap.fl, v, a);
  }

  lemma FreeReady(heap: SlabAllocator, v: nat, a: nat)
    requires HeapOk(heap) && LiveAt(heap.Cfg(), heap.s, heap.fl, v, a)
    ensures heap.Valid() && a >= heap.hhdm
    ensures forall u :: u in heap.s.info && Plausible(heap.Cfg(), heap.s, u, a) ==>
              LiveAt(heap.Cfg(), heap.s, heap.fl, u, a)
    ensures forall u :: LiveAt(heap.Cfg(), heap.s, heap.fl, u, a) ==> u == v
  {
    hide *;
    ElimHeap(heap);
    heap.ElimValid();
    heap.ElimCore(INVALID_PFN);
    heap.ElimFramed();
    ghost var g, high, r, z := heap.Cfg(), heap.zones.high.blocks, heap.zones.frames.r, heap.zones.high.Zone();
    ManagerComplete(heap.zones);
    var o := InSlab(v, a);
    ObjectOwner(g, heap.s, heap.fl, high, v, a);
    InsideHome(g, heap.s, heap.fl, r, high, o);
    AboveMap(g, Home(heap.s, o).head);
    forall u | u in heap.s.info && Plausible(g, heap.s, u, a) ensures LiveAt(g, heap.s, heap.fl, u, a) {
      BaseIsPlausible(g, heap.s, heap.fl, z, r, high, o, u);
    }
    forall u | LiveAt(g, heap.s, heap.fl, u, a) ensures u == v {
      ObjectOwner(g, heap.s, heap.fl, high, u, a);
      OneOwner(g, heap.s, heap.fl, z, r, high, o, InSlab(u, a));
    }
  }

  lemma AfterFirst(g: Config, s0: Slabs, fl0: map<nat, seq<nat>>, s: Slabs, fl: map<nat, seq<nat>>,
                   u: nat, v: nat, a: nat, b: nat)
    requires GoodConfig(g) && SlabsOk(g, s, fl) && u == v && a != b
    requires LiveAt(g, s0, fl0, v, a) && LiveAt(g, s0, fl0, v, b) && LiveLess(g, s0, fl0, s, fl, u, a)
    ensures v in s.info && v in s.inuse && v in s.free && s.inuse[v] > 0 && v in fl && a in fl[v]
  {
    hide IsSlot, SlabOk, SlabsOk, GoodConfig;
    assert LiveAt(g, s, fl, v, b) && !LiveAt(g, s, fl, v, a) && SameClass(s0, s, v);
    AtSlab(g, s, fl, v);
    LiveMeansUsed(g, s, fl, v, b);
  }
}
