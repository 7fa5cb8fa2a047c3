/** The state of the slab allocator: one header per slab, the free lists inside the
    slabs and the three buckets of each size class. A slab is named by its first
    page frame, and INVALID_PFN stands for the null pointer between headers. */
module SlabState {
  import opened Blocks
  import opened Chain
  import opened Dyadic
  import opened Frames
  import opened Geometry
  import opened SlabLayout
  import opened SlabSlots

  const MAX_EMPTY_SLABS: nat := 2

  datatype Kind = Partial | Full | Empty

  /** What a header holds from the making of a slab to its release. */
  datatype Info = Info(cls: nat, order: nat, total: nat)

  /** The header fields of all slabs, and the next field of every free node. */
  datatype Slabs = Slabs(
    info: map<nat, Info>,
    kind: map<nat, Kind>,
    inuse: map<nat, nat>,
    free: map<nat, nat>,
    prev: map<nat, nat>,
    next: map<nat, nat>,
    node: map<nat, nat>)

  /** The caches, and the address at which physical memory is mapped. */
  datatype Config = Config(hhdm: nat, caches: seq<Cache>)

  ghost predicate GoodConfig(g: Config) {
    g.hhdm > 0 && forall i :: 0 <= i < |g.caches| ==> GoodCache(g.caches[i])
  }

  function Virt(g: Config, pfn: nat): nat {
    g.hhdm + pfn * PAGE_SIZE
  }

  function PfnOf(g: Config, a: nat): nat
    requires g.hhdm <= a
  {
    (a - g.hhdm) / PAGE_SIZE
  }

  ghost function SlotsOf(g: Config, cls: nat, v: nat): seq<nat>
    requires cls < |g.caches| && g.caches[cls].objSize > 0
  {
    Slots(Virt(g, v) + Start(g.caches[cls].objSize), g.caches[cls].objSize, g.caches[cls].objsPerSlab)
  }

  ghost predicate IsSlot(g: Config, cls: nat, v: nat, a: nat) {
    cls < |g.caches| && g.caches[cls].objSize > 0 && a in SlotsOf(g, cls, v)
  }

  ghost function SlabBlock(s: Slabs, v: nat): Block
    requires v in s.info
  {
    Block(v, s.info[v].order, false)
  }

  /** Every slot lies behind the header and inside the slab's pages, aligned. */
  lemma SlotInside(g: Config, cls: nat, v: nat, a: nat)
    requires GoodConfig(g) && IsSlot(g, cls, v, a)
    ensures var c := g.caches[cls];
            Virt(g, v) + HEADER_BYTES <= a && a + c.objSize <= Virt(g, v) + Span(c.order)
    ensures PfnOf(g, a) < v + Pow2(g.caches[cls].order) && v <= PfnOf(g, a)
  {
    var c := g.caches[cls];
    assert GoodCache(c);
    SlotBounds(Virt(g, v) + Start(c.objSize), c.objSize, c.objsPerSlab, a);
    hide Start, Slots, GoodCache, Pow2;
    PageRange(g, v, c.order, a);
  }

  lemma PageRange(g: Config, v: nat, order: nat, a: nat)
    requires Virt(g, v) <= a < Virt(g, v) + Span(order)
    ensures v <= PfnOf(g, a) < v + Pow2(order)
  {
    hide Pow2;
  }

  // Free lists.

  /** The header of a slab is filled in right, and its free list holds distinct
      slots, as many as are not in use. */
  ghost predicate SlabOk(g: Config, s: Slabs, free: seq<nat>, v: nat) {
    && v in s.info && v in s.inuse && v in s.free
    && s.info[v].cls < |g.caches|
    && s.info[v].order == g.caches[s.info[v].cls].order && s.info[v].total == g.caches[s.info[v].cls].objsPerSlab
    && FreeChain(s.node, s.free[v], free) && NoDup(free)
    && (forall a :: a in free ==> IsSlot(g, s.info[v].cls, v, a))
    && s.inuse[v] + |free| == s.info[v].total
  }

  /** All headers have all their fields. */
  ghost predicate Whole(s: Slabs, fl: map<nat, seq<nat>>) {
    && s.info.Keys == s.kind.Keys == s.inuse.Keys == s.free.Keys == s.prev.Keys == s.next.Keys == fl.Keys
    && forall v :: v in s.info ==> v < INVALID_PFN
  }

  ghost predicate SlabsOk(g: Config, s: Slabs, fl: map<nat, seq<nat>>) {
    Whole(s, fl) && forall v :: v in s.info ==> v in fl && SlabOk(g, s, fl[v], v)
  }

  /** Slabs do not share pages. */
  ghost predicate Spread(s: Slabs) {
    forall u, v :: u in s.info && v in s.info && u != v ==> Apart(SlabBlock(s, u), SlabBlock(s, v))
  }

  ghost predicate LiveAt(g: Config, s: Slabs, fl: map<nat, seq<nat>>, v: nat, a: nat) {
    v in s.info && v in fl && IsSlot(g, s.info[v].cls, v, a) && a !in fl[v]
  }

  ghost predicate SameClass(s: Slabs, s': Slabs, v: nat) {
    v in s.info && v in s'.info && s'.info[v] == s.info[v]
  }

  /** The same objects are live, each in a slab of the same class. */
  ghost predicate SameLive(g: Config, s: Slabs, fl: map<nat, seq<nat>>, s': Slabs, fl': map<nat, seq<nat>>) {
    forall v: nat, a: nat ::
      (LiveAt(g, s', fl', v, a) <==> LiveAt(g, s, fl, v, a)) && (LiveAt(g, s, fl, v, a) ==> SameClass(s, s', v))
  }

  /** Slabs on disjoint pages share no slot. */
  lemma SlotsApart(g: Config, c: nat, u: nat, d: nat, v: nat, a: nat)
    requires GoodConfig(g) && IsSlot(g, c, u, a) && d < |g.caches|
    requires Apart(Block(u, g.caches[c].order, false), Block(v, g.caches[d].order, false))
    ensures !IsSlot(g, d, v, a)
  {
    hide IsSlot, Pow2, GoodConfig;
    SlotInside(g, c, u, a);
    if IsSlot(g, d, v, a) {
      SlotInside(g, d, v, a);
    }
  }

  /** An address is a slot of at most one slab. */
  lemma OneSlab(g: Config, s: Slabs, fl: map<nat, seq<nat>>, u: nat, v: nat, a: nat)
    requires GoodConfig(g) && SlabsOk(g, s, fl) && Spread(s) && u in s.info && v in s.info
    requires IsSlot(g, s.info[u].cls, u, a) && IsSlot(g, s.info[v].cls, v, a)
    ensures u == v
  {
    hide FreeChain, NoDup, IsSlot, Pow2, GoodConfig, Whole;
    assert SlabOk(g, s, fl[u], u) && SlabOk(g, s, fl[v], v);
    assert u == v || Apart(SlabBlock(s, u), SlabBlock(s, v));
    if u != v {
      SlotsApart(g, s.info[u].cls, u, s.info[v].cls, v, a);
    }
  }

  // Counting.

  ghost function Elements(q: seq<nat>): set<nat> {
    set x | x in q
  }

  lemma {:induction false} ElementCount(q: seq<nat>)
    requires NoDup(q)
    ensures |Elements(q)| == |q|
    decreases |q|
  {
    if q != [] {
      ElementCount(q[1..]);
      assert q[0] !in q[1..];
      assert Elements(q) == Elements(q[1..]) + {q[0]};
    }
  }

  /** The objects of a slab that are handed out. */
  ghost function LiveSet(g: Config, cls: nat, v: nat, free: seq<nat>): set<nat>
    requires cls < |g.caches| && g.caches[cls].objSize > 0
  {
    Elements(SlotsOf(g, cls, v)) - Elements(free)
  }

  /** Free list and live objects partition the slots: their numbers add up. */
  lemma LiveCount(g: Config, s: Slabs, free: seq<nat>, v: nat)
    requires GoodConfig(g) && SlabOk(g, s, free, v)
    ensures g.caches[s.info[v].cls].objSize > 0
    ensures |LiveSet(g, s.info[v].cls, v, free)| == s.inuse[v]
    ensures Elements(SlotsOf(g, s.info[v].cls, v)) == LiveSet(g, s.info[v].cls, v, free) + Elements(free)
  {
    var cls := s.info[v].cls;
    var c := g.caches[cls];
    assert GoodCache(c);
    SlotsShape(Virt(g, v) + Start(c.objSize), c.objSize, c.objsPerSlab);
    ElementCount(SlotsOf(g, cls, v));
    ElementCount(free);
    assert Elements(free) <= Elements(SlotsOf(g, cls, v));
    assert Elements(SlotsOf(g, cls, v)) == LiveSet(g, cls, v, free) + Elements(free);
  }

  /** A slab with nothing in use has no live object. */
  lemma NoneLive(g: Config, s: Slabs, fl: map<nat, seq<nat>>, v: nat, a: nat)
    requires GoodConfig(g) && v in fl && SlabOk(g, s, fl[v], v) && s.inuse[v] == 0
    ensures !LiveAt(g, s, fl, v, a)
  {
    LiveCount(g, s, fl[v], v);
    assert LiveAt(g, s, fl, v, a) <==> a in LiveSet(g, s.info[v].cls, v, fl[v]);
  }

  // Steps on the free lists.

  /** A slab is as good as before when its header and its free nodes are the same. */
  lemma OtherSlab(g: Config, s: Slabs, s': Slabs, free: seq<nat>, u: nat)
    requires SlabOk(g, s, free, u) && u in s'.info && u in s'.inuse && u in s'.free
    requires s'.info[u] == s.info[u] && s'.inuse[u] == s.inuse[u] && s'.free[u] == s.free[u]
    requires forall x :: x in free && x in s.node ==> x in s'.node && s'.node[x] == s.node[x]
    ensures SlabOk(g, s', free, u)
  {
    FreeChainFrame(s.node, s'.node, s.free[u], free);
  }

  ghost predicate KeptAt(s: Slabs, s': Slabs, free: seq<nat>, u: nat) {
    && u in s.info && u in s.inuse && u in s.free && u in s'.info && u in s'.inuse && u in s'.free
    && s'.info[u] == s.info[u] && s'.inuse[u] == s.inuse[u] && s'.free[u] == s.free[u]
    && forall x :: x in free && x in s.node ==> x in s'.node && s'.node[x] == s.node[x]
  }

  /** One slab gets a new free list; the others keep theirs. */
  lemma OneChanged(g: Config, s: Slabs, fl: map<nat, seq<nat>>, s': Slabs, v: nat, free: seq<nat>)
    requires SlabsOk(g, s, fl) && Whole(s', fl[v := free]) && SlabOk(g, s', free, v)
    requires forall u :: u in s'.info && u != v ==> u in fl
    requires forall u :: u in s'.info && u != v ==> u in s.info && KeptAt(s, s', fl[u], u)
    ensures SlabsOk(g, s', fl[v := free])
  {
    hide SlabOk, Whole;
    var fl' := fl[v := free];
    forall u | u in s'.info ensures u in fl' && SlabOk(g, s', fl'[u], u) {
      if u != v {
        OtherSlab(g, s, s', fl[u], u);
      }
    }
  }

  /** Which objects are live depends on the class and the free list of a slab. */
  lemma LiveElsewhere(g: Config, s: Slabs, fl: map<nat, seq<nat>>, s': Slabs, v: nat, free: seq<nat>, u: nat, x: nat)
    requires u != v && (u in s'.info <==> u in s.info) && (u in s.info ==> s'.info[u] == s.info[u])
    ensures LiveAt(g, s', fl[v := free], u, x) <==> LiveAt(g, s, fl, u, x)
    ensures LiveAt(g, s, fl, u, x) ==> SameClass(s, s', u)
  {
  }

  /** What is known of one slab. */
  lemma AtSlab(g: Config, s: Slabs, fl: map<nat, seq<nat>>, v: nat)
    requires SlabsOk(g, s, fl) && v in s.info
    ensures v in fl && SlabOk(g, s, fl[v], v) && v in s.inuse && v in s.free && s.info[v].cls < |g.caches|
    ensures Whole(s, fl)
  {
  }

  lemma WholeStep(s: Slabs, fl: map<nat, seq<nat>>, v: nat, f: nat, n: nat, node: map<nat, nat>, free: seq<nat>)
    requires Whole(s, fl) && v in s.info
    ensures Whole(s.(node := node, free := s.free[v := f], inuse := s.inuse[v := n]), fl[v := free])
  {
  }

  /** Only slab v and nodes outside all other free lists differ. */
  lemma KeptElsewhere(g: Config, s: Slabs, fl: map<nat, seq<nat>>, v: nat, f: nat, n: nat, node: map<nat, nat>)
    requires SlabsOk(g, s, fl)
    requires forall u, x :: u in s.info && u != v && x in fl[u] && x in s.node ==> x in node && node[x] == s.node[x]
    ensures forall u :: u in s.info && u != v ==>
              KeptAt(s, s.(node := node, free := s.free[v := f], inuse := s.inuse[v := n]), fl[u], u)
  {
    forall u | u in s.info && u != v
      ensures KeptAt(s, s.(node := node, free := s.free[v := f], inuse := s.inuse[v := n]), fl[u], u)
    {
      AtSlab(g, s, fl, u);
    }
  }

  function TakeSlot(s: Slabs, v: nat, rest: nat): Slabs
    requires v in s.inuse
  {
    s.(free := s.free[v := rest], inuse := s.inuse[v := s.inuse[v] + 1])
  }

  lemma TakeSlotAt(g: Config, s: Slabs, free: seq<nat>, v: nat)
    requires SlabOk(g, s, free, v) && free != []
    ensures s.free[v] == free[0] && s.free[v] in s.node && IsSlot(g, s.info[v].cls, v, free[0]) && free[0] !in free[1..]
    ensures SlabOk(g, TakeSlot(s, v, s.node[s.free[v]]), free[1..], v)
    ensures forall x :: x in free <==> x == free[0] || x in free[1..]
  {
    hide IsSlot;
    assert free == [free[0]] + free[1..];
  }

  lemma TakeSlotAll(g: Config, s: Slabs, fl: map<nat, seq<nat>>, v: nat)
    requires SlabsOk(g, s, fl) && v in s.info && fl[v] != []
    ensures v in s.free && s.free[v] == fl[v][0] && s.free[v] in s.node && v in s.inuse
    ensures IsSlot(g, s.info[v].cls, v, s.free[v])
    ensures SlabsOk(g, TakeSlot(s, v, s.node[s.free[v]]), fl[v := fl[v][1..]])
  {
    hide IsSlot, SlabOk, Whole, SlabsOk, KeptAt;
    AtSlab(g, s, fl, v);
    TakeSlotAt(g, s, fl[v], v);
    var f := s.node[s.free[v]];
    var s', free := TakeSlot(s, v, f), fl[v][1..];
    assert s' == s.(node := s.node, free := s.free[v := f], inuse := s.inuse[v := s.inuse[v] + 1]);
    WholeStep(s, fl, v, f, s.inuse[v] + 1, s.node, free);
    KeptElsewhere(g, s, fl, v, f, s.inuse[v] + 1, s.node);
    OneChanged(g, s, fl, s', v, free);
  }

  /** Taking the first free slot makes it live, and only it. */
  lemma TakeSlotLive(g: Config, s: Slabs, fl: map<nat, seq<nat>>, v: nat, u: nat, x: nat)
    requires SlabsOk(g, s, fl) && v in s.info && fl[v] != []
    requires v in s.free && s.free[v] in s.node && v in s.inuse && IsSlot(g, s.info[v].cls, v, fl[v][0])
    ensures !LiveAt(g, s, fl, v, fl[v][0])
    ensures LiveAt(g, TakeSlot(s, v, s.node[s.free[v]]), fl[v := fl[v][1..]], u, x) <==>
              LiveAt(g, s, fl, u, x) || (u == v && x == fl[v][0])
    ensures LiveAt(g, s, fl, u, x) ==> SameClass(s, TakeSlot(s, v, s.node[s.free[v]]), u)
  {
    hide IsSlot;
    assert SlabOk(g, s, fl[v], v);
    TakeSlotAt(g, s, fl[v], v);
    hide SlabOk, Whole;
    if u != v {
      LiveElsewhere(g, s, fl, TakeSlot(s, v, s.node[s.free[v]]), v, fl[v][1..], u, x);
    }
  }

  function PutSlot(s: Slabs, v: nat, a: nat): Slabs
    requires v in s.free && v in s.inuse && s.inuse[v] > 0
  {
    s.(node := s.node[a := s.free[v]], free := s.free[v := a], inuse := s.inuse[v := s.inuse[v] - 1])
  }

  lemma NoDupPush(q: seq<nat>, x: nat)
    requires NoDup(q) && x !in q
    ensures NoDup([x] + q)
  {
    assert forall i :: 0 <= i < |q| ==> q[i] in q;
  }

  lemma LiveMeansUsed(g: Config, s: Slabs, fl: map<nat, seq<nat>>, v: nat, a: nat)
    requires GoodConfig(g) && v in fl && SlabOk(g, s, fl[v], v) && LiveAt(g, s, fl, v, a)
    ensures s.inuse[v] > 0
  {
    LiveCount(g, s, fl[v], v);
    assert a in LiveSet(g, s.info[v].cls, v, fl[v]);
  }

  lemma NotInOther(g: Config, s: Slabs, fl: map<nat, seq<nat>>, u: nat, v: nat, a: nat)
    requires GoodConfig(g) && SlabsOk(g, s, fl) && Spread(s) && u in s.info && v in s.info && u != v
    requires IsSlot(g, s.info[v].cls, v, a)
    ensures a !in fl[u]
  {
    assert SlabOk(g, s, fl[u], u);
    if a in fl[u] {
      OneSlab(g, s, fl, u, v, a);
    }
  }

  lemma PutSlotAt(g: Config, s: Slabs, free: seq<nat>, v: nat, a: nat)
    requires SlabOk(g, s, free, v) && IsSlot(g, s.info[v].cls, v, a) && a !in free && a > 0 && s.inuse[v] > 0
    ensures SlabOk(g, PutSlot(s, v, a), [a] + free, v)
  {
    hide IsSlot, NoDup, FreeChain;
    FreeChainPush(s.node, s.free[v], free, a);
    NoDupPush(free, a);
  }

  lemma PutSlotAll(g: Config, s: Slabs, fl: map<nat, seq<nat>>, v: nat, a: nat)
    requires GoodConfig(g) && SlabsOk(g, s, fl) && Spread(s) && LiveAt(g, s, fl, v, a)
    ensures v in s.free && v in s.inuse && s.inuse[v] > 0
    ensures SlabsOk(g, PutSlot(s, v, a), fl[v := [a] + fl[v]])
  {
    hide IsSlot, SlabOk, Whole, SlabsOk, KeptAt, GoodConfig, Spread;
    AtSlab(g, s, fl, v);
    LiveMeansUsed(g, s, fl, v, a);
    SlotInside(g, s.info[v].cls, v, a);
    var s', free := PutSlot(s, v, a), [a] + fl[v];
    PutSlotAt(g, s, fl[v], v, a);
    var node := s.node[a := s.free[v]];
    WholeStep(s, fl, v, a, s.inuse[v] - 1, node, free);
    forall u | u in s.info && u != v ensures u in fl && a !in fl[u] {
      AtSlab(g, s, fl, u);
      NotInOther(g, s, fl, u, v, a);
    }
    KeptElsewhere(g, s, fl, v, a, s.inuse[v] - 1, node);
    OneChanged(g, s, fl, s', v, free);
  }

  /** Giving a live object back makes it free, and only it. */
  lemma PutSlotLive(g: Config, s: Slabs, fl: map<nat, seq<nat>>, v: nat, a: nat, u: nat, x: nat)
    requires LiveAt(g, s, fl, v, a) && v in s.free && v in s.inuse && s.inuse[v] > 0
    ensures LiveAt(g, PutSlot(s, v, a), fl[v := [a] + fl[v]], u, x) <==> LiveAt(g, s, fl, u, x) && !(u == v && x == a)
    ensures LiveAt(g, s, fl, u, x) ==> SameClass(s, PutSlot(s, v, a), u)
  {
    hide IsSlot;
    if u != v {
      LiveElsewhere(g, s, fl, PutSlot(s, v, a), v, [a] + fl[v], u, x);
    }
  }

  /** A chain with one link changed meets the changed node where it was. */
  lemma {:induction false} ChainMeets(node: map<nat, nat>, node': map<nat, nat>, head: nat, q: seq<nat>, q': seq<nat>,
                                      i: nat)
    requires FreeChain(node, head, q) && FreeChain(node', head, q') && i < |q| && NoDup(q)
    requires forall x :: x in node && x != q[i] ==> x in node' && node'[x] == node[x]
    ensures i < |q'| && q'[i] == q[i]
    decreases i
  {
    if i > 0 {
      assert q[0] in q && q[0] != q[i] && q' != [] && q'[0] == q[0];
      assert NoDup(q[1..]) by {
        assert forall k :: 0 <= k < |q| - 1 ==> q[1..][k] == q[k + 1];
      }
      ChainMeets(node, node', node[head], q[1..], q'[1..], i - 1);
    }
  }

  /** Putting an address on the free list of a slab keeps a well-formed slab exactly when
      the address is a live object of it: a second free of the same object, or the
      address of the slot cut off at the end, ruins the list. */
  lemma PutSlotExactly(g: Config, s: Slabs, fl: map<nat, seq<nat>>, v: nat, a: nat)
    requires SlabsOk(g, s, fl) && v in s.info && v in s.free && v in s.inuse && s.inuse[v] > 0 && a > 0
    ensures LiveAt(g, s, fl, v, a) <==> exists free :: SlabOk(g, PutSlot(s, v, a), free, v)
  {
    hide IsSlot, FreeChain, NoDup;
    assert SlabOk(g, s, fl[v], v);
    hide SlabsOk, SlabOk;
    if LiveAt(g, s, fl, v, a) {
      PutSlotAt(g, s, fl[v], v, a);
    }
    forall free | SlabOk(g, PutSlot(s, v, a), free, v) ensures LiveAt(g, s, fl, v, a) {
      PutTwice(g, s, fl[v], v, a, free);
    }
  }

  lemma PutTwice(g: Config, s: Slabs, q: seq<nat>, v: nat, a: nat, free: seq<nat>)
    requires SlabOk(g, s, q, v) && s.inuse[v] > 0 && a > 0 && SlabOk(g, PutSlot(s, v, a), free, v)
    ensures IsSlot(g, s.info[v].cls, v, a) && a !in q
  {
    hide IsSlot;
    var node' := PutSlot(s, v, a).node;
    assert free != [] && free[0] == a;
    assert FreeChain(node', s.free[v], free[1..]) && FreeChain(s.node, s.free[v], q) && NoDup(q) && NoDup(free);
    assert forall x :: x in s.node && x != a ==> x in node' && node'[x] == s.node[x];
    hide SlabOk, FreeChain;
    if a in q {
      var i :| 0 <= i < |q| && q[i] == a;
      ChainMeets(s.node, node', s.free[v], q, free[1..], i);
      assert false;
    }
  }

  // A slab with all its slots free.

  function Refill(s: Slabs, v: nat, node: map<nat, nat>, head: nat): Slabs {
    s.(node := node, free := s.free[v := head], inuse := s.inuse[v := 0])
  }

  /** node has the slots of v linked from head on and everything else as it was. */
  ghost predicate Relisted(g: Config, cls: nat, v: nat, node: map<nat, nat>, node': map<nat, nat>, head: nat) {
    && cls < |g.caches| && g.caches[cls].objSize > 0
    && FreeChain(node', head, SlotsOf(g, cls, v))
    && forall x :: x in node && x !in SlotsOf(g, cls, v) ==> x in node' && node'[x] == node[x]
  }

  lemma RefillAt(g: Config, s: Slabs, v: nat)
    requires GoodConfig(g) && v in s.info && v in s.inuse && v in s.free && s.inuse[v] == 0
    requires s.info[v].cls < |g.caches| && s.info[v].order == g.caches[s.info[v].cls].order
    requires s.info[v].total == g.caches[s.info[v].cls].objsPerSlab && g.caches[s.info[v].cls].objSize > 0
    requires FreeChain(s.node, s.free[v], SlotsOf(g, s.info[v].cls, v))
    ensures SlabOk(g, s, SlotsOf(g, s.info[v].cls, v), v) && SlotsOf(g, s.info[v].cls, v) != []
  {
    var c := g.caches[s.info[v].cls];
    assert GoodCache(c);
    hide FreeChain, Slots, GoodCache, Start;
    SlotsShape(Virt(g, v) + Start(c.objSize), c.objSize, c.objsPerSlab);
    assert c.objsPerSlab > 0 by {
      assert GoodCache(c);
    }
  }

  lemma RefillAll(g: Config, s: Slabs, fl: map<nat, seq<nat>>, v: nat, node: map<nat, nat>, head: nat)
    requires GoodConfig(g) && SlabsOk(g, s, fl) && Spread(s) && v in s.info && v in s.inuse && s.inuse[v] == 0
    requires Relisted(g, s.info[v].cls, v, s.node, node, head)
    ensures SlabsOk(g, Refill(s, v, node, head), fl[v := SlotsOf(g, s.info[v].cls, v)])
    ensures SameLive(g, s, fl, Refill(s, v, node, head), fl[v := SlotsOf(g, s.info[v].cls, v)])
    ensures SlotsOf(g, s.info[v].cls, v) != []
  {
    hide SlabOk, Whole, SlabsOk, KeptAt, GoodConfig, Spread, SlotsOf, FreeChain;
    AtSlab(g, s, fl, v);
    var cls := s.info[v].cls;
    var s', free := Refill(s, v, node, head), SlotsOf(g, cls, v);
    SlabHeader(g, s, fl[v], v);
    RefillAt(g, s', v);
    WholeStep(s, fl, v, head, 0, node, free);
    forall u, x | u in s.info && u != v && u in fl && x in fl[u] ensures x !in free {
      if x in free {
        NotInOther(g, s, fl, u, v, x);
      }
    }
    forall u | u in s.info ensures u in fl {
      AtSlab(g, s, fl, u);
    }
    KeptElsewhere(g, s, fl, v, head, 0, node);
    OneChanged(g, s, fl, s', v, free);
    forall u: nat, x: nat
      ensures LiveAt(g, s', fl[v := free], u, x) <==> LiveAt(g, s, fl, u, x)
      ensures LiveAt(g, s, fl, u, x) ==> SameClass(s, s', u)
    {
      if u == v {
        NoneLive(g, s, fl, v, x);
      } else {
        LiveElsewhere(g, s, fl, s', v, free, u, x);
      }
    }
  }

  lemma SlabHeader(g: Config, s: Slabs, free: seq<nat>, v: nat)
    requires SlabOk(g, s, free, v)
    ensures s.info[v].cls < |g.caches|
    ensures s.info[v].order == g.caches[s.info[v].cls].order && s.info[v].total == g.caches[s.info[v].cls].objsPerSlab
  {
  }

  /** A new header for a slab with all its slots free. */
  function AddSlab(s: Slabs, v: nat, i: Info, node: map<nat, nat>, head: nat): Slabs {
    Slabs(s.info[v := i], s.kind[v := Partial], s.inuse[v := 0], s.free[v := head],
          s.prev[v := INVALID_PFN], s.next[v := INVALID_PFN], node)
  }

  /** What making slab v demands. */
  ghost predicate Addable(g: Config, s: Slabs, v: nat, i: Info, node: map<nat, nat>, head: nat) {
    && v !in s.info && v < INVALID_PFN
    && i.cls < |g.caches| && i.order == g.caches[i.cls].order && i.total == g.caches[i.cls].objsPerSlab
    && Relisted(g, i.cls, v, s.node, node, head)
    && (forall u :: u in s.info ==> Apart(SlabBlock(s, u), Block(v, i.order, false)))
  }

  lemma AddKept(g: Config, s: Slabs, fl: map<nat, seq<nat>>, v: nat, i: Info, node: map<nat, nat>, head: nat, u: nat)
    requires GoodConfig(g) && SlabsOk(g, s, fl) && Addable(g, s, v, i, node, head) && u in s.info
    ensures u in fl && KeptAt(s, AddSlab(s, v, i, node, head), fl[u], u)
  {
    hide SlabOk, SlabsOk, GoodConfig, SlotsOf, FreeChain, IsSlot;
    AtSlab(g, s, fl, u);
    SlabHeader(g, s, fl[u], u);
    assert Apart(SlabBlock(s, u), Block(v, i.order, false));
    forall x | x in fl[u] ensures x !in SlotsOf(g, i.cls, v) {
      FreeIsSlot(g, s, fl[u], u, x);
      SlotsApart(g, s.info[u].cls, u, i.cls, v, x);
      SlotIs(g, i.cls, v, x);
    }
  }

  lemma AddSlabAll(g: Config, s: Slabs, fl: map<nat, seq<nat>>, v: nat, i: Info, node: map<nat, nat>, head: nat)
    requires GoodConfig(g) && SlabsOk(g, s, fl) && Addable(g, s, v, i, node, head)
    ensures SlabsOk(g, AddSlab(s, v, i, node, head), fl[v := SlotsOf(g, i.cls, v)])
    ensures SlotsOf(g, i.cls, v) != []
  {
    hide SlabOk, SlabsOk, KeptAt, GoodConfig, SlotsOf, FreeChain, IsSlot, Whole;
    var s', free := AddSlab(s, v, i, node, head), SlotsOf(g, i.cls, v);
    RefillAt(g, s', v);
    SlabsWhole(g, s, fl);
    AddWhole(s, fl, v, i, node, head, free);
    forall u | u in s.info ensures u in fl && KeptAt(s, s', fl[u], u) {
      AddKept(g, s, fl, v, i, node, head, u);
    }
    OneChanged(g, s, fl, s', v, free);
  }

  lemma AddSlabLive(g: Config, s: Slabs, fl: map<nat, seq<nat>>, v: nat, i: Info, node: map<nat, nat>, head: nat)
    requires Addable(g, s, v, i, node, head)
    ensures SameLive(g, s, fl, AddSlab(s, v, i, node, head), fl[v := SlotsOf(g, i.cls, v)])
  {
    hide SlotsOf, IsSlot, FreeChain;
    var s', free := AddSlab(s, v, i, node, head), SlotsOf(g, i.cls, v);
    forall u: nat, x: nat
      ensures LiveAt(g, s', fl[v := free], u, x) <==> LiveAt(g, s, fl, u, x)
      ensures LiveAt(g, s, fl, u, x) ==> SameClass(s, s', u)
    {
      if u != v {
        LiveElsewhere(g, s, fl, s', v, free, u, x);
      } else {
        SlotIs(g, i.cls, v, x);
      }
    }
  }

  lemma SlabsWhole(g: Config, s: Slabs, fl: map<nat, seq<nat>>)
    requires SlabsOk(g, s, fl)
    ensures Whole(s, fl)
  {
  }

  lemma AddWhole(s: Slabs, fl: map<nat, seq<nat>>, v: nat, i: Info, node: map<nat, nat>, head: nat, free: seq<nat>)
    requires Whole(s, fl) && v < INVALID_PFN
    ensures Whole(AddSlab(s, v, i, node, head), fl[v := free])
  {
  }

  lemma FreeIsSlot(g: Config, s: Slabs, free: seq<nat>, v: nat, a: nat)
    requires SlabOk(g, s, free, v) && a in free
    ensures IsSlot(g, s.info[v].cls, v, a)
  {
  }

  lemma SlotIs(g: Config, cls: nat, v: nat, a: nat)
    requires cls < |g.caches| && g.caches[cls].objSize > 0
    ensures IsSlot(g, cls, v, a) <==> a in SlotsOf(g, cls, v)
  {
  }

  /** The header is no slab header any more. */
  function DropSlab(s: Slabs, v: nat): Slabs {
    Slabs(s.info - {v}, s.kind - {v}, s.inuse - {v}, s.free - {v}, s.prev - {v}, s.next - {v}, s.node)
  }

  lemma DropWhole(s: Slabs, fl: map<nat, seq<nat>>, v: nat)
    requires Whole(s, fl)
    ensures Whole(DropSlab(s, v), fl - {v})
  {
  }

  lemma DropSlabAll(g: Config, s: Slabs, fl: map<nat, seq<nat>>, v: nat)
    requires SlabsOk(g, s, fl) && v in s.info
    ensures SlabsOk(g, DropSlab(s, v), fl - {v})
  {
    hide SlabOk, Whole;
    var s', fl' := DropSlab(s, v), fl - {v};
    DropWhole(s, fl, v);
    forall u | u in s'.info ensures u in fl' && SlabOk(g, s', fl'[u], u) {
      AtSlab(g, s, fl, u);
      OtherSlab(g, s, s', fl[u], u);
    }
  }

  lemma DropSlabLive(g: Config, s: Slabs, fl: map<nat, seq<nat>>, v: nat)
    requires GoodConfig(g) && SlabsOk(g, s, fl) && v in s.info && v in s.inuse && s.inuse[v] == 0
    ensures SameLive(g, s, fl, DropSlab(s, v), fl - {v})
  {
    hide IsSlot, GoodConfig, SlabOk, SlabsOk;
    AtSlab(g, s, fl, v);
    forall u: nat, x: nat
      ensures LiveAt(g, DropSlab(s, v), fl - {v}, u, x) <==> LiveAt(g, s, fl, u, x)
      ensures LiveAt(g, s, fl, u, x) ==> SameClass(s, DropSlab(s, v), u)
    {
      if u == v {
        NoneLive(g, s, fl, v, x);
      }
    }
  }
}
