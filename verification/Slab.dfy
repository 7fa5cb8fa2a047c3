/** The slab allocator: objects of fourteen size classes in slabs taken from the
    high zone, found again through the link fields of their page frames. */
module SlabAllocation {
  import opened Align
  import opened Blocks
  import opened BuddyAllocator
  import opened Chain
  import opened Dyadic
  import opened Frames
  import opened FreeLists
  import opened Geometry
  import opened Options
  import opened SlabBuckets
  import opened SlabFrames
  import opened SlabLayout
  import opened SlabSlots
  import opened SlabState
  import opened ZoneRecords
  import opened Zones

  const NO_SLABS: Slabs := Slabs(map[], map[], map[], map[], map[], map[], map[])

  /** The caches are the ones `init` makes of the size classes. */
  ghost predicate CachesOk(caches: seq<Cache>) {
    |caches| == |CLASSES| && forall i :: 0 <= i < |CLASSES| ==> Chosen(CLASSES[i], caches[i])
  }

  lemma ConfigOk(hhdm: nat, caches: seq<Cache>)
    requires CachesOk(caches) && hhdm > 0
    ensures GoodConfig(Config(hhdm, caches))
    ensures forall i :: 0 <= i < |CLASSES| ==> caches[i].objSize >= CLASSES[i] && caches[i].objSize > 0
  {
    hide Chosen, GoodCache;
    forall i | 0 <= i < |caches|
      ensures GoodCache(caches[i]) && caches[i].objSize >= CLASSES[i] && caches[i].objSize > 0
    {
      ClassLayout(i, caches[i]);
    }
  }

  function Fill<T>(n: nat, x: T): (r: seq<T>)
    ensures |r| == n && forall i :: 0 <= i < n ==> r[i] == x
  {
    if n == 0 then [] else Fill(n - 1, x) + [x]
  }

  /** `SlabAllocator::init`. */
  method InitCaches() returns (caches: seq<Cache>)
    ensures CachesOk(caches)
  {
    hide Chosen, ObjSize;
    caches := [];
    for i := 0 to |CLASSES|
      invariant |caches| == i && forall j :: 0 <= j < i ==> Chosen(CLASSES[j], caches[j])
    {
      Sizes(i);
      var c := InitCache(CLASSES[i]);
      caches := caches + [c];
    }
  }

  ghost predicate OneMore(counts: seq<nat>, counts': seq<nat>, b: nat) {
    b < |counts| && counts' == counts[b := counts[b] + 1]
  }

  ghost predicate OneLess(counts: seq<nat>, counts': seq<nat>, b: nat) {
    b < |counts| && counts[b] > 0 && counts' == counts[b := counts[b] - 1]
  }

  ghost predicate CountIs(counts: seq<nat>, b: nat, n: nat) {
    b < |counts| && counts[b] == n
  }

  /** v is a slab of the class with that tag. */
  ghost predicate SlabOf(s: Slabs, v: nat, cls: nat, k: Kind) {
    v in s.info && s.info[v].cls == cls && v in s.kind && s.kind[v] == k
  }

  /** One slab moved from bucket b to bucket c. */
  ghost predicate MovedOne(counts: seq<nat>, counts': seq<nat>, b: nat, c: nat) {
    && b < |counts| && c < |counts| && counts[b] > 0
    && counts' == (var m := counts[b := counts[b] - 1]; m[c := m[c] + 1])
  }

  /** The slabs stay, or exactly one of them leaves. */
  ghost predicate Trimmed(info: map<nat, Info>, info': map<nat, Info>, one: bool) {
    if one then exists v :: v in info && info' == info - {v} else info' == info
  }

  /** Freeing one object of slab v empties it while its class has two empty slabs already. */
  ghost predicate OneTooMany(s: Slabs, counts: seq<nat>, v: nat) {
    v in s.info && v in s.inuse && s.inuse[v] == 1 && CountIs(counts, BucketNo(s.info[v].cls, Empty), 2)
  }

  class SlabAllocator {
    const zones: ZonesManager
    const hhdm: nat
    var caches: seq<Cache>
    var s: Slabs
    /** First slab and length of each bucket. */
    var heads: seq<nat>
    var counts: seq<nat>
    ghost var lists: seq<seq<nat>>
    /** The free slots of each slab, in free-list order. */
    ghost var fl: map<nat, seq<nat>>

    /** `new` and `init`: a layout for every class, and no slab yet. */
    constructor (zones: ZonesManager, hhdm: nat)
      requires zones.Valid() && hhdm > 0 && Aligned(hhdm, 12)
      requires OthersUnlinked(zones.frames.r, zones.high.blocks, NO_SLABS)
      ensures this.zones == zones && this.hhdm == hhdm && Valid() && s == NO_SLABS && fl == map[]
    {
      var cs := InitCaches();
      this.zones, this.hhdm, caches := zones, hhdm, cs;
      s, fl := NO_SLABS, map[];
      heads, counts, lists := Fill(3 * |CLASSES|, INVALID_PFN), Fill(3 * |CLASSES|, 0), Fill(3 * |CLASSES|, []);
      new;
      hide *;
      NothingYet(zones.frames.r, zones.high.blocks, hhdm, caches, heads, counts, lists);
      IntroCore(INVALID_PFN);
      IntroValid();
    }

    lemma IntroValid()
      requires Core(INVALID_PFN) && KindsOk(s, INVALID_PFN) && FewEmpty(|CLASSES|, counts) && zones.Valid()
      requires SlabPages(zones.frames.r, zones.high.blocks, s) && OthersUnlinked(zones.frames.r, zones.high.blocks, s)
      ensures Valid()
    {
    }

    ghost function Cfg(): Config
      reads this`caches
    {
      Config(hhdm, caches)
    }

    /** Headers, free lists and buckets are well formed; slab `except` is in no
        bucket. */
    ghost predicate Core(except: nat)
      reads this
    {
      && hhdm > 0 && Aligned(hhdm, 12) && CachesOk(caches) && GoodConfig(Cfg())
      && SlabsOk(Cfg(), s, fl) && Spread(s) && Bucketed(|CLASSES|, s, heads, counts, lists, except)
    }

    /** The frame records name the slabs. */
    ghost predicate Framed()
      reads this`s, zones, zones.frames, zones.dma, zones.high
    {
      && zones.Valid()
      && SlabPages(zones.frames.r, zones.high.blocks, s) && OthersUnlinked(zones.frames.r, zones.high.blocks, s)
    }

    ghost predicate Valid()
      reads this, zones, zones.frames, zones.dma, zones.high
    {
      Core(INVALID_PFN) && Framed() && KindsOk(s, INVALID_PFN) && FewEmpty(|CLASSES|, counts)
    }

    lemma ElimCore(except: nat)
      requires Core(except)
      ensures hhdm > 0 && Aligned(hhdm, 12) && CachesOk(caches) && GoodConfig(Cfg()) && |caches| == |CLASSES|
      ensures SlabsOk(Cfg(), s, fl) && Spread(s) && Bucketed(|CLASSES|, s, heads, counts, lists, except)
      ensures |heads| == |counts| == |lists| == 3 * |CLASSES|
      ensures forall u :: u in s.info ==> u < INVALID_PFN
      ensures Cfg() == Config(hhdm, caches)
    {
    }

    lemma IntroCore(except: nat)
      requires hhdm > 0 && Aligned(hhdm, 12) && CachesOk(caches) && GoodConfig(Cfg())
      requires SlabsOk(Cfg(), s, fl) && Spread(s) && Bucketed(|CLASSES|, s, heads, counts, lists, except)
      ensures Core(except)
    {
    }

    /** `SlabBucket::push`. */
    method Push(cls: nat, k: Kind, slab: nat)
      requires slab in s.info && s.info[slab].cls == cls && Core(slab)
      modifies this`s, this`heads, this`counts, this`lists
      ensures Core(INVALID_PFN) && SameLive(Cfg(), old(s), fl, s, fl)
      ensures s == old(s).(kind := s.kind, next := s.next, prev := s.prev) && s.kind == old(s).kind[slab := k]
      ensures OneMore(old(counts), counts, BucketNo(cls, k))
    {
      hide *;
      ElimCore(slab);
      SlabIn(slab);
      var b := BucketNo(cls, k);
      PushBucket(|CLASSES|, s, heads, counts, lists, slab, k);
      Neighbourhood(|CLASSES|, s, heads, counts, lists, slab, b);
      HeadIn(|CLASSES|, s, heads, counts, lists, slab, b);
      PushKeys(Cfg(), s, fl, slab, k, heads[b]);
      ghost var s0 := s;
      PushFields(s, slab, k, heads[b]);
      IsOneMore(counts, b);
      s := PushSlab(s, slab, k, heads[b]);
      lists := lists[b := [slab] + lists[b]];
      counts := counts[b := counts[b] + 1];
      heads := heads[b := slab];
      SpreadSame(s0, s);
      IntroCore(INVALID_PFN);
    }

    lemma SlabIn(v: nat)
      requires SlabsOk(Cfg(), s, fl) && v in s.info && |caches| == |CLASSES|
      ensures s.info[v].cls < |CLASSES| && v in s.kind && v in s.next && v in s.prev && v in s.inuse && v in s.free &&
              v in fl
      ensures SlabOk(Cfg(), s, fl[v], v)
    {
      assert SlabOk(Cfg(), s, fl[v], v);
      assert v in s.kind.Keys && v in s.next.Keys && v in s.prev.Keys;
    }

    /** `SlabBucket::remove`. */
    method Remove(slab: nat)
      requires slab in s.info && slab in s.kind && Core(INVALID_PFN)
      modifies this`s, this`heads, this`counts, this`lists
      ensures Core(slab) && SameLive(Cfg(), old(s), fl, s, fl)
      ensures s == old(s).(next := s.next, prev := s.prev)
      ensures OneLess(old(counts), counts, BucketNo(old(s).info[slab].cls, old(s).kind[slab]))
    {
      hide *;
      ElimCore(INVALID_PFN);
      SlabIn(slab);
      var b := BucketNo(s.info[slab].cls, s.kind[slab]);
      RemoveBucket(|CLASSES|, s, heads, counts, lists, slab);
      Neighbourhood(|CLASSES|, s, heads, counts, lists, INVALID_PFN, b);
      UnlinkKeys(Cfg(), s, fl, slab);
      ghost var s0 := s;
      UnlinkFields(s, slab);
      IsOneLess(counts, b);
      heads, s, lists, counts :=
        RemoveHead(s.next, s.prev, heads, b, slab), UnlinkSlab(s, slab), DropFrom(lists, b, slab),
        counts[b := counts[b] - 1];
      SpreadSame(s0, s);
      IntroCore(slab);
    }

    /** `move_slab`. */
    method MoveSlab(slab: nat, k: Kind)
      requires slab in s.info && slab in s.kind && Core(INVALID_PFN)
      modifies this`s, this`heads, this`counts, this`lists
      ensures Core(INVALID_PFN) && SameLive(Cfg(), old(s), fl, s, fl)
      ensures s == old(s).(kind := s.kind, next := s.next, prev := s.prev) && s.kind == old(s).kind[slab := k]
      ensures MovedOne(old(counts), counts, BucketNo(old(s).info[slab].cls, old(s).kind[slab]),
                       BucketNo(old(s).info[slab].cls, k))
    {
      hide *;
      ghost var s0, g := s, Cfg();
      Remove(slab);
      ghost var s1, counts1 := s, counts;
      Push(s.info[slab].cls, k, slab);
      SameLiveTwice(g, s0, fl, s1, fl, s, fl);
      MovedIs(old(counts), counts1, counts, BucketNo(s0.info[slab].cls, s0.kind[slab]), BucketNo(s0.info[slab].cls, k));
    }

    /** `SlabBucket::pop`. */
    method Pop(cls: nat, k: Kind) returns (r: Option<nat>)
      requires Core(INVALID_PFN) && cls < |CLASSES|
      modifies this`s, this`heads, this`counts, this`lists
      ensures r == None ==> Core(INVALID_PFN) && s == old(s) && counts == old(counts)
      ensures r == None <==> CountIs(old(counts), BucketNo(cls, k), 0)
      ensures r.Some? ==> SlabOf(s, r.value, cls, k) && OneLess(old(counts), counts, BucketNo(cls, k))
      ensures r.Some? ==> Core(r.value) && SameLive(Cfg(), old(s), fl, s, fl)
      ensures r.Some? ==> s == old(s).(next := s.next, prev := s.prev)
    {
      hide *;
      ElimCore(INVALID_PFN);
      var b := BucketNo(cls, k);
      BucketBelow(cls, k);
      Neighbourhood(|CLASSES|, s, heads, counts, lists, INVALID_PFN, b);
      PopCount(|CLASSES|, s, heads, counts, lists, INVALID_PFN, cls, k);
      CountIsZero(counts, b);
      if heads[b] == INVALID_PFN {
        return None;
      }
      var slab := heads[b];
      Remove(slab);
      SlabOfIs(s, slab, cls, k);
      return Some(slab);
    }

    /** `grow`: a new slab of the class, its pages marked as its own, in no bucket
        yet. Fails exactly when the high zone has no block of the class's order. */
    method Grow(idx: nat) returns (r: Option<nat>)
      requires Core(INVALID_PFN) && Framed() && KindsOk(s, INVALID_PFN) && idx < |CLASSES|
      modifies this`s, this`fl, zones.dma, zones.high, zones.frames
      ensures r == None ==> Core(INVALID_PFN) && s == old(s) && fl == old(fl)
      ensures Framed()
      ensures r.Some? ==> Core(r.value) && Fresh(Cfg(), old(s), old(fl), s, fl, idx, r.value)
      ensures idx < |caches| && (r == None <==> NoRun(zones.high.maxOrder, old(zones.high.blocks), caches[idx].order))
      ensures PageBlocks(zones.high.blocks, s.info) == old(PageBlocks(zones.high.blocks, s.info))
    {
      hide *;
      ElimCore(INVALID_PFN);
      ElimFramed();
      var order, objSize, objsPerSlab := caches[idx].order, caches[idx].objSize, caches[idx].objsPerSlab;
      CacheFacts(hhdm, caches, idx);
      ghost var g, s0, fl0, z, r0, high0 := Cfg(), s, fl, zones.high.Zone(), zones.frames.r, zones.high.blocks;
      ManagerComplete(zones);
      var pfn := zones.AllocPages(High, order);
      ManagerComplete(zones);
      if pfn.None? {
        IntroFramed();
        return None;
      }
      var v := pfn.value;
      ghost var a, r1 := Block(v, order, false), zones.frames.r;
      TakenKeeps(z, r0, r1, high0, zones.high.blocks, a, s);
      TookOthers(high0, zones.high.blocks, a);
      var base := ObjectsStart(hhdm + v * PAGE_SIZE, objSize);
      StartIs(g, idx, v);
      var node, head := BuildFreelist(s.node, base, objSize, objsPerSlab);
      var i := Info(idx, order, objsPerSlab);
      IntroAddable(g, z, zones.high.blocks, s, v, i, node, head);
      GrowState(g, s, fl, heads, counts, lists, v, i, node, head);
      s := AddSlab(s, v, i, node, head);
      fl := fl[v := SlotsOf(g, idx, v)];
      ManagerBacked(zones);
      GrownPages(z, high0, zones.high.blocks, a, s0.info, s.info);
      LinkBlock(zones, v, order, v);
      RegisterPages(z, r1, zones.frames.r, zones.high.blocks, a, s0, s);
      SpreadFrom(z, zones.frames.r, zones.high.blocks, s);
      IntroCore(v);
      IntroFramed();
      return Some(v);
    }

    lemma ElimFramed()
      requires Framed()
      ensures zones.Valid() && SlabPages(zones.frames.r, zones.high.blocks, s)
      ensures OthersUnlinked(zones.frames.r, zones.high.blocks, s)
    {
    }

    lemma IntroFramed()
      requires zones.Valid() && SlabPages(zones.frames.r, zones.high.blocks, s)
      requires OthersUnlinked(zones.frames.r, zones.high.blocks, s)
      ensures Framed()
    {
    }

    /** Puts an empty slab, its free list rebuilt, into the Partial bucket. */
    method Reuse(idx: nat, slab: nat)
      requires SlabOf(s, slab, idx, Empty) && Core(slab) && Framed() && KindsOk(s, INVALID_PFN)
      modifies this`s, this`heads, this`counts, this`lists, this`fl
      ensures Core(INVALID_PFN) && Framed() && SameLive(Cfg(), old(s), old(fl), s, fl) && Ready(Cfg(), s, fl, idx, slab)
      ensures s.info == old(s).info
      ensures OneMore(old(counts), counts, BucketNo(idx, Partial))
    {
      hide *;
      ElimCore(slab);
      ElimFramed();
      SlabOfIs(s, slab, idx, Empty);
      SlabIn(slab);
      ghost var g, s0, fl0 := Cfg(), s, fl;
      EmptyHasNone(s, slab);
      CacheFacts(hhdm, caches, idx);
      StartIs(g, idx, slab);
      var base := ObjectsStart(hhdm + slab * PAGE_SIZE, caches[idx].objSize);
      var node, head := BuildFreelist(s.node, base, caches[idx].objSize, caches[idx].objsPerSlab);
      IntroRelisted(g, idx, slab, s.node, node, head);
      RefillAll(g, s, fl, slab, node, head);
      RefillFields(s, slab, node, head);
      s := Refill(s, slab, node, head);
      fl := fl[slab := SlotsOf(g, idx, slab)];
      BucketsUnmoved(|CLASSES|, s0, s, heads, counts, lists, slab);
      SpreadSame(s0, s);
      IntroCore(slab);
      ghost var s1 := s;
      KindsBut(s0, s1, slab);
      Push(idx, Partial, slab);
      ElimCore(INVALID_PFN);
      SameLiveTwice(g, s0, fl0, s1, fl, s, fl);
      NowReady(g, s1, s, fl, idx, slab);
      FramedSame(s0);
    }

    /** `get_or_grow_partial`: a slab in the Partial bucket of the class with a free
        slot, from that bucket, from the Empty one, or new. */
    method GetOrGrowPartial(idx: nat) returns (r: Option<nat>)
      requires Valid() && idx < |CLASSES|
      modifies this`s, this`heads, this`counts, this`lists, this`fl, zones.dma, zones.high, zones.frames
      ensures Core(INVALID_PFN) && Framed() && FewEmpty(|CLASSES|, counts) && SameLive(Cfg(), old(s), old(fl), s, fl)
      ensures r == None ==> s == old(s) && fl == old(fl) && counts == old(counts)
      ensures r.Some? ==> Ready(Cfg(), s, fl, idx, r.value)
      ensures idx < |caches|
      ensures r == None <==>
                !HasRoom(old(s), idx) && NoRun(zones.high.maxOrder, old(zones.high.blocks), caches[idx].order)
      ensures HasRoom(old(s), idx) ==> s.info == old(s).info && zones.high.blocks == old(zones.high.blocks)
      ensures PageBlocks(zones.high.blocks, s.info) == old(PageBlocks(zones.high.blocks, s.info))
    {
      hide *;
      ElimValid();
      ElimCore(INVALID_PFN);
      ElimFramed();
      ghost var g, s0, fl0 := Cfg(), s, fl;
      SameLiveRefl(g, s, fl);
      var b := BucketNo(idx, Partial);
      BucketBelow(idx, Partial);
      BucketBelow(idx, Empty);
      CacheFacts(hhdm, caches, idx);
      CountIsZero(counts, BucketNo(idx, Empty));
      RoomIffListed(g, s, fl, heads, counts, lists, idx);
      if heads[b] != INVALID_PFN {
        r := Some(heads[b]);
        HeadOf(|CLASSES|, s, heads, counts, lists, idx, Partial);
        PartialReady(g, s, fl, idx, heads[b]);
        return;
      }
      var popped := Pop(idx, Empty);
      if popped.Some? {
        FramedSame(s0);
        ghost var s1, counts1 := s, counts;
        KindsSame(s0, s1);
        Reuse(idx, popped.value);
        SameLiveTwice(g, s0, fl0, s1, fl0, s, fl);
        FewerEmpty(old(counts), counts1, counts, idx);
        return popped;
      }
      r := Grow(idx);
      if r.None? {
        return;
      }
      ghost var s1, fl1 := s, fl;
      ElimFramed();
      FreshMeans(g, s0, fl0, s1, fl1, idx, r.value);
      Push(idx, Partial, r.value);
      ElimCore(INVALID_PFN);
      SameLiveTwice(g, s0, fl0, s1, fl1, s, fl);
      NowReady(g, s1, s, fl, idx, r.value);
      FramedSame(s1);
      MorePartial(old(counts), counts, idx);
    }

    lemma ElimValid()
      requires Valid()
      ensures Core(INVALID_PFN) && Framed() && KindsOk(s, INVALID_PFN) && FewEmpty(|CLASSES|, counts)
    {
    }

    /** The frames do not care about tags, links and free lists. */
    lemma FramedSame(s0: Slabs)
      requires zones.Valid() && SlabPages(zones.frames.r, zones.high.blocks, s0)
      requires OthersUnlinked(zones.frames.r, zones.high.blocks, s0) && s.info == s0.info
      ensures Framed()
    {
    }

    /** Takes the first free slot of a partial slab and keeps its tag right. */
    method TakeObject(v: nat, ghost idx: nat) returns (a: nat)
      requires Core(INVALID_PFN) && Framed() && FewEmpty(|CLASSES|, counts) && Ready(Cfg(), s, fl, idx, v)
      modifies this`s, this`heads, this`counts, this`lists, this`fl
      ensures Valid() && LiveMore(Cfg(), old(s), old(fl), s, fl, v, a) && v in s.info && s.info[v].cls == idx
      ensures s.info == old(s).info
    {
      hide *;
      ElimCore(INVALID_PFN);
      ElimFramed();
      ghost var g, s1, fl1, counts1 := Cfg(), s, fl, counts;
      SameLiveRefl(g, s, fl);
      ReadyMeans(g, s, fl, idx, v);
      TakeSlotAll(g, s, fl, v);
      a := s.free[v];
      LiveTaken(g, s1, fl1, s1, fl1, v);
      TakeFields(s, v, s.node[a]);
      s := TakeSlot(s, v, s.node[a]);
      fl := fl[v := fl[v][1..]];
      BucketsUnmoved(|CLASSES|, s1, s, heads, counts, lists, INVALID_PFN);
      SpreadSame(s1, s);
      IntroCore(INVALID_PFN);
      SlabIn(v);
      FramedSame(s1);
      ghost var s2 := s;
      if s.inuse[v] == s.info[v].total {
        MoveSlab(v, Full);
        MovedFew(counts1, counts, idx, Partial, Full);
        LiveMoreSame(g, s1, fl1, s2, fl, s, fl, v, a);
        FramedSame(s1);
      }
      TakenKinds(g, s1, fl1, s2, s, idx, v);
      ElimFramed();
      IntroValid();
    }

    /** `alloc`: an object of at least size bytes that was not live before; nothing
        else becomes live or stops being. `slab` is where it lies. */
    method Alloc(size: nat) returns (r: Option<nat>, ghost slab: nat)
      requires Valid()
      modifies this`s, this`heads, this`counts, this`lists, this`fl, zones.dma, zones.high, zones.frames
      ensures Valid()
      ensures r == None ==> SameLive(Cfg(), old(s), old(fl), s, fl)
      ensures r == None <==>
                size > SLAB_MAX_ALLOC || NoSlabFor(caches, zones.high.maxOrder, old(zones.high.blocks), old(s), size)
      ensures r.Some? ==> slab in s.info && s.info[slab].cls < |caches| && size <= caches[s.info[slab].cls].objSize
      ensures r.Some? ==> LiveMore(Cfg(), old(s), old(fl), s, fl, slab, r.value)
      ensures PageBlocks(zones.high.blocks, s.info) == old(PageBlocks(zones.high.blocks, s.info))
    {
      hide *;
      slab := 0;
      ElimValid();
      ElimCore(INVALID_PFN);
      SameLiveRefl(Cfg(), s, fl);
      var idx := ClassIndex(size);
      if idx.None? {
        return None, 0;
      }
      CacheFacts(hhdm, caches, idx.value);
      NoSlabIs(caches, zones.high.maxOrder, zones.high.blocks, s, size, idx.value);
      ghost var g, s0, fl0 := Cfg(), s, fl;
      var found := GetOrGrowPartial(idx.value);
      if found.None? {
        ElimFramed();
        IntroValid();
        return None, 0;
      }
      ghost var s1, fl1 := s, fl;
      var a := TakeObject(found.value, idx.value);
      ClassFits(hhdm, caches, idx.value, size);
      LiveSameMore(g, s0, fl0, s1, fl1, s, fl, found.value, a);
      return Some(a), found.value;
    }

    /** `find_slab`: the slab the page's link field names, if that is a slab. For a page of
        the high zone, free or allocated, it is exactly the slab that holds the page. */
    method FindSlab(ptr: nat) returns (r: Option<nat>)
      requires ptr >= hhdm && Framed()
      ensures r.Some? ==> r.value in s.info
      ensures forall v :: v in s.info && HoldsPage(zones.frames.r, s, v, PageAt(hhdm, ptr)) ==> r == Some(v)
      ensures r.Some? && Managed(zones.high.blocks, PageAt(hhdm, ptr)) ==>
                HoldsPage(zones.frames.r, s, r.value, PageAt(hhdm, ptr))
    {
      LinksNameHolders(zones, s);
      hide Framed;
      var pfn := PageAt(hhdm, ptr);
      if pfn !in zones.frames.r.next {
        return None;
      }
      var head := zones.frames.r.next[pfn];
      if head == INVALID_PFN {
        return None;
      }
      if head !in s.info {
        return None;
      }
      return Some(head);
    }

    /** `release_slab`: the slab leaves the allocator, its pages go back to the high zone
        as free ones, their links cleared; no other slab and no page block changes. */
    method ReleaseSlab(v: nat)
      requires v in s.info && v in s.kind && s.kind[v] == Empty && Core(v) && Framed() && KindsOk(s, INVALID_PFN)
      modifies this`s, this`fl, zones.dma, zones.high, zones.frames
      ensures Core(INVALID_PFN) && Framed() && KindsOk(s, INVALID_PFN) && SameLive(Cfg(), old(s), old(fl), s, fl)
      ensures PageBlocks(zones.high.blocks, s.info) == old(PageBlocks(zones.high.blocks, s.info))
      ensures s.info == old(s).info - {v} && fl == old(fl) - {v}
      ensures Took(zones.high.blocks, old(zones.high.blocks), SlabBlock(old(s), v))
      ensures zones.dma.blocks == old(zones.dma.blocks)
    {
      DroppedInfo(s, v);
      hide *;
      ElimCore(v);
      ElimFramed();
      ManagerComplete(zones);
      EmptyHasNone(s, v);
      ghost var g, s0, z, r0, a := Cfg(), s, zones.high.Zone(), zones.frames.r, SlabBlock(s, v);
      SlabIsBlock(r0, zones.high.blocks, s, v);
      var order := s.info[v].order;
      LinkBlock(zones, v, order, INVALID_PFN);
      ghost var r1, high1 := zones.frames.r, zones.high.blocks;
      UnregisterPages(z, r0, r1, high1, s, v);
      DropSlabAll(g, s, fl, v);
      DropSlabLive(g, s, fl, v);
      DropFromBuckets(|CLASSES|, s, heads, counts, lists, v);
      DropKinds(s, v);
      s := DropSlab(s, v);
      fl := fl - {v};
      ManagerComplete(zones);
      SpreadFrom(z, r1, high1, s);
      IntroCore(INVALID_PFN);
      HighOnly(zones, a);
      UnlinkedIsCleared(r1, a);
      zones.FreePages(v);
      ManagerComplete(zones);
      ReturnedKeeps(z, r1, zones.frames.r, high1, zones.high.blocks, a, s);
      ReleasedPages(z, high1, zones.high.blocks, a, s0.info);
      IntroFramed();
    }

    /** Releases one empty slab of the class if there are too many. */
    method TrimEmpty(idx: nat)
      requires Core(INVALID_PFN) && Framed() && KindsOk(s, INVALID_PFN) && idx < |CLASSES| && FewBut(counts, idx)
      modifies this`s, this`heads, this`counts, this`lists, this`fl, zones.dma, zones.high, zones.frames
      ensures Valid() && SameLive(Cfg(), old(s), old(fl), s, fl)
      ensures PageBlocks(zones.high.blocks, s.info) == old(PageBlocks(zones.high.blocks, s.info))
      ensures Trimmed(old(s).info, s.info, CountIs(old(counts), BucketNo(idx, Empty), 3))
    {
      hide *;
      ElimCore(INVALID_PFN);
      ElimFramed();
      BucketBelow(idx, Empty);
      SameLiveRefl(Cfg(), s, fl);
      ghost var g, s0, fl0, counts0 := Cfg(), s, fl, counts;
      FewCount(counts, idx);
      CountIsZero(counts, BucketNo(idx, Empty));
      if counts[BucketNo(idx, Empty)] > MAX_EMPTY_SLABS {
        var victim := Pop(idx, Empty);
        if victim.Some? {
          FramedSame(s0);
          KindsSame(s0, s);
          ghost var s1 := s;
          SlabOfIs(s, victim.value, idx, Empty);
          ReleaseSlab(victim.value);
          SameLiveTwice(g, s0, fl0, s1, fl0, s, fl);
          FewPopped(counts0, counts, idx);
          OneLeaves(s0.info, s.info, victim.value);
        }
      } else {
        NoneLeaves(s.info);
      }
      ElimFramed();
      IntroValid();
    }

    /** Gives a live object back to its slab, moves the slab to the bucket that fits,
        and releases a slab when the class has too many empty ones. */
    method PutObject(v: nat, a: nat)
      requires Valid() && LiveAt(Cfg(), s, fl, v, a)
      modifies this`s, this`heads, this`counts, this`lists, this`fl, zones.dma, zones.high, zones.frames
      ensures Valid() && LiveLess(Cfg(), old(s), old(fl), s, fl, v, a)
      ensures PageBlocks(zones.high.blocks, s.info) == old(PageBlocks(zones.high.blocks, s.info))
      ensures Trimmed(old(s).info, s.info, OneTooMany(old(s), old(counts), v))
    {
      hide *;
      ElimValid();
      ElimCore(INVALID_PFN);
      ElimFramed();
      ghost var g, s0, fl0, counts0 := Cfg(), s, fl, counts;
      LiveIn(g, s, fl, v, a);
      SlabIn(v);
      PutSlotAll(g, s, fl, v, a);
      LivePut(g, s, fl, v, a);
      PutFields(s, v, a);
      LastOut(s, counts, v, a);
      s := PutSlot(s, v, a);
      fl := fl[v := [a] + fl[v]];
      ghost var s1, fl1 := s, fl;
      BucketsUnmoved(|CLASSES|, s0, s, heads, counts, lists, INVALID_PFN);
      SpreadSame(s0, s);
      IntroCore(INVALID_PFN);
      FramedSame(s0);
      Retag(v);
      LiveLessSame(g, s0, fl0, s1, fl1, s, fl, v, a);
    }

    /** The bucket moves of `free` after the object is back on the free list. */
    method Retag(v: nat)
      requires Core(INVALID_PFN) && Framed() && FewEmpty(|CLASSES|, counts) && Returned(s, v)
      modifies this`s, this`heads, this`counts, this`lists, this`fl, zones.dma, zones.high, zones.frames
      ensures Valid() && SameLive(Cfg(), old(s), old(fl), s, fl)
      ensures PageBlocks(zones.high.blocks, s.info) == old(PageBlocks(zones.high.blocks, s.info))
      ensures Trimmed(old(s).info, s.info, Crowded(old(s), old(counts), v))
    {
      hide *;
      ElimCore(INVALID_PFN);
      ElimFramed();
      ReturnedMeans(s, v);
      CrowdedMeans(s, counts, v);
      SlabIn(v);
      ghost var g, s1, fl1, counts1 := Cfg(), s, fl, counts;
      SameLiveRefl(g, s, fl);
      var idx := s.info[v].cls;
      if s.kind[v] == Full {
        MoveSlab(v, Partial);
        MovedFew(counts1, counts, idx, Full, Partial);
        MovedCount(counts1, counts, idx, Full, Partial);
        FramedSame(s1);
      }
      ghost var s2, counts2 := s, counts;
      if s.inuse[v] == 0 {
        MoveSlab(v, Empty);
        SameLiveTwice(g, s1, fl1, s2, fl1, s, fl1);
        FewMoved(counts2, counts, idx);
        MovedCount(counts2, counts, idx, Partial, Empty);
        FramedSame(s1);
        ReturnedKinds(s1, s2, s, v);
        ghost var s3 := s;
        TrimEmpty(idx);
        SameLiveTwice(g, s1, fl1, s3, fl1, s, fl);
      } else {
        ReturnedKinds(s1, s2, s, v);
        ElimFramed();
        IntroValid();
        NoneLeaves(s.info);
      }
    }

    /** `free`: true exactly for live objects, which then are live no longer; anything
        else changes nothing. An address that looks like an object of a slab with
        objects in use must be one. */
    method Free(ptr: nat) returns (ok: bool)
      requires Valid() && ptr >= hhdm
      requires forall v :: v in s.info && Plausible(Cfg(), s, v, ptr) ==> LiveAt(Cfg(), s, fl, v, ptr)
      modifies this`s, this`heads, this`counts, this`lists, this`fl, zones.dma, zones.high, zones.frames
      ensures Valid()
      ensures PageBlocks(zones.high.blocks, s.info) == old(PageBlocks(zones.high.blocks, s.info))
      ensures ok <==> exists v :: LiveAt(old(Cfg()), old(s), old(fl), v, ptr)
      ensures ok ==> exists v :: LiveAt(old(Cfg()), old(s), old(fl), v, ptr) &&
                                 LiveLess(Cfg(), old(s), old(fl), s, fl, v, ptr) &&
                                 Trimmed(old(s).info, s.info, OneTooMany(old(s), old(counts), v))
      ensures !ok ==> s == old(s) && fl == old(fl)
      ensures !ok ==> zones.frames.r == old(zones.frames.r) && zones.high.blocks == old(zones.high.blocks)
    {
      hide *;
      ElimValid();
      ElimCore(INVALID_PFN);
      ElimFramed();
      ManagerComplete(zones);
      ghost var g := Cfg();
      forall v | LiveAt(g, s, fl, v, ptr)
        ensures v in s.info && HoldsPage(zones.frames.r, s, v, PageAt(hhdm, ptr)) && Plausible(g, s, v, ptr)
      {
        LivePlausible(g, s, fl, zones.frames.r, zones.high.blocks, v, ptr);
      }
      var found := FindSlab(ptr);
      if found.None? {
        return false;
      }
      var slab := found.value;
      SlabIn(slab);
      var idx := s.info[slab].cls;
      CacheFacts(hhdm, caches, idx);
      var objSize := caches[idx].objSize;
      StartIs(g, idx, slab);
      PlausibleIs(g, s, slab, ptr);
      var objBase := ObjectsStart(hhdm + slab * PAGE_SIZE, objSize);
      var slabEnd := hhdm + slab * PAGE_SIZE + Span(s.info[slab].order);
      if ptr < objBase || ptr >= slabEnd {
        return false;
      }
      if (ptr - objBase) % objSize != 0 {
        return false;
      }
      if s.inuse[slab] == 0 {
        return false;
      }
      PutObject(slab, ptr);
      return true;
    }
  }

  /** `virt_to_phys(ptr) >> PAGE_SHIFT`. */
  function PageAt(hhdm: nat, ptr: nat): nat
    requires ptr >= hhdm
  {
    (ptr - hhdm) / PAGE_SIZE
  }

  /** Page p is one of slab v's. */
  ghost predicate HoldsPage(r: Records, s: Slabs, v: nat, p: nat) {
    v in s.info && v < INVALID_PFN && MarkedBy(r, SlabBlock(s, v), v) && InBlock(SlabBlock(s, v), p)
  }

  /** All that `free` checks of an address in slab v. */
  ghost predicate Plausible(g: Config, s: Slabs, v: nat, ptr: nat) {
    && v in s.info && v in s.inuse && s.info[v].cls < |g.caches| && g.caches[s.info[v].cls].objSize > 0
    && var size := g.caches[s.info[v].cls].objSize;
       Virt(g, v) + Start(size) <= ptr < Virt(g, v) + Span(s.info[v].order) &&
       (ptr - (Virt(g, v) + Start(size))) % size == 0 && s.inuse[v] > 0
  }

  lemma PlausibleIs(g: Config, s: Slabs, v: nat, ptr: nat)
    requires v in s.info && v in s.inuse && s.info[v].cls < |g.caches| && g.caches[s.info[v].cls].objSize > 0
    ensures var size := g.caches[s.info[v].cls].objSize;
            Plausible(g, s, v, ptr) <==>
              Virt(g, v) + Start(size) <= ptr < Virt(g, v) + Span(s.info[v].order) &&
              (ptr - (Virt(g, v) + Start(size))) % size == 0 && s.inuse[v] > 0
    ensures Virt(g, v) == g.hhdm + v * PAGE_SIZE
  {
  }

  /** In the high zone only pages of slabs carry a link to a slab: allocated pages of other
      blocks carry none, and free ones link to heads of free blocks. */
  lemma LinksNameHolders(m: ZonesManager, s: Slabs)
    requires m.Valid() && SlabPages(m.frames.r, m.high.blocks, s) && OthersUnlinked(m.frames.r, m.high.blocks, s)
    ensures Complete(m.frames.r)
    ensures forall p: nat, v :: Managed(m.high.blocks, p) && LinksTo(m.frames.r, s, p, v) ==>
              HoldsPage(m.frames.r, s, v, p)
  {
    hide *;
    ManagerComplete(m);
    ElimManager(m);
    NeighboursMean(m.dma, m.high);
    ValidMeans(m.high, m.frames.r);
    forall p: nat, v | Managed(m.high.blocks, p) && LinksTo(m.frames.r, s, p, v)
      ensures HoldsPage(m.frames.r, s, v, p)
    {
      LinkNamesHolder(m.high.Zone(), m.frames.r, m.high.free, m.high.lists, m.high.blocks, s, p, v);
    }
  }

  /** The link field of page p names slab v. */
  ghost predicate LinksTo(r: Records, s: Slabs, p: nat, v: nat) {
    p in r.next && r.next[p] == v != INVALID_PFN && v in s.info
  }

  lemma LinkNamesHolder(z: Bounds, r: Records, free: seq<nat>, lists: seq<seq<nat>>, high: set<Block>, s: Slabs,
                        p: nat, v: nat)
    requires RecordsOk(z, r, high, INVALID_PFN) && LinksOk(z, r, free, lists, high)
    requires SlabPages(r, high, s) && OthersUnlinked(r, high, s) && Managed(high, p) && LinksTo(r, s, p, v)
    ensures HoldsPage(r, s, v, p)
  {
    var b :| b in high && InBlock(b, p);
    assert SlabBlock(s, v) in high && MarkedBy(r, SlabBlock(s, v), v);
    assert InBlock(SlabBlock(s, v), v) && v in r.next.Keys;
    if b.free {
      assert p == b.head;
      NextIsFree(z, r, free, lists, high, b);
      SameHead(z, high, SlabBlock(s, v), Block(v, b.order, true));
      assert false;
    }
    assert b.head in s.info;
    assert SlabBlock(s, b.head) in high;
    SameHead(z, high, b, SlabBlock(s, b.head));
  }

  /** The link of a free head is empty or names a free head of the same order. */
  lemma NextIsFree(z: Bounds, r: Records, free: seq<nat>, lists: seq<seq<nat>>, high: set<Block>, b: Block)
    requires LinksOk(z, r, free, lists, high) && b in high && b.free && b.head in r.next
    ensures r.next[b.head] == INVALID_PFN || Block(r.next[b.head], b.order, true) in high
  {
    hide Tiled, Complete;
    var list := lists[b.order];
    assert Linked(r.next, r.prev, INVALID_PFN, free[b.order], list);
    var i :| 0 <= i < |list| && list[i] == b.head;
    assert r.next[list[i]] == (if i + 1 < |list| then list[i + 1] else INVALID_PFN);
    assert i + 1 < |list| ==> list[i + 1] in list;
  }

  /** `free` finds every live object. */
  lemma LivePlausible(g: Config, s: Slabs, fl: map<nat, seq<nat>>, r: Records, high: set<Block>, v: nat, a: nat)
    requires GoodConfig(g) && SlabsOk(g, s, fl) && SlabPages(r, high, s) && LiveAt(g, s, fl, v, a) && a >= g.hhdm
    ensures v in s.info && HoldsPage(r, s, v, PageAt(g.hhdm, a)) && Plausible(g, s, v, a)
  {
    hide SlabOk, SlabsOk, GoodConfig, Start, Span, Pow2, Slots;
    AtSlab(g, s, fl, v);
    SlabHeader(g, s, fl[v], v);
    HeadersBelow(g, s, fl);
    SlotInside(g, s.info[v].cls, v, a);
    LiveMeansUsed(g, s, fl, v, a);
    var c := g.caches[s.info[v].cls];
    SlotIffOnGrid(Virt(g, v) + Start(c.objSize), c.objSize, c.objsPerSlab, a);
    SizePositive(g, s.info[v].cls);
  }

  lemma SizePositive(g: Config, cls: nat)
    requires GoodConfig(g) && cls < |g.caches|
    ensures g.caches[cls].objSize > 0
  {
    assert GoodCache(g.caches[cls]);
  }

  /** Object a of slab v is live no longer; all others are as before. */
  ghost predicate LiveLess(g: Config, s: Slabs, fl: map<nat, seq<nat>>, s': Slabs, fl': map<nat, seq<nat>>, v: nat,
                           a: nat)
  {
    forall u: nat, x: nat ::
      (LiveAt(g, s', fl', u, x) <==> LiveAt(g, s, fl, u, x) && !(u == v && x == a)) &&
      (LiveAt(g, s', fl', u, x) ==> SameClass(s, s', u))
  }

  lemma LiveLessSame(g: Config, s0: Slabs, fl0: map<nat, seq<nat>>, s1: Slabs, fl1: map<nat, seq<nat>>,
                     s2: Slabs, fl2: map<nat, seq<nat>>, v: nat, a: nat)
    requires LiveLess(g, s0, fl0, s1, fl1, v, a) && SameLive(g, s1, fl1, s2, fl2)
    ensures LiveLess(g, s0, fl0, s2, fl2, v, a)
  {
  }

  lemma LiveIn(g: Config, s: Slabs, fl: map<nat, seq<nat>>, v: nat, a: nat)
    requires LiveAt(g, s, fl, v, a)
    ensures v in s.info && v in fl
  {
  }

  lemma LivePut(g: Config, s: Slabs, fl: map<nat, seq<nat>>, v: nat, a: nat)
    requires LiveAt(g, s, fl, v, a) && v in s.free && v in s.inuse && s.inuse[v] > 0 && v in fl
    ensures LiveLess(g, s, fl, PutSlot(s, v, a), fl[v := [a] + fl[v]], v, a)
  {
    hide LiveAt, PutSlot;
    forall u: nat, x: nat
      ensures LiveAt(g, PutSlot(s, v, a), fl[v := [a] + fl[v]], u, x) <==> LiveAt(g, s, fl, u, x) && !(u == v && x == a)
      ensures LiveAt(g, s, fl, u, x) ==> SameClass(s, PutSlot(s, v, a), u)
    {
      PutSlotLive(g, s, fl, v, a, u, x);
    }
  }

  /** Slab v has just got an object back: its tag still says how full it was. */
  ghost predicate Returned(s: Slabs, v: nat) {
    && v in s.info && v in s.kind && v in s.inuse && s.inuse[v] < s.info[v].total
    && s.kind[v] == KindFor(s.inuse[v] + 1, s.info[v].total) && KindsOk(s, v)
  }

  lemma PutFields(s: Slabs, v: nat, a: nat)
    requires v in s.free && v in s.inuse && s.inuse[v] > 0 && v in s.info && v < INVALID_PFN && KindsOk(s, INVALID_PFN)
    requires s.inuse[v] <= s.info[v].total && forall u :: u in s.info ==> u < INVALID_PFN
    ensures var s' := PutSlot(s, v, a);
            && s'.info == s.info && s'.kind == s.kind && s'.next == s.next && s'.prev == s.prev && Returned(s', v)
  {
  }

  lemma ReturnedMeans(s: Slabs, v: nat)
    requires Returned(s, v)
    ensures v in s.info && v in s.kind && v in s.inuse && s.kind[v] != Empty
  {
  }

  lemma ReturnedKinds(s1: Slabs, s2: Slabs, s: Slabs, v: nat)
    requires Returned(s1, v) && v in s1.info && v in s1.kind && v in s1.inuse
    requires s2.info == s1.info && s2.inuse == s1.inuse
    requires s2.kind == if s1.kind[v] == Full then s1.kind[v := Partial] else s1.kind
    requires s.info == s1.info && s.inuse == s1.inuse
    requires s.kind == if s1.inuse[v] == 0 then s2.kind[v := Empty] else s2.kind
    ensures KindsOk(s, INVALID_PFN)
  {
  }

  /** At most one more empty slab in class idx than allowed. */
  ghost predicate FewBut(counts: seq<nat>, idx: nat) {
    && |counts| == 3 * |CLASSES|
    && forall c: nat :: c < |CLASSES| ==>
         counts[BucketNo(c, Empty)] <= if c == idx then 3 else 2
  }

  lemma FewMoved(counts: seq<nat>, counts': seq<nat>, idx: nat)
    requires FewEmpty(|CLASSES|, counts) && idx < |CLASSES|
    requires MovedOne(counts, counts', BucketNo(idx, Partial), BucketNo(idx, Empty))
    ensures FewBut(counts', idx)
  {
    forall c: nat | c < |CLASSES|
      ensures counts'[BucketNo(c, Empty)] <= if c == idx then MAX_EMPTY_SLABS + 1 else MAX_EMPTY_SLABS
    {
      BucketNoUnique(c, Empty, idx, Empty);
      BucketNoUnique(c, Empty, idx, Partial);
    }
  }

  /** Slab v is empty and its class has two others. */
  ghost predicate Crowded(s: Slabs, counts: seq<nat>, v: nat) {
    v in s.info && v in s.inuse && s.inuse[v] == 0 && CountIs(counts, BucketNo(s.info[v].cls, Empty), 2)
  }

  lemma CrowdedMeans(s: Slabs, counts: seq<nat>, v: nat)
    requires v in s.info && v in s.inuse
    ensures Crowded(s, counts, v) <==> s.inuse[v] == 0 && CountIs(counts, BucketNo(s.info[v].cls, Empty), 2)
  {
  }

  lemma LastOut(s: Slabs, counts: seq<nat>, v: nat, a: nat)
    requires v in s.free && v in s.inuse && s.inuse[v] > 0 && v in s.info
    ensures Crowded(PutSlot(s, v, a), counts, v) <==> OneTooMany(s, counts, v)
  {
  }

  lemma OneLeaves(info: map<nat, Info>, info': map<nat, Info>, v: nat)
    requires v in info && info' == info - {v}
    ensures Trimmed(info, info', true)
  {
  }

  lemma NoneLeaves(info: map<nat, Info>)
    ensures Trimmed(info, info, false)
  {
  }

  lemma MovedCount(counts: seq<nat>, counts': seq<nat>, idx: nat, k: Kind, k': Kind)
    requires MovedOne(counts, counts', BucketNo(idx, k), BucketNo(idx, k')) && k != Empty
    ensures CountIs(counts', BucketNo(idx, Empty), if k' == Empty then 3 else 2) <==>
            CountIs(counts, BucketNo(idx, Empty), 2)
  {
    BucketNoUnique(idx, Empty, idx, k);
    BucketNoUnique(idx, Empty, idx, k');
  }

  lemma FewCount(counts: seq<nat>, idx: nat)
    requires FewBut(counts, idx) && idx < |CLASSES| && BucketNo(idx, Empty) < |counts|
    ensures counts[BucketNo(idx, Empty)] > MAX_EMPTY_SLABS <==> CountIs(counts, BucketNo(idx, Empty), 3)
    ensures counts[BucketNo(idx, Empty)] <= MAX_EMPTY_SLABS ==> FewEmpty(|CLASSES|, counts)
  {
  }

  lemma FewPopped(counts: seq<nat>, counts': seq<nat>, idx: nat)
    requires FewBut(counts, idx) && idx < |CLASSES| && OneLess(counts, counts', BucketNo(idx, Empty))
    ensures FewEmpty(|CLASSES|, counts')
  {
    forall c: nat | c < |CLASSES| ensures counts'[BucketNo(c, Empty)] <= MAX_EMPTY_SLABS {
      BucketNoUnique(c, Empty, idx, Empty);
    }
  }

  lemma SlabIsBlock(r: Records, high: set<Block>, s: Slabs, v: nat)
    requires SlabPages(r, high, s) && v in s.info
    ensures SlabBlock(s, v) in high && SlabBlock(s, v) == Block(v, s.info[v].order, false)
  {
  }

  lemma DropKinds(s: Slabs, v: nat)
    requires KindsOk(s, INVALID_PFN)
    ensures KindsOk(DropSlab(s, v), INVALID_PFN) && DropSlab(s, v).info == s.info - {v} && v !in DropSlab(s, v).info
  {
  }

  lemma DroppedInfo(s: Slabs, v: nat)
    ensures DropSlab(s, v).info == s.info - {v}
  {
  }

  /** A block of the high zone is none of the DMA zone, and its head's record holds
      its order. */
  lemma HighOnly(m: ZonesManager, a: Block)
    requires m.Valid() && a in m.high.blocks && !a.free
    ensures a !in m.dma.blocks && a.head in m.frames.r.order && a.head in m.frames.r.zone &&
            m.frames.r.order[a.head] == a.order
  {
    assert InBlock(a, a.head) && BlockOk(m.high.Zone(), a);
    assert Managed(m.high.blocks, a.head);
    Beyond(m.dma.Zone(), m.dma.blocks, a);
  }

  lemma UnlinkedIsCleared(r: Records, a: Block)
    requires Unlinked(r, a)
    ensures InnerCleared(r, a)
  {
  }

  const SLAB_MAX_ALLOC: nat := 2048

  function Needed(size: nat): nat {
    if size < FREE_NODE_BYTES then FREE_NODE_BYTES else size
  }

  /** `class_index`: the smallest class that fits. */
  method ClassIndex(size: nat) returns (r: Option<nat>)
    ensures r == None <==> size > SLAB_MAX_ALLOC
    ensures r.Some? ==> r.value < |CLASSES| && size <= CLASSES[r.value] && Serves(r.value, size)
  {
    var i := 0;
    while i < |CLASSES|
      invariant i <= |CLASSES| && forall j :: 0 <= j < i ==> CLASSES[j] < Needed(size)
    {
      if Needed(size) <= CLASSES[i] {
        assert CLASSES[i] <= SLAB_MAX_ALLOC;
        return Some(i);
      }
      i := i + 1;
    }
    assert CLASSES[13] < Needed(size);
    return None;
  }

  /** i is the smallest class that fits the size and a node of the free list. */
  ghost predicate Serves(i: nat, size: nat) {
    && i < |CLASSES| && size <= CLASSES[i] && 16 <= CLASSES[i]
    && forall j :: 0 <= j < i ==> CLASSES[j] < size || CLASSES[j] < 16
  }

  /** Some slab of the class has a free slot. */
  ghost predicate HasRoom(s: Slabs, idx: nat) {
    exists v :: v in s.info && s.info[v].cls == idx && v in s.inuse && s.inuse[v] < s.info[v].total
  }

  /** The class that serves the size has no free slot, and there is no block for a
      new slab of it. */
  ghost predicate NoSlabFor(caches: seq<Cache>, maxOrder: nat, high: set<Block>, s: Slabs, size: nat) {
    exists i: nat :: Serves(i, size) && i < |caches| && !HasRoom(s, i) && NoRun(maxOrder, high, caches[i].order)
  }

  lemma NoSlabIs(caches: seq<Cache>, maxOrder: nat, high: set<Block>, s: Slabs, size: nat, i: nat)
    requires Serves(i, size) && i < |caches|
    ensures NoSlabFor(caches, maxOrder, high, s, size) <==> !HasRoom(s, i) && NoRun(maxOrder, high, caches[i].order)
  {
    hide NoRun, HasRoom;
    forall j: nat | Serves(j, size) ensures j == i {
    }
  }

  /** A class has a free slot exactly when its Partial or its Empty bucket has a slab. */
  lemma RoomIffListed(g: Config, s: Slabs, fl: map<nat, seq<nat>>, heads: seq<nat>, counts: seq<nat>,
                      lists: seq<seq<nat>>, idx: nat)
    requires GoodConfig(g) && SlabsOk(g, s, fl) && Bucketed(|CLASSES|, s, heads, counts, lists, INVALID_PFN)
    requires KindsOk(s, INVALID_PFN) && idx < |CLASSES|
    requires BucketNo(idx, Partial) < |heads| && BucketNo(idx, Empty) < |counts|
    ensures HasRoom(s, idx) <==> heads[BucketNo(idx, Partial)] != INVALID_PFN || counts[BucketNo(idx, Empty)] > 0
  {
    hide SlabsOk, SlabOk, Bucketed, GoodConfig;
    var p, e := BucketNo(idx, Partial), BucketNo(idx, Empty);
    BucketSizes(s, heads, counts, lists, idx);
    forall v | v in s.info
      ensures v < INVALID_PFN && v in s.inuse && 0 < s.info[v].total && s.inuse[v] <= s.info[v].total
    {
      HeadersBelow(g, s, fl);
      AtSlab(g, s, fl, v);
      Inuse(g, s, fl[v], v);
      TotalPositive(g, s, fl[v], v);
    }
    if lists[p] != [] {
      assert lists[p][0] in lists[p];
    }
    if lists[e] != [] {
      assert lists[e][0] in lists[e];
    }
    if HasRoom(s, idx) {
      var v :| v in s.info && s.info[v].cls == idx && v in s.inuse && s.inuse[v] < s.info[v].total;
      SlabListed(s, heads, counts, lists, v);
    }
  }

  lemma TotalPositive(g: Config, s: Slabs, free: seq<nat>, v: nat)
    requires GoodConfig(g) && SlabOk(g, s, free, v)
    ensures s.info[v].total > 0
  {
    assert GoodCache(g.caches[s.info[v].cls]);
  }

  lemma BucketSizes(s: Slabs, heads: seq<nat>, counts: seq<nat>, lists: seq<seq<nat>>, idx: nat)
    requires Bucketed(|CLASSES|, s, heads, counts, lists, INVALID_PFN) && idx < |CLASSES|
    ensures var p, e := BucketNo(idx, Partial), BucketNo(idx, Empty);
            && p < |heads| && p < |lists| && e < |counts| && e < |lists|
            && (heads[p] == INVALID_PFN <==> lists[p] == []) && counts[e] == |lists[e]|
            && (forall v: nat :: v in lists[p] ==> SlabOf(s, v, idx, Partial))
            && (forall v: nat :: v in lists[e] ==> SlabOf(s, v, idx, Empty))
  {
    BucketBelow(idx, Partial);
    BucketBelow(idx, Empty);
    Neighbourhood(|CLASSES|, s, heads, counts, lists, INVALID_PFN, BucketNo(idx, Partial));
    PopCount(|CLASSES|, s, heads, counts, lists, INVALID_PFN, idx, Partial);
    PopCount(|CLASSES|, s, heads, counts, lists, INVALID_PFN, idx, Empty);
  }

  lemma SlabListed(s: Slabs, heads: seq<nat>, counts: seq<nat>, lists: seq<seq<nat>>, v: nat)
    requires Bucketed(|CLASSES|, s, heads, counts, lists, INVALID_PFN) && v in s.info && v < INVALID_PFN
    ensures v in s.kind && BucketNo(s.info[v].cls, s.kind[v]) < |lists| &&
            v in lists[BucketNo(s.info[v].cls, s.kind[v])]
  {
  }

  /** Object a of slab v, not live before, is now live too. */
  ghost predicate LiveMore(g: Config, s: Slabs, fl: map<nat, seq<nat>>, s': Slabs, fl': map<nat, seq<nat>>, v: nat,
                           a: nat)
  {
    && !LiveAt(g, s, fl, v, a)
    && forall u: nat, x: nat ::
         (LiveAt(g, s', fl', u, x) <==> LiveAt(g, s, fl, u, x) || (u == v && x == a)) &&
         (LiveAt(g, s, fl, u, x) ==> SameClass(s, s', u))
  }

  lemma LiveMoreSame(g: Config, s0: Slabs, fl0: map<nat, seq<nat>>, s1: Slabs, fl1: map<nat, seq<nat>>,
                     s2: Slabs, fl2: map<nat, seq<nat>>, v: nat, a: nat)
    requires LiveMore(g, s0, fl0, s1, fl1, v, a) && SameLive(g, s1, fl1, s2, fl2)
    ensures LiveMore(g, s0, fl0, s2, fl2, v, a)
  {
  }

  lemma LiveSameMore(g: Config, s0: Slabs, fl0: map<nat, seq<nat>>, s1: Slabs, fl1: map<nat, seq<nat>>,
                     s2: Slabs, fl2: map<nat, seq<nat>>, v: nat, a: nat)
    requires SameLive(g, s0, fl0, s1, fl1) && LiveMore(g, s1, fl1, s2, fl2, v, a)
    ensures LiveMore(g, s0, fl0, s2, fl2, v, a)
  {
  }

  lemma LiveTaken(g: Config, s0: Slabs, fl0: map<nat, seq<nat>>, s: Slabs, fl: map<nat, seq<nat>>, v: nat)
    requires SameLive(g, s0, fl0, s, fl) && SlabsOk(g, s, fl) && v in s.info && v in fl && fl[v] != []
    requires v in s.free && s.free[v] in s.node && v in s.inuse && s.free[v] == fl[v][0]
    requires IsSlot(g, s.info[v].cls, v, fl[v][0])
    ensures LiveMore(g, s0, fl0, TakeSlot(s, v, s.node[s.free[v]]), fl[v := fl[v][1..]], v, s.free[v])
  {
    hide SlabsOk, LiveAt, TakeSlot;
    forall u: nat, x: nat
      ensures LiveAt(g, TakeSlot(s, v, s.node[s.free[v]]), fl[v := fl[v][1..]], u, x) <==>
              LiveAt(g, s0, fl0, u, x) || (u == v && x == s.free[v])
      ensures LiveAt(g, s0, fl0, u, x) ==> SameClass(s0, TakeSlot(s, v, s.node[s.free[v]]), u)
    {
      TakeSlotLive(g, s, fl, v, u, x);
    }
    TakeSlotLive(g, s, fl, v, v, s.free[v]);
  }

  lemma ReadyMeans(g: Config, s: Slabs, fl: map<nat, seq<nat>>, idx: nat, v: nat)
    requires Ready(g, s, fl, idx, v)
    ensures v in s.info && s.info[v].cls == idx && v in s.kind && s.kind[v] == Partial && v in fl && fl[v] != []
  {
  }

  lemma TakeFields(s: Slabs, v: nat, rest: nat)
    requires v in s.inuse
    ensures var s' := TakeSlot(s, v, rest);
            && s'.info == s.info && s'.kind == s.kind && s'.next == s.next && s'.prev == s.prev
            && s'.inuse == s.inuse[v := s.inuse[v] + 1]
  {
  }

  lemma ClassFits(hhdm: nat, caches: seq<Cache>, idx: nat, size: nat)
    requires CachesOk(caches) && hhdm > 0 && idx < |CLASSES| && size <= CLASSES[idx]
    ensures idx < |caches| && size <= caches[idx].objSize
  {
    hide Chosen;
    ConfigOk(hhdm, caches);
  }

  lemma MovedFew(counts: seq<nat>, counts': seq<nat>, idx: nat, k: Kind, k': Kind)
    requires MovedOne(counts, counts', BucketNo(idx, k), BucketNo(idx, k')) && k' != Empty
    requires FewEmpty(|CLASSES|, counts)
    ensures FewEmpty(|CLASSES|, counts')
  {
    forall c: nat | c < |CLASSES| ensures counts'[BucketNo(c, Empty)] <= MAX_EMPTY_SLABS {
      BucketNoUnique(c, Empty, idx, k');
      assert counts[BucketNo(c, Empty)] <= MAX_EMPTY_SLABS;
    }
  }

  /** After the take the tag is right again. */
  lemma TakenKinds(g: Config, s1: Slabs, fl1: map<nat, seq<nat>>, s2: Slabs, s: Slabs, idx: nat, v: nat)
    requires Ready(g, s1, fl1, idx, v)
    requires s2.info == s1.info && s2.kind == s1.kind && s2.inuse == s1.inuse[v := s1.inuse[v] + 1]
    requires s.info == s2.info && s.inuse == s2.inuse
    requires s.kind == if s2.inuse[v] == s2.info[v].total then s2.kind[v := Full] else s2.kind
    ensures KindsOk(s, INVALID_PFN)
  {
  }

  /** Slab v of class idx is tagged Partial and has a free slot; all other tags are
      right. */
  ghost predicate Ready(g: Config, s: Slabs, fl: map<nat, seq<nat>>, idx: nat, v: nat) {
    && v in s.info && s.info[v].cls == idx && v in s.kind && s.kind[v] == Partial && v in fl && fl[v] != []
    && KindsOk(s, v) && v in s.inuse && s.inuse[v] < s.info[v].total
  }

  lemma SameLiveRefl(g: Config, s: Slabs, fl: map<nat, seq<nat>>)
    ensures SameLive(g, s, fl, s, fl)
  {
  }

  lemma PartialReady(g: Config, s: Slabs, fl: map<nat, seq<nat>>, idx: nat, v: nat)
    requires SlabsOk(g, s, fl) && KindsOk(s, INVALID_PFN) && v in s.info && v in s.kind && v < INVALID_PFN
    requires s.info[v].cls == idx && s.kind[v] == Partial
    ensures Ready(g, s, fl, idx, v)
  {
    hide SlabsOk, SlabOk;
    AtSlab(g, s, fl, v);
    Inuse(g, s, fl[v], v);
  }

  lemma Inuse(g: Config, s: Slabs, free: seq<nat>, v: nat)
    requires SlabOk(g, s, free, v)
    ensures s.inuse[v] <= s.info[v].total && (s.inuse[v] < s.info[v].total <==> free != [])
  {
  }

  lemma EmptyHasNone(s: Slabs, v: nat)
    requires KindsOk(s, INVALID_PFN) && v in s.info && v < INVALID_PFN && v in s.kind && s.kind[v] == Empty
    ensures v in s.inuse && s.inuse[v] == 0
  {
  }

  lemma KindsSame(s: Slabs, s': Slabs)
    requires KindsOk(s, INVALID_PFN) && s' == s.(next := s'.next, prev := s'.prev)
    ensures KindsOk(s', INVALID_PFN)
  {
  }

  lemma KindsBut(s: Slabs, s': Slabs, v: nat)
    requires KindsOk(s, INVALID_PFN) && s'.info == s.info && s'.kind == s.kind && s'.inuse == s.inuse[v := 0]
    requires forall u :: u in s.info ==> u < INVALID_PFN
    ensures KindsOk(s', v)
  {
  }

  lemma HeadOf(n: nat, s: Slabs, heads: seq<nat>, counts: seq<nat>, lists: seq<seq<nat>>, cls: nat, k: Kind)
    requires Bucketed(n, s, heads, counts, lists, INVALID_PFN) && BucketNo(cls, k) < |lists|
    requires BucketNo(cls, k) < |heads| && heads[BucketNo(cls, k)] != INVALID_PFN
    ensures var v := heads[BucketNo(cls, k)]; v in s.info && v in s.kind && s.info[v].cls == cls && s.kind[v] == k
  {
    hide Bucketed;
    Neighbourhood(n, s, heads, counts, lists, INVALID_PFN, BucketNo(cls, k));
    PopCount(n, s, heads, counts, lists, INVALID_PFN, cls, k);
    assert lists[BucketNo(cls, k)][0] in lists[BucketNo(cls, k)];
  }

  lemma IntroRelisted(g: Config, idx: nat, v: nat, node: map<nat, nat>, node': map<nat, nat>, head: nat)
    requires idx < |g.caches| && g.caches[idx].objSize > 0 && FreeChain(node', head, SlotsOf(g, idx, v))
    requires forall x :: x in node && x !in SlotsOf(g, idx, v) ==> x in node' && node'[x] == node[x]
    ensures Relisted(g, idx, v, node, node', head)
  {
  }

  lemma RefillFields(s: Slabs, v: nat, node: map<nat, nat>, head: nat)
    ensures var s' := Refill(s, v, node, head);
            && s'.info == s.info && s'.kind == s.kind && s'.next == s.next && s'.prev == s.prev
            && s'.inuse == s.inuse[v := 0]
  {
  }

  lemma FreshMeans(g: Config, s: Slabs, fl: map<nat, seq<nat>>, s': Slabs, fl': map<nat, seq<nat>>, idx: nat, v: nat)
    requires Fresh(g, s, fl, s', fl', idx, v)
    ensures v in s'.info && s'.info[v].cls == idx && v in s'.kind && v in fl' && fl'[v] != []
    ensures SameLive(g, s, fl, s', fl') && KindsOk(s', v)
  {
  }

  lemma NowReady(g: Config, s1: Slabs, s: Slabs, fl: map<nat, seq<nat>>, idx: nat, v: nat)
    requires KindsOk(s1, v) && s == s1.(kind := s.kind, next := s.next, prev := s.prev) &&
             s.kind == s1.kind[v := Partial]
    requires SlabsOk(g, s, fl) && v in s.info && s.info[v].cls == idx && v in fl && fl[v] != []
    ensures Ready(g, s, fl, idx, v)
  {
    hide SlabsOk, SlabOk;
    AtSlab(g, s, fl, v);
    Inuse(g, s, fl[v], v);
  }

  lemma FewerEmpty(counts: seq<nat>, mid: seq<nat>, counts': seq<nat>, idx: nat)
    requires FewEmpty(|CLASSES|, counts) && idx < |CLASSES|
    requires OneLess(counts, mid, BucketNo(idx, Empty)) && OneMore(mid, counts', BucketNo(idx, Partial))
    ensures FewEmpty(|CLASSES|, counts')
  {
    forall c: nat | c < |CLASSES| ensures counts'[BucketNo(c, Empty)] <= MAX_EMPTY_SLABS {
      BucketNoUnique(c, Empty, idx, Partial);
    }
  }

  lemma MorePartial(counts: seq<nat>, counts': seq<nat>, idx: nat)
    requires FewEmpty(|CLASSES|, counts) && idx < |CLASSES| && OneMore(counts, counts', BucketNo(idx, Partial))
    ensures FewEmpty(|CLASSES|, counts')
  {
    forall c: nat | c < |CLASSES| ensures counts'[BucketNo(c, Empty)] <= MAX_EMPTY_SLABS {
      BucketNoUnique(c, Empty, idx, Partial);
    }
  }

  /** A new slab v of class idx, empty but tagged Partial; no object became live or
      stopped being. */
  ghost predicate Fresh(g: Config, s: Slabs, fl: map<nat, seq<nat>>, s': Slabs, fl': map<nat, seq<nat>>, idx: nat,
                        v: nat)
  {
    && v in s'.info && s'.info[v].cls == idx && v in s'.kind && v in s'.inuse && s'.inuse[v] == 0
    && v in fl' && fl'[v] != [] && SameLive(g, s, fl, s', fl') && KindsOk(s', v)
  }

  lemma CacheFacts(hhdm: nat, caches: seq<Cache>, idx: nat)
    requires CachesOk(caches) && idx < |CLASSES| && hhdm > 0
    ensures idx < |caches| && GoodCache(caches[idx]) && caches[idx].objSize > 0
  {
    hide Chosen;
    ConfigOk(hhdm, caches);
  }

  /** Objects start where the layout says, because slabs start at page boundaries. */
  lemma StartIs(g: Config, idx: nat, v: nat)
    requires GoodConfig(g) && Aligned(g.hhdm, 12) && idx < |g.caches| && g.caches[idx].objSize > 0
    ensures ObjectsStart(g.hhdm + v * PAGE_SIZE, g.caches[idx].objSize) == Virt(g, v) + Start(g.caches[idx].objSize) > 0
    ensures SlotsOf(g, idx, v) ==
            Slots(Virt(g, v) + Start(g.caches[idx].objSize), g.caches[idx].objSize, g.caches[idx].objsPerSlab)
  {
    var c := g.caches[idx];
    assert GoodCache(c);
    hide GoodCache, AndNot;
    PageAligned(g.hhdm, v);
    SmallMask();
    KeepHigh(Virt(g, v), HEADER_BYTES + c.objSize - 1, c.objSize - 1, 12) by {
      assert GoodCache(c);
    }
  }

  lemma SmallMask()
    ensures Pow2(12) == 4096
  {
    assert Pow2(4) == 16;
    assert Pow2(8) == 256;
    assert Pow2(12) == 4096;
  }

  lemma {:induction false} PageAligned(h: nat, v: nat)
    requires Aligned(h, 12)
    ensures Aligned(h + v * PAGE_SIZE, 12)
    decreases v
  {
    if v > 0 {
      PageAligned(h, v - 1);
      SmallMask();
      var q, r := AlignedIsMultiple(h + (v - 1) * PAGE_SIZE, 12);
      var q', r' := AlignedIsMultiple(h + v * PAGE_SIZE, 12);
      ModAddOnce(h + (v - 1) * PAGE_SIZE, PAGE_SIZE);
    }
  }

  lemma IntroAddable(g: Config, z: Bounds, high: set<Block>, s: Slabs, v: nat, i: Info, node: map<nat, nat>, head: nat)
    requires Tiled(z, high) && Block(v, i.order, false) in high && z.hi <= INVALID_PFN && v !in s.info
    requires i.cls < |g.caches| && i.order == g.caches[i.cls].order && i.total == g.caches[i.cls].objsPerSlab
    requires g.caches[i.cls].objSize > 0 && FreeChain(node, head, SlotsOf(g, i.cls, v))
    requires forall x :: x in s.node && x !in SlotsOf(g, i.cls, v) ==> x in node && node[x] == s.node[x]
    requires forall u :: u in s.info ==> Apart(SlabBlock(s, u), Block(v, i.order, false))
    ensures SlabState.Addable(g, s, v, i, node, head)
  {
    hide SlotsOf, FreeChain;
    TiledBlock(z, high, Block(v, i.order, false));
  }

  lemma GrowState(g: Config, s: Slabs, fl: map<nat, seq<nat>>, heads: seq<nat>, counts: seq<nat>, lists: seq<seq<nat>>,
                  v: nat, i: Info, node: map<nat, nat>, head: nat)
    requires GoodConfig(g) && SlabsOk(g, s, fl) && Bucketed(|CLASSES|, s, heads, counts, lists, INVALID_PFN)
    requires KindsOk(s, INVALID_PFN) && SlabState.Addable(g, s, v, i, node, head)
    ensures var s', fl' := AddSlab(s, v, i, node, head), fl[v := SlotsOf(g, i.cls, v)];
            && SlabsOk(g, s', fl') && Bucketed(|CLASSES|, s', heads, counts, lists, v) &&
               Fresh(g, s, fl, s', fl', i.cls, v)
            && s'.info.Keys == s.info.Keys + {v} && s'.info[v] == i &&
               (forall u :: u in s.info ==> s'.info[u] == s.info[u])
  {
    hide SlabsOk, Bucketed, GoodConfig, SlotsOf, Relisted, SameLive;
    AddSlabAll(g, s, fl, v, i, node, head);
    AddSlabLive(g, s, fl, v, i, node, head);
    HeadersBelow(g, s, fl);
    AddToBuckets(|CLASSES|, s, heads, counts, lists, v, i, node, head);
  }

  lemma HeadersBelow(g: Config, s: Slabs, fl: map<nat, seq<nat>>)
    requires SlabsOk(g, s, fl)
    ensures forall u :: u in s.info ==> u < INVALID_PFN
  {
  }

  lemma ManagerBacked(m: ZonesManager)
    requires m.Valid()
    ensures Backed(m.frames.r.next.Keys, m.high.blocks)
  {
    assert m.frames.r.next.Keys == m.frames.r.tag.Keys;
  }

  lemma SpreadFrom(z: Bounds, r: Records, high: set<Block>, s: Slabs)
    requires Tiled(z, high) && SlabPages(r, high, s)
    ensures Spread(s)
  {
    hide MarkedBy;
    forall u, v | u in s.info && v in s.info && u != v ensures Apart(SlabBlock(s, u), SlabBlock(s, v)) {
      TiledApart(z, high, SlabBlock(s, u), SlabBlock(s, v));
    }
  }

  lemma NothingYet(r: Records, high: set<Block>, hhdm: nat, caches: seq<Cache>, heads: seq<nat>, counts: seq<nat>,
                   lists: seq<seq<nat>>)
    requires CachesOk(caches) && hhdm > 0
    requires heads == Fill(3 * |CLASSES|, INVALID_PFN) && counts == Fill(3 * |CLASSES|, 0)
    requires lists == Fill(3 * |CLASSES|, [])
    ensures GoodConfig(Config(hhdm, caches)) && SlabsOk(Config(hhdm, caches), NO_SLABS, map[])
    ensures Spread(NO_SLABS) && Bucketed(|CLASSES|, NO_SLABS, heads, counts, lists, INVALID_PFN)
    ensures KindsOk(NO_SLABS, INVALID_PFN) && FewEmpty(|CLASSES|, counts) && SlabPages(r, high, NO_SLABS)
  {
    hide Chosen, GoodCache, Fill;
    ConfigOk(hhdm, caches);
  }

  lemma MovedIs(counts: seq<nat>, mid: seq<nat>, counts': seq<nat>, b: nat, c: nat)
    requires OneLess(counts, mid, b) && OneMore(mid, counts', c)
    ensures MovedOne(counts, counts', b, c)
  {
  }

  lemma BucketBelow(cls: nat, k: Kind)
    requires cls < |CLASSES|
    ensures BucketNo(cls, k) < 3 * |CLASSES|
  {
  }

  lemma PopCount(n: nat, s: Slabs, heads: seq<nat>, counts: seq<nat>, lists: seq<seq<nat>>, except: nat, cls: nat,
                 k: Kind)
    requires Bucketed(n, s, heads, counts, lists, except) && BucketNo(cls, k) < |lists|
    ensures BucketNo(cls, k) < |counts| && counts[BucketNo(cls, k)] == |lists[BucketNo(cls, k)]|
    ensures forall v: nat :: v in lists[BucketNo(cls, k)] ==>
              v in s.info && v in s.kind && s.info[v].cls == cls && s.kind[v] == k
  {
    var b := BucketNo(cls, k);
    assert OfBucket(s.info, s.kind, lists[b], b, except);
    forall v: nat | v in lists[b] ensures s.info[v].cls == cls && s.kind[v] == k {
      BucketNoUnique(cls, k, s.info[v].cls, s.kind[v]);
    }
  }

  lemma HeadIn(n: nat, s: Slabs, heads: seq<nat>, counts: seq<nat>, lists: seq<seq<nat>>, except: nat, b: nat)
    requires Bucketed(n, s, heads, counts, lists, except) && b < |lists|
    ensures b < |heads| && (heads[b] == INVALID_PFN || heads[b] in s.info)
  {
    Neighbourhood(n, s, heads, counts, lists, except, b);
    if lists[b] != [] {
      assert lists[b][0] in lists[b];
    }
  }

  lemma IsOneMore(counts: seq<nat>, b: nat)
    requires b < |counts|
    ensures OneMore(counts, counts[b := counts[b] + 1], b)
  {
  }

  lemma IsOneLess(counts: seq<nat>, b: nat)
    requires b < |counts| && counts[b] > 0
    ensures OneLess(counts, counts[b := counts[b] - 1], b)
  {
  }

  lemma SlabOfIs(s: Slabs, v: nat, cls: nat, k: Kind)
    ensures SlabOf(s, v, cls, k) <==> v in s.info && s.info[v].cls == cls && v in s.kind && s.kind[v] == k
  {
  }

  lemma CountIsZero(counts: seq<nat>, b: nat)
    requires b < |counts|
    ensures CountIs(counts, b, 0) <==> counts[b] == 0
  {
  }

  lemma PushFields(s: Slabs, v: nat, k: Kind, head: nat)
    ensures var s' := PushSlab(s, v, k, head);
            s' == s.(kind := s'.kind, next := s'.next, prev := s'.prev) && s'.kind == s.kind[v := k]
  {
  }

  lemma UnlinkFields(s: Slabs, v: nat)
    requires v in s.next && v in s.prev
    ensures var s' := UnlinkSlab(s, v); s' == s.(next := s'.next, prev := s'.prev)
  {
  }

  lemma SpreadSame(s: Slabs, s': Slabs)
    requires Spread(s) && s'.info == s.info
    ensures Spread(s')
  {
    forall u, v | u in s'.info && v in s'.info && u != v ensures Apart(SlabBlock(s', u), SlabBlock(s', v)) {
      assert Apart(SlabBlock(s, u), SlabBlock(s, v));
    }
  }

  lemma SameLiveTwice(g: Config, s: Slabs, fl: map<nat, seq<nat>>, s1: Slabs, fl1: map<nat, seq<nat>>,
                      s2: Slabs, fl2: map<nat, seq<nat>>)
    requires SameLive(g, s, fl, s1, fl1) && SameLive(g, s1, fl1, s2, fl2)
    ensures SameLive(g, s, fl, s2, fl2)
  {
  }
}
