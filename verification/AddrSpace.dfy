/** Address spaces: an ordered map of regions searched through one neighbour,
    and the page table that must agree with the regions. The page table is a map
    from page addresses to entries; mapping a present page and unmapping an
    absent one fail. */
module AddressSpaces {
  import opened Options

  const PAGE_SIZE: nat := 4096

  datatype MapFlags = MapFlags(read: bool, write: bool, exec: bool, user: bool, nocache: bool)

  /** The entry flags besides PRESENT. */
  datatype PtFlags = PtFlags(writable: bool, user: bool, noCache: bool, noExecute: bool)

  function ToPageTableFlags(f: MapFlags): PtFlags {
    PtFlags(f.write, f.user, f.nocache, !f.exec)
  }

  datatype Backing = Physical(phys: nat) | Device(phys: nat) | Reserved

  datatype Vma = Vma(vaddr: nat, size: nat, flags: MapFlags, backing: Backing)

  datatype Pte = Pte(frame: nat, flags: PtFlags)

  datatype VmaError = NotAligned | Overlap | NotFound | PageTableError

  datatype Result = Ok | Err(error: VmaError)

  function End(v: Vma): nat {
    v.vaddr + v.size
  }

  predicate Contains(v: Vma, addr: nat) {
    v.vaddr <= addr < End(v)
  }

  predicate Overlaps(a: Vma, b: Vma) {
    a.vaddr < End(b) && b.vaddr < End(a)
  }

  function AlignDown(addr: nat): nat {
    addr - addr % PAGE_SIZE
  }

  /** The greatest key below `limit`: `range(..limit).next_back()`. */
  function LastBelow(m: map<nat, Vma>, limit: nat): (r: Option<nat>)
    ensures r.None? ==> forall k :: k in m ==> k >= limit
    ensures r.Some? ==> r.value in m && r.value < limit && forall k :: k in m && k < limit ==> k <= r.value
  {
    if limit == 0 then None
    else if limit - 1 in m then Some(limit - 1)
    else LastBelow(m, limit - 1)
  }

  /** Regions are stored under their start, on page boundaries, and none overlap. */
  ghost predicate RegionsOk(m: map<nat, Vma>) {
    && (forall k :: k in m ==> m[k].vaddr == k && k % PAGE_SIZE == 0 && m[k].size % PAGE_SIZE == 0)
    && (forall j, k :: j in m && k in m && j != k ==> !Overlaps(m[j], m[k]))
  }

  /** `find`: only the last region starting at or before the address is looked at. */
  function Find(m: map<nat, Vma>, addr: nat): Option<Vma> {
    var last := LastBelow(m, addr + 1);
    if last.Some? && Contains(m[last.value], addr) then Some(m[last.value]) else None
  }

  /** `find_overlapping`: only the last region starting before the new end is looked at. */
  function FindOverlapping(m: map<nat, Vma>, v: Vma): Option<Vma> {
    var last := LastBelow(m, End(v));
    if last.Some? && Overlaps(m[last.value], v) then Some(m[last.value]) else None
  }

  /** Looking at one neighbour finds an overlap exactly when some region overlaps. */
  lemma FindOverlappingIsExact(m: map<nat, Vma>, v: Vma)
    requires RegionsOk(m)
    ensures FindOverlapping(m, v).Some? <==> exists k :: k in m && Overlaps(m[k], v)
  {
    if k :| k in m && Overlaps(m[k], v) {
      var j := LastBelow(m, End(v)).value;
      if j != k {
        assert !Overlaps(m[k], m[j]);
      }
    }
  }

  /** Looking at one neighbour gives the same answer as scanning all regions. */
  lemma FindIsScan(m: map<nat, Vma>, addr: nat)
    requires RegionsOk(m)
    ensures Find(m, addr) == None ==> forall k :: k in m ==> !Contains(m[k], addr)
    ensures forall k :: k in m && Contains(m[k], addr) ==> Find(m, addr) == Some(m[k])
  {
    forall k | k in m && Contains(m[k], addr) ensures Find(m, addr) == Some(m[k]) {
      var j := LastBelow(m, addr + 1).value;
      if j != k {
        assert !Overlaps(m[k], m[j]);
      }
    }
  }

  // Agreement of the page table.

  /** a is the address of one of the region's pages. */
  predicate PageIn(v: Vma, a: nat) {
    a % PAGE_SIZE == 0 && Contains(v, a)
  }

  predicate Backed(v: Vma) {
    !v.backing.Reserved?
  }

  /** The frame behind page a of a physical or device region. */
  function FrameFor(v: Vma, a: nat): nat
    requires Backed(v) && v.vaddr <= a
  {
    AlignDown(v.backing.phys + (a - v.vaddr))
  }

  ghost predicate Owned(m: map<nat, Vma>, a: nat) {
    exists k :: k in m && PageIn(m[k], a)
  }

  /** The entry leads to the frame and permits what the flags say. */
  ghost predicate Shows(e: Pte, frame: int, f: MapFlags) {
    && e.frame == frame
    && (e.flags.writable <==> f.write) && (e.flags.user <==> f.user)
    && (e.flags.noCache <==> f.nocache) && (e.flags.noExecute <==> !f.exec)
  }

  /** Every page of a physical or device region is present, at the same distance from the
      frame of the first byte as from the start of the region, with its current flags. */
  ghost predicate RegionMapped(v: Vma, pt: map<nat, Pte>) {
    !v.backing.Reserved? ==>
      forall a: nat :: v.vaddr <= a < v.vaddr + v.size && a % PAGE_SIZE == 0 ==>
        a in pt && Shows(pt[a], v.backing.phys - v.backing.phys % PAGE_SIZE + (a - v.vaddr), v.flags)
  }

  /** What the entry for a page is made of. */
  lemma EntryShows(v: Vma, a: nat)
    requires Backed(v) && v.vaddr % PAGE_SIZE == 0 && PageIn(v, a)
    ensures Shows(Pte(FrameFor(v, a), ToPageTableFlags(v.flags)),
                  v.backing.phys - v.backing.phys % PAGE_SIZE + (a - v.vaddr), v.flags)
  {
    var p, q := v.backing.phys / PAGE_SIZE, (a - v.vaddr) / PAGE_SIZE;
    assert a - v.vaddr == q * PAGE_SIZE && v.backing.phys == p * PAGE_SIZE + v.backing.phys % PAGE_SIZE;
    assert v.backing.phys + (a - v.vaddr) == (p + q) * PAGE_SIZE + v.backing.phys % PAGE_SIZE;
  }

  /** The i-th page of a region that starts at a frame leads to its i-th frame, and no two
      pages to one frame. */
  lemma FramesInOrder(v: Vma, pt: map<nat, Pte>, i: nat, j: nat)
    requires RegionMapped(v, pt) && Backed(v) && v.vaddr % PAGE_SIZE == 0 && v.backing.phys % PAGE_SIZE == 0
    requires i < v.size / PAGE_SIZE && j < v.size / PAGE_SIZE
    ensures var a, b := v.vaddr + i * PAGE_SIZE, v.vaddr + j * PAGE_SIZE;
            && a in pt && pt[a].frame == v.backing.phys + i * PAGE_SIZE
            && b in pt && (i != j ==> pt[a].frame != pt[b].frame)
  {
    PageAddress(v, i);
    PageAddress(v, j);
  }

  /** Every physical or device region is mapped. */
  ghost predicate AllMapped(m: map<nat, Vma>, pt: map<nat, Pte>) {
    forall k :: k in m ==> RegionMapped(m[k], pt)
  }

  ghost predicate AllOwned(m: map<nat, Vma>, pt: map<nat, Pte>) {
    forall a :: a in pt ==> Owned(m, a)
  }

  /** The page table agrees with the regions. */
  ghost predicate TableOk(m: map<nat, Vma>, pt: map<nat, Pte>) {
    AllOwned(m, pt) && AllMapped(m, pt)
  }

  /** A page belongs to at most one region. */
  lemma OwnerIsUnique(m: map<nat, Vma>, j: nat, k: nat, a: nat)
    requires RegionsOk(m) && j in m && k in m && Contains(m[j], a) && Contains(m[k], a)
    ensures j == k
  {
    if j != k {
      assert Overlaps(m[j], m[k]);
    }
  }

  /** pt is pt0 with the pages of v below hi mapped as v prescribes. */
  ghost predicate MappedBelow(pt0: map<nat, Pte>, pt: map<nat, Pte>, v: Vma, hi: nat)
    requires Backed(v)
  {
    && (forall a: nat :: a in pt <==> a in pt0 || (PageIn(v, a) && a < hi))
    && (forall a :: a in pt ==>
          pt[a] == if PageIn(v, a) && a < hi then Pte(FrameFor(v, a), ToPageTableFlags(v.flags)) else pt0[a])
  }

  /** pt is pt0 without the pages of v below hi. */
  ghost predicate UnmappedBelow(pt0: map<nat, Pte>, pt: map<nat, Pte>, v: Vma, hi: nat) {
    && (forall a: nat :: a in pt <==> a in pt0 && !(PageIn(v, a) && a < hi))
    && (forall a :: a in pt ==> pt[a] == pt0[a])
  }

  /** Between one page boundary of a region and the next there is one page. */
  lemma NextPage(v: Vma, hi: nat, a: nat)
    requires v.vaddr % PAGE_SIZE == 0 && hi % PAGE_SIZE == 0 && v.vaddr <= hi < End(v)
    ensures PageIn(v, a) && a < hi + PAGE_SIZE <==> (PageIn(v, a) && a < hi) || a == hi
  {
  }

  lemma MapOneMore(pt0: map<nat, Pte>, pt: map<nat, Pte>, v: Vma, hi: nat)
    requires Backed(v) && MappedBelow(pt0, pt, v, hi)
    requires v.vaddr % PAGE_SIZE == 0 && hi % PAGE_SIZE == 0 && v.vaddr <= hi < End(v)
    ensures MappedBelow(pt0, pt[hi := Pte(FrameFor(v, hi), ToPageTableFlags(v.flags))], v, hi + PAGE_SIZE)
  {
    hide PageIn;
    forall a: nat ensures PageIn(v, a) && a < hi + PAGE_SIZE <==> (PageIn(v, a) && a < hi) || a == hi {
      NextPage(v, hi, a);
    }
  }

  lemma UnmapOneMore(pt0: map<nat, Pte>, pt: map<nat, Pte>, v: Vma, hi: nat)
    requires UnmappedBelow(pt0, pt, v, hi)
    requires v.vaddr % PAGE_SIZE == 0 && hi % PAGE_SIZE == 0 && v.vaddr <= hi < End(v)
    ensures UnmappedBelow(pt0, pt - {hi}, v, hi + PAGE_SIZE)
  {
    hide PageIn;
    forall a: nat ensures PageIn(v, a) && a < hi + PAGE_SIZE <==> (PageIn(v, a) && a < hi) || a == hi {
      NextPage(v, hi, a);
    }
  }

  /** A region that overlaps none has none of its pages present. */
  lemma NewPagesAbsent(m: map<nat, Vma>, pt: map<nat, Pte>, v: Vma, a: nat)
    requires RegionsOk(m) && AllOwned(m, pt) && (forall k :: k in m ==> !Overlaps(m[k], v)) && PageIn(v, a)
    ensures a !in pt
  {
    if a in pt {
      assert Owned(m, a);
      var k :| k in m && PageIn(m[k], a);
      assert Overlaps(m[k], v);
    }
  }

  /** Storing a region that overlaps none keeps the regions well formed. */
  lemma InsertRegions(m: map<nat, Vma>, v: Vma)
    requires RegionsOk(m) && v.vaddr % PAGE_SIZE == 0 && v.size % PAGE_SIZE == 0
    requires forall k :: k in m ==> !Overlaps(m[k], v)
    ensures RegionsOk(m[v.vaddr := v])
  {
  }

  /** Whether storing v throws away a region that has pages present. */
  ghost predicate Orphans(m: map<nat, Vma>, pt: map<nat, Pte>, v: Vma) {
    v.vaddr in m && exists a :: a in pt && PageIn(m[v.vaddr], a)
  }

  lemma InsertOwners(m: map<nat, Vma>, v: Vma, a: nat)
    requires RegionsOk(m) && forall k :: k in m ==> !Overlaps(m[k], v)
    ensures Owned(m[v.vaddr := v], a) <==>
            PageIn(v, a) || (Owned(m, a) && !(v.vaddr in m && PageIn(m[v.vaddr], a)))
  {
    var m' := m[v.vaddr := v];
    if PageIn(v, a) {
      assert PageIn(m'[v.vaddr], a);
    }
    if k :| k in m && PageIn(m[k], a) {
      if k != v.vaddr {
        assert PageIn(m'[k], a);
        if v.vaddr in m && PageIn(m[v.vaddr], a) {
          OwnerIsUnique(m, k, v.vaddr, a);
        }
      }
    }
    if k :| k in m' && PageIn(m'[k], a) && k != v.vaddr {
      assert PageIn(m[k], a);
      if v.vaddr in m && PageIn(m[v.vaddr], a) {
        OwnerIsUnique(m, k, v.vaddr, a);
      }
    }
  }

  lemma NewPagesAbsentHere(m: map<nat, Vma>, pt: map<nat, Pte>, v: Vma, a: nat)
    requires RegionsOk(m) && AllOwned(m, pt) && (forall k :: k in m ==> !Overlaps(m[k], v)) && a in pt
    ensures !PageIn(v, a)
  {
    if PageIn(v, a) {
      NewPagesAbsent(m, pt, v, a);
    }
  }

  /** A table that agrees on the pages of a region leaves it mapped. */
  lemma MappedFrame(v: Vma, pt0: map<nat, Pte>, pt: map<nat, Pte>)
    requires RegionMapped(v, pt0) && forall a: nat :: a in pt0 && PageIn(v, a) ==> a in pt && pt[a] == pt0[a]
    ensures RegionMapped(v, pt)
  {
  }

  /** Mapping pages of a region disturbs no region that it does not overlap. */
  lemma MapOthers(m: map<nat, Vma>, pt0: map<nat, Pte>, pt: map<nat, Pte>, v: Vma, hi: nat)
    requires AllMapped(m, pt0) && (forall j :: j in m ==> !Overlaps(m[j], v))
    requires if Backed(v) then MappedBelow(pt0, pt, v, hi) else pt == pt0
    ensures AllMapped(m, pt)
  {
    forall k | k in m ensures RegionMapped(m[k], pt) {
      forall a: nat | a in pt0 && PageIn(m[k], a) ensures a in pt && pt[a] == pt0[a] {
        assert !Overlaps(m[k], v);
        assert !PageIn(v, a);
      }
      MappedFrame(m[k], pt0, pt);
    }
  }

  /** A region with all its pages mapped. */
  lemma NowMapped(pt0: map<nat, Pte>, pt: map<nat, Pte>, v: Vma)
    requires v.vaddr % PAGE_SIZE == 0 && (Backed(v) ==> MappedBelow(pt0, pt, v, End(v)))
    ensures RegionMapped(v, pt)
  {
    hide FrameFor, ToPageTableFlags, Shows;
    if Backed(v) {
      forall a: nat | PageIn(v, a)
        ensures a in pt && Shows(pt[a], v.backing.phys - v.backing.phys % PAGE_SIZE + (a - v.vaddr), v.flags)
      {
        EntryShows(v, a);
      }
    }
  }

  lemma MapOwners(m: map<nat, Vma>, pt0: map<nat, Pte>, pt: map<nat, Pte>, v: Vma)
    requires RegionsOk(m) && AllOwned(m, pt0) && (forall k :: k in m ==> !Overlaps(m[k], v))
    requires forall a: nat :: a in pt <==> a in pt0 || (Backed(v) && PageIn(v, a))
    ensures AllOwned(m[v.vaddr := v], pt) <==> !Orphans(m, pt0, v)
  {
    hide PageIn, Overlaps;
    var m' := m[v.vaddr := v];
    forall a | a in pt ensures Owned(m', a) <==> !(a in pt0 && v.vaddr in m && PageIn(m[v.vaddr], a)) {
      InsertOwners(m, v, a);
      if a in pt0 {
        NewPagesAbsentHere(m, pt0, v, a);
      }
    }
  }

  /** After a map every region is mapped, and the page table agrees with the regions
      exactly when no region with present pages was thrown away. */
  lemma MapTable(m: map<nat, Vma>, pt0: map<nat, Pte>, pt: map<nat, Pte>, v: Vma)
    requires RegionsOk(m) && AllMapped(m, pt0) && forall k :: k in m ==> !Overlaps(m[k], v)
    requires v.vaddr % PAGE_SIZE == 0
    requires if Backed(v) then MappedBelow(pt0, pt, v, End(v)) else pt == pt0
    ensures AllMapped(m[v.vaddr := v], pt)
    ensures AllOwned(m, pt0) ==> (TableOk(m[v.vaddr := v], pt) <==> !Orphans(m, pt0, v))
  {
    hide AllOwned, Overlaps, Owned;
    if AllOwned(m, pt0) {
      MapOwners(m, pt0, pt, v);
    }
    MapOthers(m, pt0, pt, v, End(v));
    NowMapped(pt0, pt, v);
    hide RegionMapped;
  }

  lemma UnmapOwners(m: map<nat, Vma>, pt0: map<nat, Pte>, pt: map<nat, Pte>, k: nat)
    requires AllOwned(m, pt0) && k in m && UnmappedBelow(pt0, pt, m[k], End(m[k]))
    ensures AllOwned(m - {k}, pt)
  {
    var m' := m - {k};
    forall a | a in pt ensures Owned(m', a) {
      assert Owned(m, a);
      var j :| j in m && PageIn(m[j], a);
      assert j in m' && PageIn(m'[j], a);
    }
  }

  /** Removing a region and its pages. */
  lemma UnmapTable(m: map<nat, Vma>, pt0: map<nat, Pte>, pt: map<nat, Pte>, k: nat)
    requires RegionsOk(m) && AllMapped(m, pt0) && k in m && UnmappedBelow(pt0, pt, m[k], End(m[k]))
    ensures RegionsOk(m - {k}) && AllMapped(m - {k}, pt)
    ensures AllOwned(m, pt0) ==> AllOwned(m - {k}, pt)
  {
    if AllOwned(m, pt0) {
      UnmapOwners(m, pt0, pt, k);
    }
    forall j | j in m - {k} ensures RegionMapped(m[j], pt) {
      UnmapOther(m, pt0, pt, k, j);
    }
  }

  lemma UnmapOther(m: map<nat, Vma>, pt0: map<nat, Pte>, pt: map<nat, Pte>, k: nat, j: nat)
    requires RegionsOk(m) && k in m && j in m && j != k && RegionMapped(m[j], pt0)
    requires UnmappedBelow(pt0, pt, m[k], End(m[k]))
    ensures RegionMapped(m[j], pt)
  {
    forall a: nat | a in pt0 && PageIn(m[j], a) ensures a in pt && pt[a] == pt0[a] {
      if PageIn(m[k], a) {
        OwnerIsUnique(m, j, k, a);
      }
    }
    MappedFrame(m[j], pt0, pt);
  }

  lemma ProtectOwners(m: map<nat, Vma>, pt0: map<nat, Pte>, pt: map<nat, Pte>, k: nat, flags: MapFlags)
    requires AllOwned(m, pt0) && k in m
    requires forall a: nat :: a in pt ==> a in pt0 || PageIn(m[k], a)
    ensures AllOwned(m[k := m[k].(flags := flags)], pt)
  {
    var m' := m[k := m[k].(flags := flags)];
    forall a | a in pt ensures Owned(m', a) {
      if a in pt0 {
        var j :| j in m && PageIn(m[j], a);
        assert PageIn(m'[j], a);
      } else {
        assert PageIn(m'[k], a);
      }
    }
  }

  lemma ProtectOther(m: map<nat, Vma>, pt0: map<nat, Pte>, pt: map<nat, Pte>, k: nat, j: nat, flags: MapFlags)
    requires RegionsOk(m) && k in m && j in m && j != k && RegionMapped(m[j], pt0)
    requires var v := m[k].(flags := flags); if Backed(v) then MappedBelow(pt0, pt, v, End(v)) else pt == pt0
    ensures RegionMapped(m[j], pt)
  {
    var v := m[k].(flags := flags);
    forall a: nat | a in pt0 && PageIn(m[j], a) ensures a in pt && pt[a] == pt0[a] {
      if PageIn(v, a) {
        OwnerIsUnique(m, j, k, a);
      }
    }
    MappedFrame(m[j], pt0, pt);
  }

  /** Changing a region's flags, and the entries of its pages if it is backed. */
  lemma ProtectTable(m: map<nat, Vma>, pt0: map<nat, Pte>, pt: map<nat, Pte>, k: nat, flags: MapFlags)
    requires RegionsOk(m) && AllMapped(m, pt0) && k in m
    requires var v := m[k].(flags := flags); if Backed(v) then MappedBelow(pt0, pt, v, End(v)) else pt == pt0
    ensures RegionsOk(m[k := m[k].(flags := flags)]) && AllMapped(m[k := m[k].(flags := flags)], pt)
    ensures AllOwned(m, pt0) ==> AllOwned(m[k := m[k].(flags := flags)], pt)
  {
    var v := m[k].(flags := flags);
    var m' := m[k := v];
    assert forall j :: j in m ==> m'[j].vaddr == m[j].vaddr && m'[j].size == m[j].size;
    if AllOwned(m, pt0) {
      ProtectOwners(m, pt0, pt, k, flags);
    }
    forall j | j in m && j != k ensures RegionMapped(m[j], pt) {
      ProtectOther(m, pt0, pt, k, j, flags);
    }
    NowMapped(pt0, pt, v);
    hide RegionMapped, AllOwned, Overlaps;
  }

  /** How a page fault ends: the page is mapped, the CPU halts, or the kernel panics
      because no frame is free or because the page is already present. */
  datatype Fault = Mapped | Halted | NoFrame | AlreadyPresent

  /** A reserved region holds the address and permits the access. */
  ghost predicate OnDemand(vmas: map<nat, Vma>, addr: nat, isWrite: bool) {
    exists k :: k in vmas && k <= addr < k + vmas[k].size && vmas[k].backing.Reserved? &&
                (isWrite ==> vmas[k].flags.write)
  }

  class AddrSpace {
    var vmas: map<nat, Vma>
    var pageTable: map<nat, Pte>

    /** Every region is in its place and mapped; holds after any operations. */
    ghost predicate Sound()
      reads this
    {
      RegionsOk(vmas) && AllMapped(vmas, pageTable)
    }

    /** Besides, every present page belongs to a region. */
    ghost predicate Valid()
      reads this
    {
      Sound() && AllOwned(vmas, pageTable)
    }

    /** An address space over a table without user entries. */
    constructor ()
      ensures Valid() && vmas == map[] && pageTable == map[]
    {
      vmas, pageTable := map[], map[];
    }

    /** Maps every page of a physical or device region. Fails at the first page
        that is already present, leaving the pages before it mapped. */
    method MapInPageTable(v: Vma) returns (ok: bool)
      requires v.vaddr % PAGE_SIZE == 0 && v.size % PAGE_SIZE == 0
      modifies this`pageTable
      ensures ok <==> (Backed(v) ==> forall a: nat :: PageIn(v, a) ==> a !in old(pageTable))
      ensures !Backed(v) ==> pageTable == old(pageTable)
      ensures ok && Backed(v) ==> MappedBelow(old(pageTable), pageTable, v, End(v))
      ensures !ok ==> exists a :: a in old(pageTable) && PageIn(v, a) && MappedBelow(old(pageTable), pageTable, v, a)
    {
      if !Backed(v) {
        return true;
      }
      hide MappedBelow, AbsentBelow, PageIn, FrameFor;
      MapNothing(pageTable, v);
      for i := 0 to v.size / PAGE_SIZE
        invariant MappedBelow(old(pageTable), pageTable, v, v.vaddr + i * PAGE_SIZE)
        invariant AbsentBelow(old(pageTable), v, v.vaddr + i * PAGE_SIZE)
      {
        var va := v.vaddr + i * PAGE_SIZE;
        PageAddress(v, i);
        MapFacts(old(pageTable), pageTable, v, va);
        if va in pageTable {
          return false;
        }
        MapOneMore(old(pageTable), pageTable, v, va);
        pageTable := pageTable[va := Pte(FrameFor(v, va), ToPageTableFlags(v.flags))];
      }
      AllAbsent(old(pageTable), v);
      return true;
    }

    /** Adds a region. It is refused exactly when misaligned, overlapping, or a page of it
        is already present, which only pages without a region can be; then the pages
        before that one stay mapped. Agreement survives exactly when no region with
        present pages is thrown away, which only a zero-size map can do. */
    method Map(vaddr: nat, size: nat, backing: Backing, flags: MapFlags) returns (r: Result)
      requires Sound()
      modifies this
      ensures Sound()
      ensures var v := Vma(vaddr, size, flags, backing);
              && r == (if vaddr % PAGE_SIZE != 0 || size % PAGE_SIZE != 0 then Err(NotAligned)
                       else if exists k :: k in old(vmas) && Overlaps(old(vmas)[k], v) then Err(Overlap)
                       else if Backed(v) && exists a :: a in old(pageTable) && PageIn(v, a) then Err(PageTableError)
                       else Ok)
              && (r.Err? ==> vmas == old(vmas) && (r.error != PageTableError ==> pageTable == old(pageTable)))
              && (r == Err(PageTableError) ==>
                    exists a :: a in old(pageTable) && PageIn(v, a) && MappedBelow(old(pageTable), pageTable, v, a))
              && (r.Ok? ==> vmas == old(vmas)[vaddr := v])
              && (r.Ok? && Backed(v) ==> MappedBelow(old(pageTable), pageTable, v, End(v)))
              && (r.Ok? && !Backed(v) ==> pageTable == old(pageTable))
              && (r.Ok? ==> RegionMapped(v, pageTable))
              && (r.Ok? && old(Valid()) ==> (Valid() <==> !Orphans(old(vmas), old(pageTable), v)))
      ensures old(Valid()) && (size > 0 || vaddr !in old(vmas)) ==> Valid()
      ensures old(Valid()) ==> r != Err(PageTableError)
    {
      if vaddr % PAGE_SIZE != 0 || size % PAGE_SIZE != 0 {
        return Err(NotAligned);
      }
      var v := Vma(vaddr, size, flags, backing);
      FindOverlappingIsExact(vmas, v);
      if FindOverlapping(vmas, v).Some? {
        return Err(Overlap);
      }
      if AllOwned(vmas, pageTable) {
        forall a: nat | PageIn(v, a) ensures a !in pageTable {
          NewPagesAbsent(vmas, pageTable, v, a);
        }
      }
      var ok := MapInPageTable(v);
      hide MappedBelow, RegionMapped, PageIn, Overlaps;
      if !ok {
        ghost var a :| a in old(pageTable) && PageIn(v, a) && MappedBelow(old(pageTable), pageTable, v, a);
        MapOthers(vmas, old(pageTable), pageTable, v, a);
        return Err(PageTableError);
      }
      MapTable(vmas, old(pageTable), pageTable, v);
      InsertRegions(vmas, v);
      OnlyEmptyReplaces(vmas, old(pageTable), v);
      vmas := vmas[vaddr := v];
      assert vmas[vaddr] == v;
      return Ok;
    }

    /** Removes a region with all its pages. */
    method Unmap(vaddr: nat) returns (r: Result)
      requires Sound()
      modifies this
      ensures Sound() && (old(Valid()) ==> Valid())
      ensures r == if vaddr in old(vmas) then Ok else Err(NotFound)
      ensures r.Err? ==> vmas == old(vmas) && pageTable == old(pageTable)
      ensures r.Ok? ==> vmas == old(vmas) - {vaddr}
      ensures r.Ok? ==> UnmappedBelow(old(pageTable), pageTable, old(vmas)[vaddr], End(old(vmas)[vaddr]))
    {
      hide UnmappedBelow, PageIn, AllMapped, AllOwned, Overlaps;
      if vaddr !in vmas {
        return Err(NotFound);
      }
      var v := vmas[vaddr];
      vmas := vmas - {vaddr};
      UnmapNothing(pageTable, v);
      for i := 0 to v.size / PAGE_SIZE
        invariant vmas == old(vmas) - {vaddr}
        invariant UnmappedBelow(old(pageTable), pageTable, v, v.vaddr + i * PAGE_SIZE)
      {
        var va := v.vaddr + i * PAGE_SIZE;
        PageAddress(v, i);
        UnmapFacts(old(vmas), old(pageTable), pageTable, vaddr, va);
        if Backed(v) && va !in pageTable {
          return Err(PageTableError);
        }
        UnmapOneMore(old(pageTable), pageTable, v, va);
        pageTable := pageTable - {va};
      }
      WholeRegion(v);
      UnmapTable(old(vmas), old(pageTable), pageTable, vaddr);
      return Ok;
    }

    /** Changes a region's flags. Pages of a physical or device region are remapped
        with the new flags; pages a fault put into a reserved region keep theirs. */
    method Protect(vaddr: nat, flags: MapFlags) returns (r: Result)
      requires Sound()
      modifies this
      ensures Sound() && (old(Valid()) ==> Valid())
      ensures r.Ok? ==> vaddr in vmas && vmas[vaddr].flags == flags && RegionMapped(vmas[vaddr], pageTable)
      ensures r == if vaddr in old(vmas) then Ok else Err(NotFound)
      ensures r.Err? ==> vmas == old(vmas) && pageTable == old(pageTable)
      ensures r.Ok? ==> var v := old(vmas)[vaddr].(flags := flags);
                        && vmas == old(vmas)[vaddr := v]
                        && if Backed(v) then MappedBelow(old(pageTable), pageTable, v, End(v))
                           else pageTable == old(pageTable)
    {
      hide MappedBelow, PageIn, AllMapped, AllOwned, FrameFor, Overlaps, RegionMapped;
      if vaddr !in vmas {
        return Err(NotFound);
      }
      var v := vmas[vaddr].(flags := flags);
      if Backed(v) {
        MapNothing(pageTable, v);
        for i := 0 to v.size / PAGE_SIZE
          invariant vmas == old(vmas)
          invariant MappedBelow(old(pageTable), pageTable, v, v.vaddr + i * PAGE_SIZE)
        {
          var va := v.vaddr + i * PAGE_SIZE;
          PageAddress(v, i);
          ProtectFacts(vmas, old(pageTable), pageTable, vaddr, flags, va);
          if va !in pageTable {
            return Err(PageTableError);
          }
          MapOneMore(old(pageTable), pageTable, v, va);
          ghost var mapped := pageTable[va := Pte(FrameFor(v, va), ToPageTableFlags(v.flags))];
          pageTable := pageTable - {va};
          pageTable := pageTable[va := Pte(FrameFor(v, va), ToPageTableFlags(v.flags))];
          assert pageTable == mapped;
        }
        WholeRegion(v);
      }
      ProtectTable(vmas, old(pageTable), pageTable, vaddr, flags);
      vmas := vmas[vaddr := v];
      EachMapped(vmas, pageTable, vaddr);
      return Ok;
    }

    /** The page fault handler; `frame` is the zeroed frame the allocator gives, if any.
        It halts exactly unless a user access that the region permits hits a reserved
        region; then it maps the page with the region's flags of that moment, and
        panics exactly without a frame or when the page is already present. */
    method PageFault(addr: nat, isUser: bool, isWrite: bool, frame: Option<nat>) returns (f: Fault)
      requires Sound()
      modifies this`pageTable
      ensures Sound() && (old(Valid()) ==> Valid())
      ensures var page := addr - addr % PAGE_SIZE;
              && (f.Halted? <==> !(isUser && OnDemand(vmas, addr, isWrite)))
              && (f.NoFrame? <==> isUser && OnDemand(vmas, addr, isWrite) && frame == None)
              && (f.AlreadyPresent? <==>
                    isUser && OnDemand(vmas, addr, isWrite) && frame.Some? && page in old(pageTable))
              && (!f.Mapped? ==> pageTable == old(pageTable))
              && (f.Mapped? ==>
                    && page in pageTable && pageTable - {page} == old(pageTable)
                    && forall k :: k in vmas && Contains(vmas[k], addr) ==>
                         Shows(pageTable[page], frame.value, vmas[k].flags))
    {
      hide AllMapped, AllOwned, PageIn, LastBelow, Overlaps;
      if !isUser {
        return Halted;
      }
      FindIsScan(vmas, addr);
      var found := Find(vmas, addr);
      if found == None {
        return Halted;
      }
      var v := found.value;
      if isWrite && !v.flags.write {
        return Halted;
      }
      if Backed(v) {
        return Halted;
      }
      if frame == None {
        return NoFrame;
      }
      var page := AlignDown(addr);
      if page in pageTable {
        return AlreadyPresent;
      }
      FaultTable(vmas, pageTable, v, addr, Pte(frame.value, ToPageTableFlags(v.flags)));
      pageTable := pageTable[page := Pte(frame.value, ToPageTableFlags(v.flags))];
      return Mapped;
    }
  }

  lemma EachMapped(m: map<nat, Vma>, pt: map<nat, Pte>, k: nat)
    requires AllMapped(m, pt) && k in m
    ensures RegionMapped(m[k], pt)
  {
  }

  lemma UnmapNothing(pt: map<nat, Pte>, v: Vma)
    ensures UnmappedBelow(pt, pt, v, v.vaddr)
  {
  }

  lemma UnmapFacts(m: map<nat, Vma>, pt0: map<nat, Pte>, pt: map<nat, Pte>, k: nat, va: nat)
    requires RegionsOk(m) && AllMapped(m, pt0) && k in m && PageIn(m[k], va) && UnmappedBelow(pt0, pt, m[k], va)
    ensures Backed(m[k]) ==> va in pt
    ensures va % PAGE_SIZE == 0 && m[k].vaddr <= va < End(m[k]) && m[k].vaddr % PAGE_SIZE == 0
  {
    assert RegionMapped(m[k], pt0);
  }

  lemma ProtectFacts(m: map<nat, Vma>, pt0: map<nat, Pte>, pt: map<nat, Pte>, k: nat, flags: MapFlags, va: nat)
    requires RegionsOk(m) && AllMapped(m, pt0) && k in m && Backed(m[k]) && PageIn(m[k].(flags := flags), va)
    requires MappedBelow(pt0, pt, m[k].(flags := flags), va)
    ensures va in pt && va % PAGE_SIZE == 0 && m[k].vaddr <= va < End(m[k]) && m[k].vaddr % PAGE_SIZE == 0
  {
    assert RegionMapped(m[k], pt0) && PageIn(m[k], va);
  }

  lemma WholeRegion(v: Vma)
    requires v.size % PAGE_SIZE == 0
    ensures v.vaddr + v.size / PAGE_SIZE * PAGE_SIZE == End(v)
  {
  }

  /** A faulted-in page lies in the faulting region and disturbs no mapped one. */
  lemma FaultTable(m: map<nat, Vma>, pt: map<nat, Pte>, v: Vma, addr: nat, e: Pte)
    requires RegionsOk(m) && AllMapped(m, pt) && v.vaddr in m && m[v.vaddr] == v && Contains(v, addr)
    requires AlignDown(addr) !in pt
    ensures AllMapped(m, pt[AlignDown(addr) := e])
    ensures AllOwned(m, pt) ==> AllOwned(m, pt[AlignDown(addr) := e])
  {
    var page := AlignDown(addr);
    FaultPage(v, addr);
    assert Owned(m, page);
    forall k | k in m ensures RegionMapped(m[k], pt[page := e]) {
      MappedFrame(m[k], pt, pt[page := e]);
    }
  }

  lemma FaultPage(v: Vma, addr: nat)
    requires v.vaddr % PAGE_SIZE == 0 && Contains(v, addr)
    ensures PageIn(v, AlignDown(addr))
  {
  }

  ghost predicate AbsentBelow(pt: map<nat, Pte>, v: Vma, hi: nat) {
    forall a: nat :: PageIn(v, a) && a < hi ==> a !in pt
  }

  lemma MapNothing(pt: map<nat, Pte>, v: Vma)
    requires Backed(v)
    ensures MappedBelow(pt, pt, v, v.vaddr) && AbsentBelow(pt, v, v.vaddr)
  {
  }

  lemma MapFacts(pt0: map<nat, Pte>, pt: map<nat, Pte>, v: Vma, va: nat)
    requires Backed(v) && MappedBelow(pt0, pt, v, va) && PageIn(v, va) && AbsentBelow(pt0, v, va)
    requires v.vaddr % PAGE_SIZE == 0
    ensures va in pt <==> va in pt0
    ensures va in pt0 ==> !forall a: nat :: PageIn(v, a) ==> a !in pt0
    ensures va !in pt0 ==> AbsentBelow(pt0, v, va + PAGE_SIZE)
    ensures va % PAGE_SIZE == 0 && v.vaddr <= va < End(v)
  {
    hide MappedBelow;
    MapMember(pt0, pt, v, va);
    forall a: nat | PageIn(v, a) && a < va + PAGE_SIZE ensures a < va || a == va {
      NextPage(v, va, a);
    }
  }

  lemma MapMember(pt0: map<nat, Pte>, pt: map<nat, Pte>, v: Vma, va: nat)
    requires Backed(v) && MappedBelow(pt0, pt, v, va)
    ensures va in pt <==> va in pt0
  {
  }

  lemma AllAbsent(pt: map<nat, Pte>, v: Vma)
    requires v.size % PAGE_SIZE == 0 && AbsentBelow(pt, v, v.vaddr + v.size / PAGE_SIZE * PAGE_SIZE)
    ensures forall a: nat :: PageIn(v, a) ==> a !in pt
    ensures v.vaddr + v.size / PAGE_SIZE * PAGE_SIZE == End(v)
  {
  }

  /** A region of positive size never replaces a region with pages. */
  lemma OnlyEmptyReplaces(m: map<nat, Vma>, pt: map<nat, Pte>, v: Vma)
    requires RegionsOk(m) && forall k :: k in m ==> !Overlaps(m[k], v)
    ensures v.size > 0 || v.vaddr !in m ==> !Orphans(m, pt, v)
  {
  }

  /** The i-th page of a region. */
  lemma PageAddress(v: Vma, i: nat)
    requires v.vaddr % PAGE_SIZE == 0 && i < v.size / PAGE_SIZE
    ensures PageIn(v, v.vaddr + i * PAGE_SIZE)
    ensures v.vaddr + (i + 1) * PAGE_SIZE == v.vaddr + i * PAGE_SIZE + PAGE_SIZE
  {
  }

  // Whole sequences of operations.

  datatype Op =
    | DoMap(vaddr: nat, size: nat, backing: Backing, flags: MapFlags)
    | DoUnmap(vaddr: nat)
    | DoProtect(vaddr: nat, flags: MapFlags)
    | DoFault(addr: nat, isUser: bool, isWrite: bool, frame: Option<nat>)

  /** Every region mapped in the sequence has a page. */
  predicate NoEmptyMaps(ops: seq<Op>) {
    forall i :: 0 <= i < |ops| && ops[i].DoMap? ==> ops[i].size > 0
  }

  /** After every sequence of operations on a new address space, refused ones included,
      regions do not overlap and every page of a physical or device region leads to its own
      frame with the region's flags; and no page is present without a region unless an
      empty region was mapped. */
  method Perform(ops: seq<Op>) returns (space: AddrSpace)
    ensures fresh(space) && space.Sound()
    ensures NoEmptyMaps(ops) ==> space.Valid()
  {
    space := new AddrSpace();
    for i := 0 to |ops|
      invariant fresh(space) && space.Sound()
      invariant NoEmptyMaps(ops) ==> space.Valid()
    {
      hide RegionsOk, AllMapped, AllOwned, MappedBelow, UnmappedBelow;
      match ops[i] {
        case DoMap(vaddr, size, backing, flags) => var r := space.Map(vaddr, size, backing, flags);
        case DoUnmap(vaddr) => var r := space.Unmap(vaddr);
        case DoProtect(vaddr, flags) => var r := space.Protect(vaddr, flags);
        case DoFault(addr, isUser, isWrite, frame) => var f := space.PageFault(addr, isUser, isWrite, frame);
      }
    }
  }

  /** A zero-size map at the start of a mapped region is accepted and throws the
      region away while its page stays present. */
  lemma ZeroSizeMapOrphans(flags: MapFlags)
    ensures var v := Vma(0, PAGE_SIZE, flags, Physical(0));
            var m, pt := map[0 := v], map[0 := Pte(0, ToPageTableFlags(flags))];
            var w := Vma(0, 0, flags, Reserved);
            && RegionsOk(m) && TableOk(m, pt)
            && FindOverlapping(m, w) == None
            && Orphans(m, pt, w) && !TableOk(m[0 := w], pt)
  {
    var v := Vma(0, PAGE_SIZE, flags, Physical(0));
    var m, pt := map[0 := v], map[0 := Pte(0, ToPageTableFlags(flags))];
    var w := Vma(0, 0, flags, Reserved);
    assert PageIn(m[0], 0);
    assert forall a: nat :: PageIn(v, a) ==> a == 0;
    FindOverlappingIsExact(m, w);
    MapTable(m, pt, pt, w);
  }

  /** A reserved region's present page keeps its fault-time flags: making the region
      writable and then writing to the page panics. */
  method StaleFlagsPanic(s: AddrSpace, vaddr: nat, addr: nat, flags: MapFlags, frame: nat) returns (f: Fault)
    requires s.Valid() && vaddr in s.vmas && !Backed(s.vmas[vaddr]) && Contains(s.vmas[vaddr], addr)
    requires AlignDown(addr) in s.pageTable && flags.write
    modifies s
    ensures s.Valid() && f.AlreadyPresent? && vaddr in s.vmas && s.vmas[vaddr].flags == flags
    ensures s.pageTable == old(s.pageTable)
  {
    hide AllMapped, AllOwned, Overlaps;
    var r := s.Protect(vaddr, flags);
    assert Contains(s.vmas[vaddr], addr) && !Backed(s.vmas[vaddr]);
    f := s.PageFault(addr, true, true, Some(frame));
  }
}
