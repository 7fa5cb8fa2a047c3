/** The boot-time memory map (`memblock`): three fixed arrays of regions, put
    into normal form in place. */
module MemblockTable {
  import opened Regions

  const MAX_REGIONS: nat := 64

  datatype Error = OutOfSlots | ZeroSize | Overflow | InvalidKind

  datatype Result<T> = Ok(value: T) | Err(error: Error)

  /** Drops empty regions, keeping the order; returns the new count. */
  method CompactList(arr: array<Region>, cnt: nat) returns (w: nat)
    requires cnt <= arr.Length
    modifies arr
    ensures w <= cnt && arr[..w] == NonEmpty(old(arr[..cnt]))
    ensures forall i :: w <= i < cnt ==> arr[i] == EMPTY
    ensures arr[cnt..] == old(arr[cnt..])
  {
    w := 0;
    for i := 0 to cnt
      invariant w <= i
      invariant arr[..w] == NonEmpty(old(arr[..i]))
      invariant arr[i..] == old(arr[i..])
    {
      assert old(arr[..i + 1]) == old(arr[..i]) + [old(arr[i])];
      assert arr[i] == arr[i..][0] && old(arr[i]) == old(arr[i..])[0];
      assert arr[i + 1..] == arr[i..][1..] && old(arr[i + 1..]) == old(arr[i..])[1..];
      if arr[i].size != 0 {
        if w != i {
          arr[w] := arr[i];
        }
        w := w + 1;
      }
    }
    for i := w to cnt
      invariant arr[..w] == NonEmpty(old(arr[..cnt]))
      invariant forall k :: w <= k < i ==> arr[k] == EMPTY
      invariant arr[cnt..] == old(arr[cnt..])
    {
      arr[i] := EMPTY;
    }
  }

  /** Insertion sort by base. */
  method SortByBase(arr: array<Region>, cnt: nat)
    requires cnt <= arr.Length
    modifies arr
    ensures arr[..cnt] == Sort(old(arr[..cnt])) && arr[cnt..] == old(arr[cnt..])
  {
    var i := 1;
    if cnt > 0 {
      assert old(arr[..1]) == [old(arr[0])] && Sort(old(arr[..0])) == [];
    }
    while i < cnt
      invariant cnt > 0 ==> 1 <= i <= cnt
      invariant cnt > 0 ==> arr[..i] == Sort(old(arr[..i]))
      invariant forall k :: i <= k < arr.Length ==> arr[k] == old(arr[k])
      invariant cnt == 0 ==> arr[..] == old(arr[..])
    {
      hide Insert;
      assert old(arr[..i + 1])[..i] == old(arr[..i]);
      InsertAt(arr, i);
      i := i + 1;
    }
  }

  /** The key belongs before position j of the sorted s. */
  ghost predicate KeyBefore(s: seq<Region>, key: Region, j: nat) {
    j <= |s| && Insert(s, key) == Insert(s[..j], key) + s[j..]
  }

  lemma KeyAnywhere(s: seq<Region>, key: Region)
    ensures KeyBefore(s, key, |s|)
  {
    assert s[..|s|] == s;
  }

  lemma InsertShift(s: seq<Region>, key: Region, j: nat)
    requires 0 < j && KeyBefore(s, key, j) && s[j - 1].base > key.base
    ensures KeyBefore(s, key, j - 1)
  {
    assert s[..j][..j - 1] == s[..j - 1];
    assert [s[j - 1]] + s[j..] == s[j - 1..];
  }

  lemma InsertStop(s: seq<Region>, key: Region, j: nat, t: seq<Region>)
    requires KeyBefore(s, key, j) && (j > 0 ==> s[j - 1].base <= key.base)
    requires |t| == |s| + 1 && t[j] == key
    requires forall k :: 0 <= k < j ==> t[k] == s[k]
    requires forall k :: j < k <= |s| ==> t[k] == s[k - 1]
    ensures t == Insert(s, key)
  {
    assert t == s[..j] + [key] + s[j..];
  }

  /** Moves arr[i] left to its place among the sorted arr[..i]. */
  method InsertAt(arr: array<Region>, i: nat)
    requires i < arr.Length
    modifies arr
    ensures arr[..i + 1] == Insert(old(arr[..i]), old(arr[i]))
    ensures forall k :: i < k < arr.Length ==> arr[k] == old(arr[k])
  {
    hide Insert, KeyBefore;
    var key := arr[i];
    var j := i;
    ghost var s := arr[..i];
    KeyAnywhere(s, key);
    while j > 0 && arr[j - 1].base > key.base
      invariant 0 <= j <= i && KeyBefore(s, key, j)
      invariant forall k :: 0 <= k < j ==> arr[k] == s[k]
      invariant forall k :: j < k <= i ==> arr[k] == s[k - 1]
      invariant forall k :: i < k < arr.Length ==> arr[k] == old(arr[k])
    {
      InsertShift(s, key, j);
      arr[j] := arr[j - 1];
      j := j - 1;
    }
    arr[j] := key;
    InsertStop(s, key, j, arr[..i + 1]);
  }

  /** Merges neighbours of one kind that touch or overlap; returns the new count. */
  method MergeOverlapsSameKind(arr: array<Region>, cnt: nat) returns (w: nat)
    requires cnt <= arr.Length
    requires forall i :: 0 <= i < cnt ==> Regions.Sized(arr[i])
    modifies arr
    ensures w <= cnt && arr[..w] == Merge(old(arr[..cnt]))
    ensures forall i :: w <= i < cnt ==> arr[i] == EMPTY
    ensures arr[cnt..] == old(arr[cnt..])
  {
    if cnt == 0 {
      return 0;
    }
    ghost var s := arr[..cnt];
    w := 0;
    var cur := arr[0];
    for i := 1 to cnt
      invariant w < i
      invariant arr[i..] == old(arr[i..])
      invariant Merge(s) == arr[..w] + MergeFrom(cur, s[i..])
    {
      var r := arr[i];
      assert r == arr[i..][0] == old(arr[i..])[0] == s[i] && s[i..][0] == s[i] && s[i..][1..] == s[i + 1..];
      assert arr[i + 1..] == arr[i..][1..] && old(arr[i + 1..]) == old(arr[i..])[1..];
      if r.kind == cur.kind && r.base <= End(cur) {
        cur := Grown(cur, r);
      } else {
        MergeKeeps(arr[..w], cur, s[i..]);
        arr[w] := cur;
        w := w + 1;
        assert arr[..w] == arr[..w - 1] + [cur];
        cur := r;
      }
    }
    arr[w] := cur;
    w := w + 1;
    assert arr[..w] == arr[..w - 1] + [cur] && s[cnt..] == [];
    for i := w to cnt
      invariant arr[..w] == Merge(s)
      invariant forall k :: w <= k < i ==> arr[k] == EMPTY
      invariant arr[cnt..] == old(arr[cnt..])
    {
      arr[i] := EMPTY;
    }
  }

  lemma MergeKeeps(done: seq<Region>, cur: Region, rest: seq<Region>)
    requires rest != [] && !(rest[0].kind == cur.kind && rest[0].base <= End(cur))
    ensures done + MergeFrom(cur, rest) == (done + [cur]) + MergeFrom(rest[0], rest[1..])
  {
  }

  /** Skipping a reserved region that ends at or before cur changes nothing. */
  lemma SkipBehind(cur: nat, mend: nat, res: seq<Region>)
    requires res != [] && Regions.Sized(res[0]) && End(res[0]) <= cur < mend
    ensures Cut(cur, mend, res) == Cut(cur, mend, res[1..])
  {
  }

  /** One more reserved region taken out of [cur, mend). */
  lemma CutStep(done: seq<Region>, cur: nat, mend: nat, res: seq<Region>)
    requires res != [] && res[0].base < mend
    ensures var next := Max(cur, End(res[0]));
            done + Cut(cur, mend, res) ==
            (done + Piece(cur, res[0].base)) + if next >= mend then [] else Cut(next, mend, res[1..])
  {
  }

  /** Appends the stretch [lo, hi), if non-empty, to the first cnt entries. */
  method Emit(out: array<Region>, cnt: nat, lo: nat, hi: nat) returns (r: Result<nat>)
    requires cnt <= out.Length == MAX_REGIONS
    modifies out
    ensures r == (if cnt + |Piece(lo, hi)| > MAX_REGIONS then Err(OutOfSlots) else Ok(cnt + |Piece(lo, hi)|))
    ensures r.Ok? ==> out[..r.value] == old(out[..cnt]) + Piece(lo, hi)
  {
    if hi > lo {
      if cnt >= MAX_REGIONS {
        return Err(OutOfSlots);
      }
      out[cnt] := Region(lo, hi - lo, Usable);
      return Ok(cnt + 1);
    }
    return Ok(cnt);
  }

  /** Appends what is left of one memory region to the first cnt entries of out. */
  method CutInto(m: Region, reserved: array<Region>, resCnt: nat, out: array<Region>, cnt: nat) returns (r: Result<nat>)
    requires resCnt <= reserved.Length && cnt <= out.Length == MAX_REGIONS && out != reserved
    requires AllSized(reserved[..resCnt]) && m.base < End(m)
    modifies out
    ensures var want := old(out[..cnt]) + Cut(m.base, End(m), reserved[..resCnt]);
            if |want| <= MAX_REGIONS then r == Ok(|want|) && out[..|want|] == want else r == Err(OutOfSlots)
  {
    hide Cut;
    var cur: nat, mend: nat, ri: nat, n: nat := m.base, End(m), 0, cnt;
    ghost var res := reserved[..resCnt];
    ghost var want := out[..cnt] + Cut(m.base, mend, res);
    assert res[0..] == res;
    while ri < resCnt && End(reserved[ri]) <= cur
      invariant ri <= resCnt && reserved[..resCnt] == res && out[..] == old(out[..])
      invariant Cut(cur, mend, res) == Cut(cur, mend, res[ri..])
    {
      assert reserved[ri] == res[ri] && res[ri] in res && res[ri..][1..] == res[ri + 1..];
      SkipBehind(cur, mend, res[ri..]);
      ri := ri + 1;
    }
    while ri < resCnt
      invariant ri <= resCnt && n <= MAX_REGIONS && cur < mend && reserved[..resCnt] == res
      invariant want == out[..n] + Cut(cur, mend, res[ri..])
    {
      assert reserved[ri] == res[ri] && res[ri..][0] == res[ri] && res[ri..][1..] == res[ri + 1..];
      if reserved[ri].base >= mend {
        break;
      }
      CutStep(out[..n], cur, mend, res[ri..]);
      var e := Emit(out, n, cur, reserved[ri].base);
      if e.Err? {
        return e;
      }
      n := e.value;
      cur := Max(cur, End(reserved[ri]));
      if cur >= mend {
        return Ok(n);
      }
      ri := ri + 1;
    }
    CutLast(cur, mend, res[ri..]);
    r := Emit(out, n, cur, mend);
  }

  lemma CutLast(cur: nat, mend: nat, res: seq<Region>)
    requires res == [] || res[0].base >= mend
    ensures Cut(cur, mend, res) == Piece(cur, mend)
  {
  }

  lemma {:induction false} SubtractPrefix(mem: seq<Region>, res: seq<Region>, k: nat)
    requires k <= |mem|
    ensures |Subtract(mem[..k], res)| <= |Subtract(mem, res)|
    decreases |mem| - k
  {
    if k < |mem| {
      SubtractPrefix(mem, res, k + 1);
      assert mem[..k + 1][..k] == mem[..k];
    } else {
      assert mem[..k] == mem;
    }
  }

  /** Takes the reserved regions out of every memory region. Fails exactly when
      the pieces do not fit the table. */
  method SubtractReserved(memory: array<Region>, memCnt: nat, reserved: array<Region>, resCnt: nat, out: array<Region>)
    returns (r: Result<nat>)
    requires memCnt <= memory.Length && resCnt <= reserved.Length && out.Length == MAX_REGIONS
    requires out != memory && out != reserved
    requires AllSized(reserved[..resCnt])
    requires forall i :: 0 <= i < memCnt ==> memory[i].base < End(memory[i])
    modifies out
    ensures var want := Subtract(memory[..memCnt], reserved[..resCnt]);
            if |want| <= MAX_REGIONS then r == Ok(|want|) && out[..|want|] == want else r == Err(OutOfSlots)
  {
    hide Cut;
    ghost var mem, res := memory[..memCnt], reserved[..resCnt];
    var n: nat := 0;
    for mi := 0 to memCnt
      invariant n <= MAX_REGIONS && memory[..memCnt] == mem && reserved[..resCnt] == res
      invariant out[..n] == Subtract(mem[..mi], res)
    {
      assert mem[..mi + 1][..mi] == mem[..mi] && memory[mi] == mem[mi];
      SubtractPrefix(mem, res, mi + 1);
      var e := CutInto(memory[mi], reserved, resCnt, out, n);
      if e.Err? {
        return e;
      }
      n := e.value;
    }
    assert mem[..memCnt] == mem;
    return Ok(n);
  }

  /** Compacts, sorts and merges the first cnt entries; returns the new count. */
  method Prepare(arr: array<Region>, cnt: nat) returns (w: nat)
    requires cnt <= arr.Length && AllSized(arr[..cnt])
    modifies arr
    ensures w <= cnt && arr[..w] == Prepared(old(arr[..cnt]))
  {
    hide *;
    ghost var s := arr[..cnt];
    w := CompactList(arr, cnt);
    ghost var n := arr[..w];
    SortByBase(arr, w);
    PreparedSteps(s);
    assert forall i :: 0 <= i < w ==> arr[..w][i] == arr[i] && arr[i] in arr[..w];
    w := MergeOverlapsSameKind(arr, w);
  }

  lemma PreparedSteps(s: seq<Region>)
    requires AllSized(s)
    ensures Prepared(s) == Merge(Sort(NonEmpty(s)))
    ensures forall r :: r in Sort(NonEmpty(s)) ==> Regions.Sized(r)
  {
    NonEmptyElements(s);
    SortIsSorted(NonEmpty(s));
  }

  /** The three region lists: memory as added, memory as it is now, and reservations. */
  datatype Lists = Lists(raw: seq<Region>, mem: seq<Region>, res: seq<Region>)

  class Memblock {
    var memory: array<Region>
    var memCnt: nat
    var reserved: array<Region>
    var resCnt: nat
    var rawMemory: array<Region>
    var rawCnt: nat

    ghost predicate Valid()
      reads this, memory, reserved, rawMemory
    {
      && memory.Length == reserved.Length == rawMemory.Length == MAX_REGIONS
      && memory != reserved && memory != rawMemory && reserved != rawMemory
      && memCnt <= MAX_REGIONS && resCnt <= MAX_REGIONS && rawCnt <= MAX_REGIONS
      && AllSized(Mem()) && AllUsable(Mem()) && AllSized(Res()) && AllSized(Raw())
      && Rooted(Mem(), Raw())
    }

    ghost function Mem(): seq<Region>
      requires memCnt <= memory.Length
      reads this, memory
    {
      memory[..memCnt]
    }

    ghost function Res(): seq<Region>
      requires resCnt <= reserved.Length
      reads this, reserved
    {
      reserved[..resCnt]
    }

    ghost function Raw(): seq<Region>
      requires rawCnt <= rawMemory.Length
      reads this, rawMemory
    {
      rawMemory[..rawCnt]
    }

    ghost function View(): Lists
      requires Valid()
      reads this, memory, reserved, rawMemory
    {
      Lists(Raw(), Mem(), Res())
    }

    constructor ()
      ensures Valid() && Mem() == Res() == Raw() == []
      ensures fresh(memory) && fresh(reserved) && fresh(rawMemory)
    {
      memory := new Region[MAX_REGIONS](_ => EMPTY);
      reserved := new Region[MAX_REGIONS](_ => EMPTY);
      rawMemory := new Region[MAX_REGIONS](_ => EMPTY);
      memCnt, resCnt, rawCnt := 0, 0, 0;
    }

    method AddMemory(base: nat, size: nat) returns (r: Result<()>)
      requires Valid()
      modifies this, memory, rawMemory
      ensures Valid() && memory == old(memory) && reserved == old(reserved) && rawMemory == old(rawMemory)
      ensures Res() == old(Res())
      ensures r == (if size == 0 then Err(ZeroSize) else if base + size > U64_MAX then Err(Overflow)
                    else if old(memCnt) >= MAX_REGIONS || old(rawCnt) >= MAX_REGIONS then Err(OutOfSlots) else Ok(()))
      ensures r.Ok? ==> Mem() == old(Mem()) + [Region(base, size, Usable)]
      ensures r.Ok? ==> Raw() == old(Raw()) + [Region(base, size, Usable)]
      ensures r.Err? ==> Mem() == old(Mem()) && Raw() == old(Raw())
    {
      if size == 0 {
        return Err(ZeroSize);
      }
      if base + size > U64_MAX {
        return Err(Overflow);
      }
      if memCnt >= MAX_REGIONS {
        return Err(OutOfSlots);
      }
      if rawCnt >= MAX_REGIONS {
        return Err(OutOfSlots);
      }
      var region := Region(base, size, Usable);
      memory[memCnt] := region;
      memCnt := memCnt + 1;
      rawMemory[rawCnt] := region;
      rawCnt := rawCnt + 1;
      RootedAdd(old(Mem()), old(Raw()), region);
      assert Mem() == old(Mem()) + [region] && Raw() == old(Raw()) + [region];
      return Ok(());
    }

    method AddReserved(base: nat, size: nat, kind: Kind) returns (r: Result<()>)
      requires Valid()
      modifies this, reserved
      ensures Valid() && memory == old(memory) && reserved == old(reserved) && rawMemory == old(rawMemory)
      ensures Mem() == old(Mem()) && Raw() == old(Raw())
      ensures r == (if kind == Usable then Err(InvalidKind) else if size == 0 then Err(ZeroSize)
                    else if base + size > U64_MAX then Err(Overflow)
                    else if old(resCnt) >= MAX_REGIONS then Err(OutOfSlots) else Ok(()))
      ensures Res() == old(Res()) + if r.Ok? then [Region(base, size, kind)] else []
    {
      if kind == Usable {
        return Err(InvalidKind);
      }
      if size == 0 {
        return Err(ZeroSize);
      }
      if base + size > U64_MAX {
        return Err(Overflow);
      }
      if resCnt >= MAX_REGIONS {
        return Err(OutOfSlots);
      }
      reserved[resCnt] := Region(base, size, kind);
      resCnt := resCnt + 1;
      assert Res() == old(Res()) + [Region(base, size, kind)];
      return Ok(());
    }

    /** Sorts and merges all three lists. */
    method PrepareLists()
      requires Valid()
      modifies this, memory, reserved, rawMemory
      ensures memory == old(memory) && reserved == old(reserved) && rawMemory == old(rawMemory)
      ensures memCnt <= MAX_REGIONS && resCnt <= MAX_REGIONS && rawCnt <= MAX_REGIONS
      ensures Mem() == Prepared(old(Mem())) && Res() == Prepared(old(Res())) && Raw() == Prepared(old(Raw()))
    {
      hide AllSized, AllUsable, Rooted, Prepared;
      rawCnt := Prepare(rawMemory, rawCnt);
      memCnt := Prepare(memory, memCnt);
      resCnt := Prepare(reserved, resCnt);
    }

    /** Sorts and merges all three lists and takes the reserved bytes out of the
        memory list. Fails exactly when no list of at most 64 regions covers what
        is left; the memory list then still covers the bytes it did. */
    method Normalize() returns (r: Result<()>)
      requires Valid()
      modifies this, memory, reserved, rawMemory
      ensures Valid() && reserved == old(reserved) && rawMemory == old(rawMemory)
      ensures memory == old(memory) || fresh(memory)
      ensures Res() == Prepared(old(Res())) && Raw() == Prepared(old(Raw()))
      ensures r == (if |Normal(old(Mem()), old(Res()))| <= MAX_REGIONS then Ok(()) else Err(OutOfSlots))
      ensures Mem() == if r.Ok? then Normal(old(Mem()), old(Res())) else Prepared(old(Mem()))
    {
      hide AllSized, AllUsable, Rooted, Prepared, Normal, Subtract, NonEmpty, End;
      ghost var m0, s0, w0 := Mem(), Res(), Raw();
      PreparedFacts(m0);
      PreparedFacts(s0);
      PreparedFacts(w0);
      NormalFacts(m0, s0);
      RootedNormal(m0, s0, w0);
      PrepareLists();
      var newMemory := new Region[MAX_REGIONS](_ => EMPTY);
      assert forall i :: 0 <= i < memCnt ==> memory[i] == Mem()[i] && Mem()[i] in Mem();
      var e := SubtractReserved(memory, memCnt, reserved, resCnt, newMemory);
      if e.Err? {
        return Err(e.error);
      }
      memory, memCnt := newMemory, e.value;
      memCnt := CompactList(memory, memCnt);
      return Ok(());
    }

    /** `max_phys_addr`: one past the last byte of memory that was ever added. */
    method MaxPhysAddr() returns (max: nat)
      requires Valid()
      ensures max == MaxEnd(Raw()) <= U64_MAX && MemoryEnd(Raw(), max)
    {
      ghost var raw := Raw();
      MaxEndIsEnd(raw);
      max := 0;
      var k := 0;
      while k < rawCnt
        invariant k <= rawCnt && max == MaxEnd(raw[..k])
      {
        assert raw[..k + 1][..k] == raw[..k];
        if End(rawMemory[k]) > max {
          max := End(rawMemory[k]);
        }
        k := k + 1;
      }
      assert raw[..k] == raw;
    }
  }

  function MaxEnd(raw: seq<Region>): nat {
    if raw == [] then 0 else Max(End(raw[|raw| - 1]), MaxEnd(raw[..|raw| - 1]))
  }

  /** max is one past the last byte covered, or 0 when none is. */
  ghost predicate MemoryEnd(raw: seq<Region>, max: nat) {
    && (forall x: nat :: Covers(raw, x) ==> x < max)
    && (max == 0 || Covers(raw, max - 1))
  }

  lemma {:induction false} MaxEndIsEnd(raw: seq<Region>)
    requires AllNonEmpty(raw) && AllSized(raw)
    ensures MemoryEnd(raw, MaxEnd(raw)) && MaxEnd(raw) <= U64_MAX
  {
    if raw != [] {
      var k := |raw| - 1;
      MaxEndIsEnd(raw[..k]);
      MemoryEndStep(raw[..k], MaxEnd(raw[..k]), raw[k]);
      assert raw == raw[..k] + [raw[k]];
    }
  }

  /** What the memory ends with depends on the bytes covered only. */
  lemma MaxEndByCover(raw: seq<Region>, raw': seq<Region>)
    requires AllNonEmpty(raw) && AllSized(raw) && AllNonEmpty(raw') && AllSized(raw')
    requires forall x: nat :: Covers(raw, x) <==> Covers(raw', x)
    ensures MaxEnd(raw) == MaxEnd(raw')
  {
    MaxEndIsEnd(raw);
    MaxEndIsEnd(raw');
  }

  lemma MemoryEndStep(raw: seq<Region>, max: nat, r: Region)
    requires MemoryEnd(raw, max) && r.size > 0 && Sized(r)
    ensures MemoryEnd(raw + [r], if End(r) > max then End(r) else max)
  {
    forall x: nat ensures Covers(raw + [r], x) <==> Covers(raw, x) || Inside(r, x) {
      CoversConcat(raw, [r], x);
    }
  }

  /** All memory listed is memory that was added, and no empty region was. */
  ghost predicate Rooted(mem: seq<Region>, raw: seq<Region>) {
    AllNonEmpty(raw) && forall x: nat :: Covers(mem, x) ==> Covers(raw, x)
  }

  lemma RootedAdd(mem: seq<Region>, raw: seq<Region>, r: Region)
    requires Rooted(mem, raw) && r.size > 0
    ensures Rooted(mem + [r], raw + [r])
  {
    forall x: nat | Covers(mem + [r], x) ensures Covers(raw + [r], x) {
      CoversConcat(mem, [r], x);
      CoversConcat(raw, [r], x);
    }
  }

  lemma RootedNormal(mem: seq<Region>, res: seq<Region>, raw: seq<Region>)
    requires AllSized(mem) && AllUsable(mem) && AllSized(res) && AllSized(raw) && Rooted(mem, raw)
    ensures Rooted(Normal(mem, res), Prepared(raw)) && Rooted(Prepared(mem), Prepared(raw))
  {
    NormalIsDifference(mem, res);
    PreparedFacts(raw);
    forall x: nat ensures Covers(Prepared(mem), x) <==> Covers(mem, x) {
      PreparedCovers(mem, x);
    }
    forall x: nat ensures Covers(Prepared(raw), x) <==> Covers(raw, x) {
      PreparedCovers(raw, x);
    }
    forall r | r in Prepared(raw) ensures r.size > 0 {
      assert r.base < End(r);
    }
  }

  lemma PreparedFacts(s: seq<Region>)
    requires AllSized(s)
    ensures AllSized(Prepared(s)) && |Prepared(s)| <= |s|
    ensures forall r :: r in Prepared(s) ==> r.base < End(r)
    ensures AllUsable(s) ==> AllUsable(Prepared(s))
  {
    PreparedShape(s);
    if AllUsable(s) {
      CanonicalRegions(Prepared(s));
    }
  }

  lemma NormalFacts(mem: seq<Region>, res: seq<Region>)
    requires AllSized(mem) && AllUsable(mem) && AllSized(res)
    ensures Normal(mem, res) == Subtract(Prepared(mem), Prepared(res))
    ensures AllSized(Normal(mem, res)) && AllUsable(Normal(mem, res))
    ensures NonEmpty(Normal(mem, res)) == Normal(mem, res)
  {
    NormalIsDifference(mem, res);
    CanonicalRegions(Normal(mem, res));
    NonEmptyStays(Normal(mem, res));
  }

  lemma {:induction false} NonEmptyStays(s: seq<Region>)
    requires AllNonEmpty(s)
    ensures NonEmpty(s) == s
    decreases |s|
  {
    if s != [] {
      var k := |s| - 1;
      assert s[k] in s && forall r :: r in s[..k] ==> r in s;
      NonEmptyStays(s[..k]);
      assert s == s[..k] + [s[k]];
    }
  }

  /** What a caller gets from a normalization: exactly the memory bytes that are
      not reserved, as the shortest list there is, or an error exactly when even
      the shortest list is too long for the table. */
  lemma NormalizeMeaning(mem: seq<Region>, res: seq<Region>, other: seq<Region>)
    requires AllSized(mem) && AllUsable(mem) && AllSized(res)
    requires forall x: nat :: Covers(other, x) <==> Covers(mem, x) && !Covers(res, x)
    ensures Canonical(Normal(mem, res))
    ensures forall x: nat :: Covers(Normal(mem, res), x) <==> Covers(mem, x) && !Covers(res, x)
    ensures |Normal(mem, res)| > MAX_REGIONS ==> |other| > MAX_REGIONS
    ensures forall x: nat :: Covers(Prepared(mem), x) <==> Covers(mem, x)
  {
    NormalIsDifference(mem, res);
    CanonicalIsShortest(Normal(mem, res), other);
    forall x: nat ensures Covers(Prepared(mem), x) <==> Covers(mem, x) {
      PreparedCovers(mem, x);
    }
  }
}
