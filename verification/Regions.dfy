/** Lists of physical memory regions: what bytes they cover, and the pure
    functions that the in-place passes of `memblock` compute. */
module Regions {
  const U64_MAX: nat := 0xFFFF_FFFF_FFFF_FFFF

  datatype Kind = Usable | Reserved | AcpiReclaim | BootloaderReclaimable

  datatype Region = Region(base: nat, size: nat, kind: Kind)

  const EMPTY: Region := Region(0, 0, Reserved)

  /** `end`, a saturating 64-bit sum. */
  function End(r: Region): nat {
    if r.base + r.size > U64_MAX then U64_MAX else r.base + r.size
  }

  predicate Inside(r: Region, x: nat) {
    r.base <= x < End(r)
  }

  predicate Covers(s: seq<Region>, x: nat) {
    s != [] && (Inside(s[0], x) || Covers(s[1..], x))
  }

  /** Regions whose end is representable, as `add_memory` and `add_reserved` admit. */
  predicate Sized(r: Region) {
    r.base + r.size <= U64_MAX
  }

  ghost predicate AllSized(s: seq<Region>) {
    forall r :: r in s ==> Sized(r)
  }

  ghost predicate AllNonEmpty(s: seq<Region>) {
    forall r :: r in s ==> r.size > 0
  }

  ghost predicate AllUsable(s: seq<Region>) {
    forall r :: r in s ==> r.kind == Usable
  }

  ghost predicate Sorted(s: seq<Region>) {
    forall i, j :: 0 <= i < j < |s| ==> s[i].base <= s[j].base
  }

  /** Usable, non-empty, in order and with a gap between any two neighbours. */
  predicate Canonical(s: seq<Region>) {
    s == [] ||
    (s[0].size > 0 && Sized(s[0]) && s[0].kind == Usable && (|s| > 1 ==> End(s[0]) < s[1].base) && Canonical(s[1..]))
  }

  /** The bytes covered are those of the regions, each from its base on for its size. */
  lemma {:induction false} CoversMeans(s: seq<Region>, x: nat)
    requires AllSized(s)
    ensures Covers(s, x) <==> exists i :: 0 <= i < |s| && s[i].base <= x < s[i].base + s[i].size
  {
    if s != [] {
      CoversMeans(s[1..], x);
      assert forall i :: 0 < i < |s| ==> s[i] == s[1..][i - 1];
      assert s[0] in s;
    }
  }

  lemma {:induction false} CoversConcat(s: seq<Region>, t: seq<Region>, x: nat)
    ensures Covers(s + t, x) <==> Covers(s, x) || Covers(t, x)
  {
    if s == [] {
      assert s + t == t;
    } else {
      CoversConcat(s[1..], t, x);
      assert (s + t)[1..] == s[1..] + t;
    }
  }

  // compact_list

  function NonEmpty(s: seq<Region>): seq<Region> {
    if s == [] then []
    else
      var last := s[|s| - 1];
      NonEmpty(s[..|s| - 1]) + if last.size == 0 then [] else [last]
  }

  lemma {:induction false} NonEmptyElements(s: seq<Region>)
    ensures forall r :: r in NonEmpty(s) <==> r in s && r.size > 0
    ensures |NonEmpty(s)| <= |s|
  {
    if s != [] {
      NonEmptyElements(s[..|s| - 1]);
      assert s == s[..|s| - 1] + [s[|s| - 1]];
    }
  }

  lemma {:induction false} NonEmptyCovers(s: seq<Region>, x: nat)
    requires AllSized(s)
    ensures Covers(NonEmpty(s), x) <==> Covers(s, x)
  {
    if s != [] {
      var k := |s| - 1;
      NonEmptyCovers(s[..k], x);
      assert s == s[..k] + [s[k]];
      CoversConcat(s[..k], [s[k]], x);
      CoversConcat(NonEmpty(s[..k]), [s[k]], x);
      assert s[k] in s;
      assert Covers([s[k]], x) <==> Inside(s[k], x);
      assert NonEmpty(s[..k]) + [] == NonEmpty(s[..k]);
    }
  }

  // sort_by_base

  /** x put after every element whose base is not larger. */
  function Insert(s: seq<Region>, x: Region): seq<Region> {
    if s == [] || s[|s| - 1].base <= x.base then s + [x]
    else Insert(s[..|s| - 1], x) + [s[|s| - 1]]
  }

  function Sort(s: seq<Region>): seq<Region> {
    if s == [] then [] else Insert(Sort(s[..|s| - 1]), s[|s| - 1])
  }

  lemma {:induction false} InsertElements(s: seq<Region>, x: Region)
    ensures multiset(Insert(s, x)) == multiset(s) + multiset{x}
    ensures forall r :: r in Insert(s, x) <==> r in s || r == x
    ensures |Insert(s, x)| == |s| + 1
  {
    if s != [] && s[|s| - 1].base > x.base {
      var k := |s| - 1;
      InsertElements(s[..k], x);
      assert s == s[..k] + [s[k]];
    }
  }

  lemma {:induction false} InsertSorted(s: seq<Region>, x: Region)
    requires Sorted(s)
    ensures Sorted(Insert(s, x))
  {
    if s != [] && s[|s| - 1].base > x.base {
      var k := |s| - 1;
      InsertSorted(s[..k], x);
      var t := Insert(s[..k], x);
      forall i | 0 <= i < |t| ensures t[i].base <= s[k].base {
        InsertElement(s[..k], x, i);
      }
    }
  }

  lemma InsertElement(s: seq<Region>, x: Region, i: nat)
    requires i < |Insert(s, x)|
    ensures Insert(s, x)[i] == x || Insert(s, x)[i] in s
  {
    InsertElements(s, x);
    assert Insert(s, x)[i] in Insert(s, x);
  }

  lemma {:induction false} InsertCovers(s: seq<Region>, x: Region, y: nat)
    ensures Covers(Insert(s, x), y) <==> Covers(s, y) || Inside(x, y)
  {
    assert Covers([x], y) <==> Inside(x, y);
    if s == [] || s[|s| - 1].base <= x.base {
      CoversConcat(s, [x], y);
    } else {
      var k := |s| - 1;
      InsertCovers(s[..k], x, y);
      assert s == s[..k] + [s[k]];
      CoversConcat(s[..k], [s[k]], y);
      CoversConcat(Insert(s[..k], x), [s[k]], y);
    }
  }

  /** The sorted list is a permutation in order of base. */
  lemma {:induction false} SortIsSorted(s: seq<Region>)
    ensures Sorted(Sort(s)) && multiset(Sort(s)) == multiset(s) && |Sort(s)| == |s|
    ensures forall r :: r in Sort(s) <==> r in s
  {
    if s != [] {
      var k := |s| - 1;
      SortIsSorted(s[..k]);
      InsertSorted(Sort(s[..k]), s[k]);
      InsertElements(Sort(s[..k]), s[k]);
      assert s == s[..k] + [s[k]];
    }
  }

  lemma {:induction false} SortCovers(s: seq<Region>, x: nat)
    ensures Covers(Sort(s), x) <==> Covers(s, x)
  {
    if s != [] {
      var k := |s| - 1;
      SortCovers(s[..k], x);
      InsertCovers(Sort(s[..k]), s[k], x);
      assert s == s[..k] + [s[k]];
      CoversConcat(s[..k], [s[k]], x);
      assert Covers([s[k]], x) <==> Inside(s[k], x);
    }
  }

  // merge_overlaps_same_kind

  /** cur grown to reach the end of r. */
  function Grown(cur: Region, r: Region): Region {
    var newEnd := if End(cur) > End(r) then End(cur) else End(r);
    if newEnd >= cur.base then cur.(size := newEnd - cur.base) else cur
  }

  function MergeFrom(cur: Region, s: seq<Region>): seq<Region>
    decreases |s|
  {
    if s == [] then [cur]
    else if s[0].kind == cur.kind && s[0].base <= End(cur) then MergeFrom(Grown(cur, s[0]), s[1..])
    else [cur] + MergeFrom(s[0], s[1..])
  }

  function Merge(s: seq<Region>): seq<Region> {
    if s == [] then [] else MergeFrom(s[0], s[1..])
  }

  /** What merging needs of the region in hand and the rest of the list. */
  ghost predicate Mergeable(cur: Region, s: seq<Region>) {
    && Sized(cur) && cur.size > 0 && AllSized(s) && AllNonEmpty(s) && Sorted(s)
    && (s != [] ==> cur.base <= s[0].base)
  }

  lemma MergeableStep(cur: Region, s: seq<Region>)
    requires Mergeable(cur, s) && s != []
    ensures Mergeable(s[0], s[1..]) && Mergeable(Grown(cur, s[0]), s[1..])
    ensures Grown(cur, s[0]).base == cur.base && Grown(cur, s[0]).kind == cur.kind
    ensures s[0].base <= End(cur) ==>
              forall x: nat :: Inside(Grown(cur, s[0]), x) <==> Inside(cur, x) || Inside(s[0], x)
  {
    assert s[0] in s;
    assert forall r :: r in s[1..] ==> r in s;
    if |s| > 1 {
      assert s[1..][0] == s[1];
    }
  }

  lemma {:induction false} MergeFromCovers(cur: Region, s: seq<Region>, x: nat)
    requires Mergeable(cur, s)
    ensures Covers(MergeFrom(cur, s), x) <==> Inside(cur, x) || Covers(s, x)
    decreases |s|
  {
    if s != [] {
      MergeableStep(cur, s);
      if s[0].kind == cur.kind && s[0].base <= End(cur) {
        MergeFromCovers(Grown(cur, s[0]), s[1..], x);
      } else {
        MergeFromCovers(s[0], s[1..], x);
        assert ([cur] + MergeFrom(s[0], s[1..]))[1..] == MergeFrom(s[0], s[1..]);
      }
    }
  }

  /** Merging keeps order, sizes and at most the number of regions, and starts where it did. */
  lemma {:induction false} MergeFromShape(cur: Region, s: seq<Region>)
    requires Mergeable(cur, s)
    ensures var m := MergeFrom(cur, s);
            && m != [] && |m| <= |s| + 1 && m[0].base == cur.base && m[0].kind == cur.kind
            && Sorted(m) && AllSized(m) && AllNonEmpty(m)
    decreases |s|
  {
    if s != [] {
      MergeableStep(cur, s);
      if s[0].kind == cur.kind && s[0].base <= End(cur) {
        MergeFromShape(Grown(cur, s[0]), s[1..]);
      } else {
        MergeFromShape(s[0], s[1..]);
      }
    }
  }

  /** Among usable regions merging leaves a gap between any two. */
  lemma {:induction false} MergeFromCanonical(cur: Region, s: seq<Region>)
    requires Mergeable(cur, s) && cur.kind == Usable && AllUsable(s)
    ensures Canonical(MergeFrom(cur, s))
    decreases |s|
  {
    if s != [] {
      MergeableStep(cur, s);
      assert s[0] in s && forall r :: r in s[1..] ==> r in s;
      if s[0].base <= End(cur) {
        MergeFromCanonical(Grown(cur, s[0]), s[1..]);
      } else {
        MergeFromCanonical(s[0], s[1..]);
        MergeFromShape(s[0], s[1..]);
        assert ([cur] + MergeFrom(s[0], s[1..]))[1..] == MergeFrom(s[0], s[1..]);
      }
    }
  }

  // subtract_reserved

  /** The stretch [lo, hi) as a usable region, if there is one. */
  function Piece(lo: nat, hi: nat): seq<Region> {
    if lo < hi then [Region(lo, hi - lo, Usable)] else []
  }

  function Max(a: nat, b: nat): nat { if a > b then a else b }

  /** What is left of [cur, mend) after taking out the reserved regions. */
  function Cut(cur: nat, mend: nat, res: seq<Region>): seq<Region>
    decreases |res|
  {
    if res == [] || res[0].base >= mend then Piece(cur, mend)
    else
      var next := Max(cur, End(res[0]));
      Piece(cur, res[0].base) + if next >= mend then [] else Cut(next, mend, res[1..])
  }

  function Subtract(mem: seq<Region>, res: seq<Region>): seq<Region> {
    if mem == [] then []
    else
      var m := mem[|mem| - 1];
      Subtract(mem[..|mem| - 1], res) + Cut(m.base, End(m), res)
  }

  ghost predicate GoodReserved(res: seq<Region>) {
    Sorted(res) && AllSized(res) && AllNonEmpty(res)
  }

  lemma GoodTail(res: seq<Region>)
    requires GoodReserved(res) && res != []
    ensures GoodReserved(res[1..]) && Sized(res[0]) && res[0].size > 0
  {
    assert res[0] in res && forall r :: r in res[1..] ==> r in res;
  }

  /** Past a reserved region that starts at or after hi, nothing below hi is reserved. */
  lemma {:induction false} NoneBelow(res: seq<Region>, hi: nat, x: nat)
    requires Sorted(res) && (res == [] || res[0].base >= hi) && x < hi
    ensures !Covers(res, x)
    decreases |res|
  {
    if |res| > 1 {
      NoneBelow(res[1..], hi, x);
    }
  }

  lemma {:induction false} CutCovers(cur: nat, mend: nat, res: seq<Region>, x: nat)
    requires GoodReserved(res) && mend <= U64_MAX
    ensures Covers(Cut(cur, mend, res), x) <==> cur <= x < mend && !Covers(res, x)
    decreases |res|
  {
    if res == [] || res[0].base >= mend {
      if x < mend {
        NoneBelow(res, mend, x);
      }
    } else {
      GoodTail(res);
      var next := Max(cur, End(res[0]));
      var rest := if next >= mend then [] else Cut(next, mend, res[1..]);
      CoversConcat(Piece(cur, res[0].base), rest, x);
      if next < mend {
        CutCovers(next, mend, res[1..], x);
      }
      if x < res[0].base {
        NoneBelow(res, res[0].base, x);
      }
    }
  }

  /** A canonical list no part of which lies below lo or above hi. */
  ghost predicate CanonicalWithin(s: seq<Region>, lo: nat, hi: nat) {
    Canonical(s) && forall r :: r in s ==> lo <= r.base && r.base + r.size <= hi
  }

  lemma {:induction false} CanonicalConcat(s: seq<Region>, t: seq<Region>, lo: nat, mid: nat, hi: nat)
    requires CanonicalWithin(s, lo, mid) && CanonicalWithin(t, mid + 1, hi) && lo <= mid <= hi
    ensures CanonicalWithin(s + t, lo, hi)
    decreases |s|
  {
    if s == [] {
      assert s + t == t;
    } else {
      assert s[0] in s && forall r :: r in s[1..] ==> r in s;
      CanonicalConcat(s[1..], t, lo, mid, hi);
      assert (s + t)[1..] == s[1..] + t;
      if |s| == 1 && t != [] {
        assert t[0] in t;
      }
    }
  }

  lemma {:induction false} CutCanonical(cur: nat, mend: nat, res: seq<Region>)
    requires GoodReserved(res) && cur <= mend <= U64_MAX
    ensures CanonicalWithin(Cut(cur, mend, res), cur, mend)
    decreases |res|
  {
    if res != [] && res[0].base < mend {
      GoodTail(res);
      var next := Max(cur, End(res[0]));
      var piece := Piece(cur, res[0].base);
      if next < mend {
        CutCanonical(next, mend, res[1..]);
        if piece != [] {
          CanonicalConcat(piece, Cut(next, mend, res[1..]), cur, res[0].base, mend);
        } else {
          assert piece + Cut(next, mend, res[1..]) == Cut(next, mend, res[1..]);
        }
      }
    }
  }

  /** The regions in front of a canonical list's last one end before it starts. */
  lemma {:induction false} CanonicalSplit(s: seq<Region>)
    requires Canonical(s) && s != []
    ensures var m := s[|s| - 1];
            && CanonicalWithin(s[..|s| - 1], 0, if m.base == 0 then 0 else m.base - 1)
            && Sized(m) && m.size > 0 && m.kind == Usable
            && (m.base == 0 ==> |s| == 1)
    decreases |s|
  {
    if |s| > 1 {
      CanonicalSplit(s[1..]);
      var k := |s| - 1;
      assert s[1..][..k - 1] == s[..k][1..];
      if k > 1 {
        assert s[..k][1] == s[1] && s[1] in s[1..][..k - 1];
      }
    }
  }

  lemma {:induction false} SubtractCovers(mem: seq<Region>, res: seq<Region>, x: nat)
    requires GoodReserved(res)
    ensures Covers(Subtract(mem, res), x) <==> Covers(mem, x) && !Covers(res, x)
    decreases |mem|
  {
    if mem != [] {
      var k := |mem| - 1;
      SubtractCovers(mem[..k], res, x);
      CutCovers(mem[k].base, End(mem[k]), res, x);
      CoversConcat(Subtract(mem[..k], res), Cut(mem[k].base, End(mem[k]), res), x);
      assert mem == mem[..k] + [mem[k]];
      CoversConcat(mem[..k], [mem[k]], x);
      assert Covers([mem[k]], x) <==> Inside(mem[k], x);
    }
  }

  lemma {:induction false} SubtractCanonical(mem: seq<Region>, res: seq<Region>, hi: nat)
    requires GoodReserved(res) && CanonicalWithin(mem, 0, hi)
    ensures CanonicalWithin(Subtract(mem, res), 0, hi)
    decreases |mem|
  {
    if mem != [] {
      var k := |mem| - 1;
      var m := mem[k];
      CanonicalSplit(mem);
      assert m in mem;
      CutCanonical(m.base, End(m), res);
      if m.base == 0 {
        assert Subtract(mem, res) == Cut(m.base, End(m), res);
      } else {
        SubtractCanonical(mem[..k], res, m.base - 1);
        CanonicalConcat(Subtract(mem[..k], res), Cut(m.base, End(m), res), 0, m.base - 1, hi);
      }
    }
  }

  lemma {:induction false} CanonicalBounded(s: seq<Region>)
    requires Canonical(s)
    ensures CanonicalWithin(s, 0, U64_MAX)
    decreases |s|
  {
    if s != [] {
      CanonicalBounded(s[1..]);
    }
  }

  // A canonical list is determined by the bytes it covers.

  lemma {:induction false} CoversAbove(s: seq<Region>, x: nat)
    requires Canonical(s) && s != [] && Covers(s, x)
    ensures s[0].base <= x
    ensures !Inside(s[0], x) ==> End(s[0]) < x
    decreases |s|
  {
    if !Inside(s[0], x) {
      CoversAbove(s[1..], x);
    }
  }

  lemma TailCovers(s: seq<Region>, x: nat)
    requires Canonical(s) && s != []
    ensures Covers(s[1..], x) <==> Covers(s, x) && x >= End(s[0])
  {
    if Covers(s[1..], x) {
      CoversAbove(s[1..], x);
    }
  }

  lemma HeadNoLonger(s: seq<Region>, t: seq<Region>)
    requires Canonical(s) && Canonical(t) && s != [] && t != []
    requires forall x: nat :: Covers(s, x) <==> Covers(t, x)
    ensures t[0].base <= s[0].base && (t[0].base == s[0].base ==> End(t[0]) <= End(s[0]))
  {
    assert Covers(s, s[0].base);
    CoversAbove(t, s[0].base);
    if t[0].base == s[0].base && End(s[0]) < End(t[0]) {
      assert Covers(t, End(s[0]));
      CoversAbove(s, End(s[0]));
    }
  }

  lemma {:induction false} CanonicalUnique(s: seq<Region>, t: seq<Region>)
    requires Canonical(s) && Canonical(t)
    requires forall x: nat :: Covers(s, x) <==> Covers(t, x)
    ensures s == t
    decreases |s|
  {
    if s == [] {
      if t != [] {
        assert Covers(t, t[0].base);
      }
    } else if t == [] {
      assert Covers(s, s[0].base);
    } else {
      HeadNoLonger(s, t);
      HeadNoLonger(t, s);
      forall x: nat ensures Covers(s[1..], x) <==> Covers(t[1..], x) {
        TailCovers(s, x);
        TailCovers(t, x);
      }
      CanonicalUnique(s[1..], t[1..]);
      assert s == [s[0]] + s[1..] && t == [t[0]] + t[1..];
    }
  }

  // Normalizing.

  /** Compacted, sorted and merged. */
  function Prepared(s: seq<Region>): seq<Region> {
    Merge(Sort(NonEmpty(s)))
  }

  function Normal(mem: seq<Region>, res: seq<Region>): seq<Region> {
    Subtract(Prepared(mem), Prepared(res))
  }

  lemma PreparedShape(s: seq<Region>)
    requires AllSized(s)
    ensures GoodReserved(Prepared(s)) && |Prepared(s)| <= |s|
    ensures AllUsable(s) ==> Canonical(Prepared(s))
  {
    var n := NonEmpty(s);
    NonEmptyElements(s);
    SortIsSorted(n);
    var o := Sort(n);
    if o != [] {
      MergeStart(o);
      MergeFromShape(o[0], o[1..]);
      if AllUsable(s) {
        assert AllUsable(o) && o[0] in o && forall r :: r in o[1..] ==> r in o;
        MergeFromCanonical(o[0], o[1..]);
      }
    }
  }

  lemma MergeStart(o: seq<Region>)
    requires Sorted(o) && AllSized(o) && AllNonEmpty(o) && o != []
    ensures Mergeable(o[0], o[1..])
  {
    assert o[0] in o && forall r :: r in o[1..] ==> r in o;
  }

  lemma PreparedCovers(s: seq<Region>, x: nat)
    requires AllSized(s)
    ensures Covers(Prepared(s), x) <==> Covers(s, x)
  {
    var n := NonEmpty(s);
    NonEmptyElements(s);
    NonEmptyCovers(s, x);
    SortIsSorted(n);
    SortCovers(n, x);
    if Sort(n) != [] {
      MergeStart(Sort(n));
      MergeFromCovers(Sort(n)[0], Sort(n)[1..], x);
    }
  }

  /** Normalizing covers exactly the memory bytes that are not reserved, in
      canonical form, even when reserved regions of different kinds overlap. */
  lemma NormalIsDifference(mem: seq<Region>, res: seq<Region>)
    requires AllSized(mem) && AllUsable(mem) && AllSized(res)
    ensures Canonical(Normal(mem, res))
    ensures forall x: nat :: Covers(Normal(mem, res), x) <==> Covers(mem, x) && !Covers(res, x)
  {
    PreparedShape(mem);
    PreparedShape(res);
    CanonicalBounded(Prepared(mem));
    SubtractCanonical(Prepared(mem), Prepared(res), U64_MAX);
    forall x: nat ensures Covers(Normal(mem, res), x) <==> Covers(mem, x) && !Covers(res, x) {
      PreparedCovers(mem, x);
      PreparedCovers(res, x);
      SubtractCovers(Prepared(mem), Prepared(res), x);
    }
  }

  lemma {:induction false} CanonicalRegions(s: seq<Region>)
    requires Canonical(s)
    ensures AllSized(s) && AllUsable(s) && AllNonEmpty(s)
    decreases |s|
  {
    if s != [] {
      CanonicalRegions(s[1..]);
      assert s == [s[0]] + s[1..];
    }
  }

  /** Normalizing twice changes nothing more. */
  lemma NormalIdempotent(mem: seq<Region>, res: seq<Region>)
    requires AllSized(mem) && AllUsable(mem) && AllSized(res)
    ensures Normal(Normal(mem, res), Prepared(res)) == Normal(mem, res)
  {
    var n := Normal(mem, res);
    NormalIsDifference(mem, res);
    CanonicalRegions(n);
    PreparedShape(res);
    NormalIsDifference(n, Prepared(res));
    forall x: nat ensures Covers(Normal(n, Prepared(res)), x) <==> Covers(n, x) {
      PreparedCovers(res, x);
    }
    CanonicalUnique(Normal(n, Prepared(res)), n);
  }

  /** Reserving in two steps, normalizing after each, gives the same list as one. */
  lemma NormalTwoSteps(mem: seq<Region>, res1: seq<Region>, res2: seq<Region>)
    requires AllSized(mem) && AllUsable(mem) && AllSized(res1) && AllSized(res2)
    ensures Normal(Normal(mem, res1), Prepared(res1) + res2) == Normal(mem, res1 + res2)
  {
    var n := Normal(mem, res1);
    NormalIsDifference(mem, res1);
    CanonicalRegions(n);
    PreparedShape(res1);
    NormalIsDifference(n, Prepared(res1) + res2);
    NormalIsDifference(mem, res1 + res2);
    forall x: nat ensures Covers(Normal(n, Prepared(res1) + res2), x) <==> Covers(Normal(mem, res1 + res2), x) {
      PreparedCovers(res1, x);
      CoversConcat(Prepared(res1), res2, x);
      CoversConcat(res1, res2, x);
    }
    CanonicalUnique(Normal(n, Prepared(res1) + res2), Normal(mem, res1 + res2));
  }

  // No list of regions covering the same bytes is shorter.

  lemma {:induction false} CoveringRegion(t: seq<Region>, x: nat) returns (j: nat)
    requires Covers(t, x)
    ensures j < |t| && Inside(t[j], x)
    decreases |t|
  {
    if Inside(t[0], x) {
      j := 0;
    } else {
      var i := CoveringRegion(t[1..], x);
      j := i + 1;
    }
  }

  lemma {:induction false} CoversMember(t: seq<Region>, j: nat, x: nat)
    requires j < |t| && Inside(t[j], x)
    ensures Covers(t, x)
    decreases j
  {
    if j > 0 {
      CoversMember(t[1..], j - 1, x);
    }
  }

  lemma DropRegion(t: seq<Region>, j: nat, x: nat)
    requires j < |t|
    ensures Covers(t, x) <==> Covers(t[..j] + t[j + 1..], x) || Inside(t[j], x)
  {
    assert t == t[..j] + ([t[j]] + t[j + 1..]);
    CoversConcat(t[..j], [t[j]] + t[j + 1..], x);
    CoversConcat([t[j]], t[j + 1..], x);
    CoversConcat(t[..j], t[j + 1..], x);
    assert Covers([t[j]], x) <==> Inside(t[j], x);
  }

  /** A list that touches every region of s but leaves the gaps open has a region
      for each. */
  lemma {:induction false} OneRegionEach(s: seq<Region>, t: seq<Region>)
    requires Canonical(s)
    requires forall r :: r in s ==> Covers(t, r.base)
    requires forall r :: r in s ==> !Covers(t, End(r))
    ensures |s| <= |t|
    decreases |s|
  {
    if s != [] {
      assert s[0] in s;
      var j := CoveringRegion(t, s[0].base);
      var t' := t[..j] + t[j + 1..];
      DropRegion(t, j, End(s[0]));
      forall r | r in s[1..] ensures Covers(t', r.base) && !Covers(t', End(r)) {
        assert r in s;
        DropRegion(t, j, r.base);
        DropRegion(t, j, End(r));
        LaterStart(s, r);
      }
      OneRegionEach(s[1..], t');
    }
  }

  lemma {:induction false} LaterStart(s: seq<Region>, r: Region)
    requires Canonical(s) && s != [] && r in s[1..]
    ensures End(s[0]) < r.base
    decreases |s|
  {
    if r != s[1] {
      assert s[1..][0] == s[1];
      assert r in s[1..][1..];
      LaterStart(s[1..], r);
    }
  }

  lemma {:induction false} CanonicalEdges(s: seq<Region>, r: Region)
    requires Canonical(s) && r in s
    ensures Covers(s, r.base) && !Covers(s, End(r))
    decreases |s|
  {
    if r == s[0] {
      if Covers(s, End(r)) {
        CoversAbove(s, End(r));
      }
    } else {
      assert r in s[1..];
      CanonicalEdges(s[1..], r);
      LaterStart(s, r);
    }
  }

  /** The canonical list has the fewest regions of all lists covering its bytes. */
  lemma CanonicalIsShortest(s: seq<Region>, t: seq<Region>)
    requires Canonical(s) && forall x: nat :: Covers(s, x) <==> Covers(t, x)
    ensures |s| <= |t|
  {
    forall r | r in s ensures Covers(t, r.base) && !Covers(t, End(r)) {
      CanonicalEdges(s, r);
    }
    OneRegionEach(s, t);
  }
}
