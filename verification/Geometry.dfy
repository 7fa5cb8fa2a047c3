/** Bytes, page frames of 4 KiB and sections of 128 MiB. */
module Geometry {
  import opened Regions

  const PAGE_SIZE: nat := 4096
  const PAGES_PER_SECTION: nat := 32768
  const SECTION_SIZE: nat := 134217728

  function SectionOf(pfn: nat): nat {
    pfn / PAGES_PER_SECTION
  }

  function SectionBase(sec: nat): nat {
    sec * PAGES_PER_SECTION
  }

  function PageOf(x: nat): nat {
    x / PAGE_SIZE
  }

  /** One past the last page that meets the bytes before x. */
  function PageEnd(x: nat): nat {
    (x + PAGE_SIZE - 1) / PAGE_SIZE
  }

  function ByteSection(x: nat): nat {
    x / SECTION_SIZE
  }

  /** Some byte of page p is in one of the regions. */
  ghost predicate MeetsPage(s: seq<Region>, p: nat) {
    exists x: nat :: Covers(s, x) && PageOf(x) == p
  }

  ghost predicate MeetsSection(s: seq<Region>, i: nat) {
    exists x: nat :: Covers(s, x) && ByteSection(x) == i
  }

  ghost predicate RegionMeetsPage(r: Region, p: nat) {
    r.base < End(r) && PageOf(r.base) <= p < PageEnd(End(r))
  }

  ghost predicate RegionMeetsSection(r: Region, i: nat) {
    r.base < End(r) && ByteSection(r.base) <= i <= ByteSection(End(r) - 1)
  }

  lemma SectionBounds(p: nat)
    ensures SectionBase(SectionOf(p)) <= p < SectionBase(SectionOf(p) + 1)
    ensures SectionOf(SectionBase(SectionOf(p))) == SectionOf(p)
    ensures SectionOf(SectionBase(SectionOf(p) + 1)) == SectionOf(p) + 1
  {
  }

  lemma PagesOfRange(base: nat, end: nat)
    ensures base < end ==> PageOf(base) < PageEnd(end)
  {
  }

  lemma SectionOfByte(x: nat)
    ensures SectionOf(PageOf(x)) == ByteSection(x)
  {
  }

  lemma OneRegionPage(r: Region, p: nat)
    ensures RegionMeetsPage(r, p) <==> exists x: nat :: Inside(r, x) && PageOf(x) == p
  {
    if RegionMeetsPage(r, p) {
      var x := if PageOf(r.base) == p then r.base else p * PAGE_SIZE;
      assert Inside(r, x) && PageOf(x) == p;
    }
  }

  lemma OneRegionSection(r: Region, i: nat)
    ensures RegionMeetsSection(r, i) <==> exists x: nat :: Inside(r, x) && ByteSection(x) == i
  {
    if RegionMeetsSection(r, i) {
      var x := if ByteSection(r.base) == i then r.base else i * SECTION_SIZE;
      assert Inside(r, x) && ByteSection(x) == i;
    }
  }

  lemma CoversOneMore(s: seq<Region>, r: Region, x: nat)
    ensures Covers(s + [r], x) <==> Covers(s, x) || Inside(r, x)
  {
    CoversConcat(s, [r], x);
  }

  lemma MeetsPageStep(s: seq<Region>, r: Region, p: nat)
    ensures MeetsPage(s + [r], p) <==> MeetsPage(s, p) || RegionMeetsPage(r, p)
  {
    OneRegionPage(r, p);
    if MeetsPage(s + [r], p) {
      var x: nat :| Covers(s + [r], x) && PageOf(x) == p;
      CoversOneMore(s, r, x);
    }
    if MeetsPage(s, p) {
      var x: nat :| Covers(s, x) && PageOf(x) == p;
      CoversOneMore(s, r, x);
    }
    if RegionMeetsPage(r, p) {
      var x: nat :| Inside(r, x) && PageOf(x) == p;
      CoversOneMore(s, r, x);
    }
  }

  lemma MeetsSectionStep(s: seq<Region>, r: Region, i: nat)
    ensures MeetsSection(s + [r], i) <==> MeetsSection(s, i) || RegionMeetsSection(r, i)
  {
    OneRegionSection(r, i);
    if MeetsSection(s + [r], i) {
      var x: nat :| Covers(s + [r], x) && ByteSection(x) == i;
      CoversOneMore(s, r, x);
    }
    if MeetsSection(s, i) {
      var x: nat :| Covers(s, x) && ByteSection(x) == i;
      CoversOneMore(s, r, x);
    }
    if RegionMeetsSection(r, i) {
      var x: nat :| Inside(r, x) && ByteSection(x) == i;
      CoversOneMore(s, r, x);
    }
  }

  /** A page that meets the regions lies in a section that does. */
  lemma PageInSection(s: seq<Region>, p: nat)
    requires MeetsPage(s, p)
    ensures MeetsSection(s, SectionOf(p))
  {
    var x: nat :| Covers(s, x) && PageOf(x) == p;
    SectionOfByte(x);
  }
}
