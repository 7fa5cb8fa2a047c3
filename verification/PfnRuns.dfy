/** The iterator over the runs of usable frames of the sparse frame table. */
module PfnRuns {
  import opened Frames
  import opened Geometry
  import opened Options
  import opened SparseMemory

  /** The frames [start, start + len). */
  datatype PfnRun = PfnRun(start: nat, len: nat)

  // What the iterator computes.

  function Close(start: Option<nat>, pos: nat): seq<PfnRun> {
    if start.Some? && start.value <= pos then [PfnRun(start.value, pos - start.value)] else []
  }

  /** The runs found scanning [pos, limit) with a run open since `start`. */
  ghost function Scan(state: map<nat, FrameState>, pos: nat, limit: nat, start: Option<nat>): seq<PfnRun>
    requires pos <= limit
    decreases limit - pos
  {
    if pos == limit then Close(start, pos)
    else if UsableAt(state, pos) then Scan(state, pos + 1, limit, if start.Some? then start else Some(pos))
    else Close(start, pos) + Scan(state, pos + 1, limit, None)
  }

  ghost predicate InRun(r: PfnRun, p: nat) {
    r.start <= p < r.start + r.len
  }

  /** A run of usable frames, as long as it can be. */
  ghost predicate Maximal(state: map<nat, FrameState>, limit: nat, r: PfnRun) {
    && r.len > 0 && r.start + r.len <= limit
    && (forall p: nat :: InRun(r, p) ==> UsableAt(state, p))
    && (r.start > 0 ==> !UsableAt(state, r.start - 1))
    && (r.start + r.len < limit ==> !UsableAt(state, r.start + r.len))
  }

  /** In ascending order with a gap between neighbours, from `from` on. */
  ghost predicate Ascending(runs: seq<PfnRun>, from: nat) {
    runs == [] || (from <= runs[0].start && Ascending(runs[1..], runs[0].start + runs[0].len + 1))
  }

  ghost predicate Covered(runs: seq<PfnRun>, p: nat) {
    runs != [] && (InRun(runs[0], p) || Covered(runs[1..], p))
  }

  /** The open run: usable from `start` up to pos, and not before. */
  ghost predicate OpenRun(state: map<nat, FrameState>, pos: nat, start: Option<nat>) {
    if start.Some? then
      && start.value < pos
      && (forall p: nat :: start.value <= p < pos ==> UsableAt(state, p))
      && (start.value > 0 ==> !UsableAt(state, start.value - 1))
    else pos > 0 ==> !UsableAt(state, pos - 1)
  }

  lemma AscendingWeaken(runs: seq<PfnRun>, from: nat, lower: nat)
    requires Ascending(runs, from) && lower <= from
    ensures Ascending(runs, lower)
  {
  }

  lemma {:induction false} ScanMaximal(state: map<nat, FrameState>, pos: nat, limit: nat, start: Option<nat>, r: PfnRun)
    requires pos <= limit && OpenRun(state, pos, start) && r in Scan(state, pos, limit, start)
    ensures Maximal(state, limit, r)
    decreases limit - pos
  {
    if pos < limit {
      if UsableAt(state, pos) {
        ScanMaximal(state, pos + 1, limit, if start.Some? then start else Some(pos), r);
      } else if r !in Close(start, pos) {
        ScanMaximal(state, pos + 1, limit, None, r);
      }
    }
  }

  lemma {:induction false} ScanAscending(state: map<nat, FrameState>, pos: nat, limit: nat, start: Option<nat>)
    requires pos <= limit && (start.Some? ==> start.value < pos)
    ensures Ascending(Scan(state, pos, limit, start), if start.Some? then start.value else pos)
    decreases limit - pos
  {
    if pos < limit {
      if UsableAt(state, pos) {
        ScanAscending(state, pos + 1, limit, if start.Some? then start else Some(pos));
      } else {
        ScanAscending(state, pos + 1, limit, None);
        var rest := Scan(state, pos + 1, limit, None);
        if start.Some? {
          assert (Close(start, pos) + rest)[1..] == rest;
        } else {
          assert Close(start, pos) + rest == rest;
          AscendingWeaken(rest, pos + 1, pos);
        }
      }
    }
  }

  lemma {:induction false} ScanCovers(state: map<nat, FrameState>, pos: nat, limit: nat, start: Option<nat>, p: nat)
    requires pos <= limit && OpenRun(state, pos, start)
    ensures Covered(Scan(state, pos, limit, start), p) <==>
            (if start.Some? then start.value else pos) <= p < limit && UsableAt(state, p)
    decreases limit - pos
  {
    if pos < limit {
      if UsableAt(state, pos) {
        ScanCovers(state, pos + 1, limit, if start.Some? then start else Some(pos), p);
      } else {
        ScanCovers(state, pos + 1, limit, None, p);
        var rest := Scan(state, pos + 1, limit, None);
        if start.Some? {
          assert (Close(start, pos) + rest)[1..] == rest;
        } else {
          assert Close(start, pos) + rest == rest;
        }
      }
    }
  }

  /** A full scan finds exactly the maximal runs of usable frames, in ascending
      order, each once, and misses no usable frame. */
  lemma ScanIsExact(state: map<nat, FrameState>, limit: nat)
    ensures var runs := Scan(state, 0, limit, None);
            && (forall r :: r in runs ==> Maximal(state, limit, r))
            && Ascending(runs, 0)
            && (forall p: nat :: Covered(runs, p) <==> p < limit && UsableAt(state, p))
  {
    var runs := Scan(state, 0, limit, None);
    forall r | r in runs ensures Maximal(state, limit, r) {
      ScanMaximal(state, 0, limit, None, r);
    }
    ScanAscending(state, 0, limit, None);
    forall p: nat ensures Covered(runs, p) <==> p < limit && UsableAt(state, p) {
      ScanCovers(state, 0, limit, None, p);
    }
  }

  /** A stretch without usable frames closes the open run and nothing more. */
  lemma {:induction false} ScanSkip(state: map<nat, FrameState>, pos: nat, stop: nat, limit: nat, start: Option<nat>)
    requires pos < stop <= limit && forall p: nat :: pos <= p < stop ==> !UsableAt(state, p)
    ensures Scan(state, pos, limit, start) == Close(start, pos) + Scan(state, stop, limit, None)
    decreases stop - pos
  {
    if pos + 1 < stop {
      ScanSkip(state, pos + 1, stop, limit, None);
      assert Close(None, pos + 1) + Scan(state, stop, limit, None) == Scan(state, stop, limit, None);
    }
  }

  /** `UsablePfnRunIter`. */
  class RunIterator {
    const sparse: SparseMem
    var sec: nat
    var idx: nat
    var runStart: Option<nat>
    var runLen: nat

    /** The position scanned so far. */
    ghost function Pos(): nat
      reads this
    {
      SectionBase(sec) + idx
    }

    /** One past the last frame that is looked at. */
    ghost function Limit(): nat
      reads this, sparse
    {
      SectionBase(sparse.maxPresentSec + 1)
    }

    ghost predicate Valid()
      reads this, sparse, sparse.frames
    {
      && sparse.Valid()
      && (sparse.sections == [] ==> sec == 0 && idx == 0 && runStart == None)
      && sec <= sparse.maxPresentSec + 1 && idx <= PAGES_PER_SECTION
      && (idx > 0 ==> sec <= sparse.maxPresentSec && sec < |sparse.sections| && sparse.sections[sec].present)
      && (runStart.Some? ==> runStart.value + runLen == Pos() && runLen > 0)
    }

    /** The runs still to come. */
    ghost function Remaining(): seq<PfnRun>
      requires Valid()
      reads this, sparse, sparse.frames
    {
      PosBelowLimit(sec, idx, sparse.maxPresentSec);
      if sparse.sections == [] then [] else Scan(sparse.States(), Pos(), Limit(), runStart)
    }

    constructor (sparse: SparseMem)
      requires sparse.Valid()
      ensures this.sparse == sparse && Valid()
      ensures Remaining() == if sparse.sections == [] then [] else Scan(sparse.States(), 0, Limit(), None)
    {
      this.sparse := sparse;
      sec, idx, runStart, runLen := 0, 0, None, 0;
    }

    /** Only the frame states and the sections matter. */
    twostate lemma Unmoved()
      requires old(Valid()) && unchanged(this) && unchanged(sparse)
      requires sparse.Valid() && sparse.States() == old(sparse.States())
      ensures Valid() && Remaining() == old(Remaining())
    {
    }

    /** Ends the open run, if there is one. */
    method CloseRun(ghost pos: nat) returns (r: Option<PfnRun>)
      requires runStart.Some? ==> runStart.value + runLen == pos
      modifies this`runStart, this`runLen
      ensures runStart == None
      ensures r == if old(runStart).Some? then Some(PfnRun(old(runStart).value, old(runLen))) else None
      ensures Close(old(runStart), pos) == if r.Some? then [r.value] else []
    {
      if runStart.Some? {
        r := Some(PfnRun(runStart.value, runLen));
        runStart, runLen := None, 0;
      } else {
        r := None;
      }
    }

    /** An absent section has no usable frame. */
    lemma SkipSection()
      requires Valid() && sec <= sparse.maxPresentSec < |sparse.sections| && !sparse.sections[sec].present
      ensures Pos() < SectionBase(sec + 1) <= Limit()
      ensures Scan(sparse.States(), Pos(), Limit(), runStart) ==
              Close(runStart, Pos()) + Scan(sparse.States(), SectionBase(sec + 1), Limit(), None)
    {
      forall p: nat | Pos() <= p < SectionBase(sec + 1) ensures !UsableAt(sparse.States(), p) {
        assert SectionOf(p) == sec;
      }
      ScanSkip(sparse.States(), Pos(), SectionBase(sec + 1), Limit(), runStart);
    }

    /** Passes over an absent section, which ends the open run. */
    method PassSection(ghost todo: seq<PfnRun>) returns (r: Option<PfnRun>)
      requires Valid() && sec <= sparse.maxPresentSec < |sparse.sections| && !sparse.sections[sec].present
      requires Remaining() == todo
      modifies this
      ensures Valid()
      ensures r.Some? ==> todo != [] && r.value == todo[0] && Remaining() == todo[1..]
      ensures r.None? ==> sec == old(sec) + 1 && Remaining() == todo
    {
      hide Scan, Complete, TableOf, LastPresent;
      ghost var pos := Pos();
      SkipSection();
      idx := 0;
      sec := sec + 1;
      r := CloseRun(pos);
    }

    /** Scans the rest of a present section. */
    method ScanSection(ghost todo: seq<PfnRun>) returns (r: Option<PfnRun>)
      requires Valid() && sec <= sparse.maxPresentSec < |sparse.sections| && sparse.sections[sec].present
      requires Remaining() == todo
      modifies this
      ensures Valid()
      ensures r.Some? ==> todo != [] && r.value == todo[0] && Remaining() == todo[1..]
      ensures r.None? ==> sec == old(sec) + 1 && Remaining() == todo
    {
      hide Scan, Complete, LastPresent;
      while idx < PAGES_PER_SECTION
        invariant sec == old(sec) && Valid() && Remaining() == todo
        decreases PAGES_PER_SECTION - idx
      {
        var pfn := SectionBase(sec) + idx;
        assert SectionOf(pfn) == sec && pfn == Pos() && pfn in sparse.frames.r.state;
        ScanStep(sparse.States(), pfn, Limit(), runStart);
        idx := idx + 1;
        if sparse.frames.r.state[pfn] == Usable {
          if runStart.None? {
            runStart, runLen := Some(pfn), 1;
          } else {
            runLen := runLen + 1;
          }
        } else {
          r := CloseRun(pfn);
          if r.Some? {
            return;
          }
        }
      }
      idx := 0;
      sec := sec + 1;
      return None;
    }

    /** The next run, resuming where the last call stopped. */
    method Next() returns (r: Option<PfnRun>)
      requires Valid()
      modifies this
      ensures Valid()
      ensures r == (if old(Remaining()) == [] then None else Some(old(Remaining())[0]))
      ensures Remaining() == if old(Remaining()) == [] then [] else old(Remaining())[1..]
    {
      if |sparse.sections| == 0 {
        r := CloseRun(Pos());
        return;
      }
      hide Scan, Complete, TableOf;
      ghost var todo := Remaining();
      while sec <= sparse.maxPresentSec
        invariant Valid() && Remaining() == todo
        decreases sparse.maxPresentSec + 1 - sec
      {
        if !sparse.sections[sec].present {
          r := PassSection(todo);
        } else {
          r := ScanSection(todo);
        }
        if r.Some? {
          return;
        }
      }
      ScanEnd(sparse.States(), Limit(), runStart);
      r := CloseRun(Pos());
      ScanEnd(sparse.States(), Limit(), runStart);
    }
  }

  lemma PosBelowLimit(sec: nat, idx: nat, maxSec: nat)
    requires sec <= maxSec + 1 && idx <= PAGES_PER_SECTION && (idx > 0 ==> sec <= maxSec)
    ensures SectionBase(sec) + idx <= SectionBase(maxSec + 1)
  {
  }

  /** One frame of a scan. */
  lemma ScanStep(state: map<nat, FrameState>, pos: nat, limit: nat, start: Option<nat>)
    requires pos < limit
    ensures Scan(state, pos, limit, start) ==
            if UsableAt(state, pos) then Scan(state, pos + 1, limit, if start.Some? then start else Some(pos))
            else Close(start, pos) + Scan(state, pos + 1, limit, None)
  {
  }

  lemma ScanEnd(state: map<nat, FrameState>, limit: nat, start: Option<nat>)
    ensures Scan(state, limit, limit, start) == Close(start, limit)
  {
  }
}
