/** The table of per-frame records (`SparseMem`'s frames), one map per record
    field, keyed by the page frame numbers that are present. */
module Frames {
  const INVALID_PFN: nat := 0xFFFF_FFFF_FFFF_FFFF

  datatype FrameState = Absent | Usable | Reserved
  datatype Tag = Unused | Free | Allocated
  datatype ZoneId = Dma | Normal | High

  /** The fields of all present frames. */
  datatype Records = Records(
    state: map<nat, FrameState>,
    order: map<nat, nat>,
    tag: map<nat, Tag>,
    zone: map<nat, ZoneId>,
    next: map<nat, nat>,
    prev: map<nat, nat>)

  /** Every present frame has all its fields. */
  ghost predicate Complete(r: Records) {
    && r.state.Keys == r.order.Keys == r.tag.Keys == r.zone.Keys == r.next.Keys == r.prev.Keys
    && forall p :: p in r.state ==> p < INVALID_PFN
  }

  predicate UsableAt(state: map<nat, FrameState>, p: nat) {
    p in state && state[p] == Usable
  }

  class FrameTable {
    var r: Records
  }

  /** A frame record as the head of a block, or as the inside of one. */
  function Stamp(r: Records, p: nat, tag: Tag, order: nat): Records {
    r.(tag := r.tag[p := tag], order := r.order[p := order],
       prev := r.prev[p := INVALID_PFN], next := r.next[p := INVALID_PFN])
  }

  /** Only the records [head, head + n) differ: the first holds `first`, the
      others `rest`. */
  ghost predicate PaintedTags(m: map<nat, Tag>, m': map<nat, Tag>, head: nat, n: nat, first: Tag, rest: Tag) {
    && m'.Keys == m.Keys
    && forall p {:trigger m'[p]} :: p in m ==>
         m'[p] == if p == head then first else if head < p < head + n then rest else m[p]
  }

  ghost predicate Painted(m: map<nat, nat>, m': map<nat, nat>, head: nat, n: nat, first: nat, rest: nat) {
    && m'.Keys == m.Keys
    && forall p {:trigger m'[p]} :: p in m ==>
         m'[p] == if p == head then first else if head < p < head + n then rest else m[p]
  }

  /** r' is r with the frames [head, head + n) marked as one free block. */
  ghost predicate MarkedFree(r: Records, r': Records, head: nat, n: nat, order: nat) {
    && r'.state == r.state && r'.zone == r.zone
    && PaintedTags(r.tag, r'.tag, head, n, Free, Unused)
    && Painted(r.order, r'.order, head, n, order, 0)
    && Painted(r.next, r'.next, head, n, INVALID_PFN, INVALID_PFN)
    && Painted(r.prev, r'.prev, head, n, INVALID_PFN, INVALID_PFN)
  }

  lemma PaintOneMore(m: map<nat, nat>, m': map<nat, nat>, head: nat, n: nat, first: nat, rest: nat)
    requires Painted(m, m', head, n, first, rest) && n > 0 && head + n in m
    ensures Painted(m, m'[head + n := rest], head, n + 1, first, rest)
  {
  }

  lemma PaintOneTagMore(m: map<nat, Tag>, m': map<nat, Tag>, head: nat, n: nat, first: Tag, rest: Tag)
    requires PaintedTags(m, m', head, n, first, rest) && n > 0 && head + n in m
    ensures PaintedTags(m, m'[head + n := rest], head, n + 1, first, rest)
  {
  }

  lemma MarkOneMore(r: Records, r': Records, head: nat, n: nat, order: nat)
    requires MarkedFree(r, r', head, n, order) && n > 0
    requires head + n in r.tag && head + n in r.order && head + n in r.next && head + n in r.prev
    ensures MarkedFree(r, Stamp(r', head + n, Unused, 0), head, n + 1, order)
  {
    PaintOneTagMore(r.tag, r'.tag, head, n, Free, Unused);
    PaintOneMore(r.order, r'.order, head, n, order, 0);
    PaintOneMore(r.next, r'.next, head, n, INVALID_PFN, INVALID_PFN);
    PaintOneMore(r.prev, r'.prev, head, n, INVALID_PFN, INVALID_PFN);
  }
}
