/** The bounded queue of waiting receivers (`WaitQueue`): a ring of 16 slots in
    which a cancelled entry leaves a tombstone. */
module WaitQueues {
  import opened Options

  const WQ_CAP: nat := 16

  type Slots = seq<Option<nat>>

  // The abstract queue: entries and tombstones, oldest first.

  /** The ids still waiting, oldest first. */
  function Live(s: Slots): seq<nat> {
    if s == [] then [] else (if s[0].Some? then [s[0].value] else []) + Live(s[1..])
  }

  /** The queue after an enqueue, or None when entries and tombstones fill it. */
  function AfterEnqueue(s: Slots, id: nat): Option<Slots> {
    if |s| < WQ_CAP then Some(s + [Some(id)]) else None
  }

  /** The queue after a dequeue: everything up to the first live entry is gone. */
  function AfterDequeue(s: Slots): Slots {
    if s == [] then [] else if s[0].Some? then s[1..] else AfterDequeue(s[1..])
  }

  /** The queue after cancelling the first entry for id. */
  function AfterCancel(s: Slots, id: nat): Slots {
    if s == [] then [] else if s[0] == Some(id) then [None] + s[1..] else [s[0]] + AfterCancel(s[1..], id)
  }

  function RemoveFirst(ids: seq<nat>, id: nat): seq<nat> {
    if ids == [] then [] else if ids[0] == id then ids[1..] else [ids[0]] + RemoveFirst(ids[1..], id)
  }

  lemma {:induction false} LiveConcat(s: Slots, t: Slots)
    ensures Live(s + t) == Live(s) + Live(t)
  {
    if s == [] {
      assert s + t == t;
    } else {
      hide Live;
      LiveConcat(s[1..], t);
      LiveFirst(s);
      LiveFirst(s + t);
      var first := if s[0].Some? then [s[0].value] else [];
      assert (s + t)[1..] == s[1..] + t;
      Associate(first, Live(s[1..]), Live(t));
    }
  }

  lemma Associate(a: seq<nat>, b: seq<nat>, c: seq<nat>)
    ensures a + (b + c) == (a + b) + c
  {
  }

  lemma LiveFirst(s: Slots)
    requires s != []
    ensures Live(s) == (if s[0].Some? then [s[0].value] else []) + Live(s[1..])
  {
  }

  lemma LiveStep(s: Slots)
    requires s != []
    ensures s[0].None? ==> Live(s) == Live(s[1..])
    ensures s[0].Some? ==> Live(s) != [] && Live(s)[0] == s[0].value && Live(s)[1..] == Live(s[1..])
  {
  }

  /** Enqueuing puts the id behind all others, and fails exactly at 16 entries and
      tombstones. */
  lemma EnqueueIsFifo(s: Slots, id: nat)
    ensures AfterEnqueue(s, id).None? <==> |s| >= 16
    ensures AfterEnqueue(s, id).Some? ==>
              var s' := AfterEnqueue(s, id).value; Live(s') == Live(s) + [id] && |s'| == |s| + 1
  {
    LiveConcat(s, [Some(id)]);
    LiveStep([Some(id)]);
  }

  /** Dequeuing takes the oldest live id and drops nothing else. */
  lemma {:induction false} DequeueIsFifo(s: Slots)
    ensures Live(AfterDequeue(s)) == if Live(s) == [] then [] else Live(s)[1..]
    ensures |AfterDequeue(s)| <= |s| && (s != [] ==> |AfterDequeue(s)| < |s|)
    ensures Live(s) == [] ==> AfterDequeue(s) == []
  {
    if s != [] {
      LiveStep(s);
      if s[0].None? {
        DequeueIsFifo(s[1..]);
      }
    }
  }

  /** Cancelling removes the first entry for id, keeps its slot, and does nothing
      when id is not waiting. */
  lemma {:induction false} CancelRemovesFirst(s: Slots, id: nat)
    ensures Live(AfterCancel(s, id)) == RemoveFirst(Live(s), id)
    ensures |AfterCancel(s, id)| == |s|
    ensures id !in Live(s) ==> AfterCancel(s, id) == s
    ensures id in Live(s) <==> Some(id) in s
  {
    if s != [] {
      LiveStep(s);
      LiveStep(AfterCancel(s, id));
      if s[0] == Some(id) {
        assert ([None] + s[1..])[1..] == s[1..];
      } else {
        CancelRemovesFirst(s[1..], id);
        assert ([s[0]] + AfterCancel(s[1..], id))[1..] == AfterCancel(s[1..], id);
      }
    }
  }

  // The ring.

  /** The slot k places after h. */
  function Pos(h: nat, k: nat): (p: nat)
    ensures p < WQ_CAP
  {
    (h + k) % WQ_CAP
  }

  lemma PosDistinct(h: nat, i: nat, k: nat)
    requires h < WQ_CAP && i < WQ_CAP && k < WQ_CAP && i != k
    ensures Pos(h, i) != Pos(h, k)
  {
  }

  lemma PosStep(h: nat, k: nat)
    requires h < WQ_CAP && k <= WQ_CAP
    ensures Pos(Pos(h, 1), k) == Pos(h, k + 1) == Pos(Pos(h, k), 1) && Pos(h, 0) == h
  {
    hide Pos;
    PosIs(h, 0);
    PosIs(h, 1);
    PosIs(h, k);
    PosIs(h, k + 1);
    PosIs(Pos(h, 1), k);
    PosIs(Pos(h, k), 1);
  }

  lemma PosIs(h: nat, k: nat)
    requires h < WQ_CAP && k <= WQ_CAP + 1
    ensures Pos(h, k) == if h + k < WQ_CAP then h + k else if h + k < 2 * WQ_CAP then h + k - WQ_CAP else 0
  {
  }

  /** The n slots of the ring from h on. */
  ghost function Ring(buf: Slots, h: nat, n: nat): (s: Slots)
    requires |buf| == WQ_CAP && h < WQ_CAP
    ensures |s| == n
    decreases n
  {
    if n == 0 then [] else [buf[h]] + Ring(buf, Pos(h, 1), n - 1)
  }

  lemma {:induction false} RingAt(buf: Slots, h: nat, n: nat, k: nat)
    requires |buf| == WQ_CAP && h < WQ_CAP && k < n <= WQ_CAP
    ensures Ring(buf, h, n)[k] == buf[Pos(h, k)]
    decreases n
  {
    hide Pos;
    PosStep(h, if k > 0 then k - 1 else 0);
    if k > 0 {
      RingAt(buf, Pos(h, 1), n - 1, k - 1);
    }
  }

  /** Storing at a position inside the window changes exactly that entry. */
  lemma RingStore(buf: Slots, h: nat, n: nat, k: nat, x: Option<nat>)
    requires |buf| == WQ_CAP && h < WQ_CAP && k < n <= WQ_CAP
    ensures Ring(buf[Pos(h, k) := x], h, n) == Ring(buf, h, n)[k := x]
  {
    hide Pos, Ring;
    var buf' := buf[Pos(h, k) := x];
    forall i | 0 <= i < n ensures Ring(buf', h, n)[i] == Ring(buf, h, n)[k := x][i] {
      RingAt(buf', h, n, i);
      RingAt(buf, h, n, i);
      if i != k {
        PosDistinct(h, i, k);
      }
    }
  }

  lemma RingPrefix(buf: Slots, h: nat, n: nat)
    requires |buf| == WQ_CAP && h < WQ_CAP && n < WQ_CAP
    ensures Ring(buf, h, n + 1) == Ring(buf, h, n) + [buf[Pos(h, n)]]
  {
    hide Pos, Ring;
    var r := Ring(buf, h, n) + [buf[Pos(h, n)]];
    forall i | 0 <= i < n + 1 ensures Ring(buf, h, n + 1)[i] == r[i] {
      RingAt(buf, h, n + 1, i);
      if i < n {
        RingAt(buf, h, n, i);
      }
    }
  }

  class WaitQueue {
    var buf: array<Option<nat>>
    var head: nat
    var tail: nat
    var count: nat

    ghost predicate Valid()
      reads this, buf
    {
      buf.Length == WQ_CAP && head < WQ_CAP && count <= WQ_CAP && tail == Pos(head, count)
    }

    /** Entries and tombstones, oldest first. */
    ghost function Contents(): Slots
      requires Valid()
      reads this, buf
    {
      Ring(buf[..], head, count)
    }

    constructor ()
      ensures Valid() && Contents() == [] && fresh(buf)
    {
      buf := new Option<nat>[WQ_CAP](_ => None);
      head, tail, count := 0, 0, 0;
    }

    /** Fails exactly when live entries and tombstones together fill the ring. */
    method Enqueue(id: nat) returns (ok: bool)
      requires Valid()
      modifies this, buf
      ensures Valid() && buf == old(buf)
      ensures ok <==> |old(Contents())| < WQ_CAP
      ensures Contents() == old(Contents()) + if ok then [Some(id)] else []
      ensures AfterEnqueue(old(Contents()), id) == if ok then Some(Contents()) else None
    {
      hide Ring, Pos;
      ok := count < WQ_CAP;
      if ok {
        ghost var b := buf[..];
        RingPrefix(b[tail := Some(id)], head, count);
        RingFrame(b, head, count, Some(id));
        buf[tail] := Some(id);
        assert buf[..] == b[tail := Some(id)];
        PosStep(head, count);
        tail := Pos(tail, 1);
        count := count + 1;
      }
    }

    /** Takes the oldest uncancelled id, skipping tombstones. */
    method Dequeue() returns (id: Option<nat>)
      requires Valid()
      modifies this, buf
      ensures Valid() && buf == old(buf)
      ensures id == if Live(old(Contents())) == [] then None else Some(Live(old(Contents()))[0])
      ensures Contents() == AfterDequeue(old(Contents()))
    {
      while true
        invariant Valid() && buf == old(buf)
        invariant AfterDequeue(Contents()) == AfterDequeue(old(Contents()))
        invariant Live(Contents()) == Live(old(Contents()))
        decreases count
      {
        if count == 0 {
          return None;
        }
        id := TakeHead();
        if id.Some? {
          return id;
        }
      }
    }

    /** Empties the head slot and moves past it. */
    method TakeHead() returns (id: Option<nat>)
      requires Valid() && count > 0
      modifies this, buf
      ensures Valid() && buf == old(buf) && count == old(count) - 1
      ensures id == old(Contents())[0] && Contents() == old(Contents())[1..]
    {
      hide Pos, Ring;
      ghost var b := buf[..];
      FirstSlot(b, head, count);
      id := buf[head];
      buf[head] := None;
      assert buf[..] == b[head := None];
      RingFrameFront(b, head, count);
      PosStep(head, count - 1);
      head := Pos(head, 1);
      count := count - 1;
    }

    method Cancel(id: nat) returns (found: bool)
      requires Valid()
      modifies buf
      ensures Valid()
      ensures found <==> id in Live(old(Contents()))
      ensures Contents() == AfterCancel(old(Contents()), id)
    {
      hide Ring, AfterCancel, Live, Pos;
      PosStep(head, 0);
      ghost var s := Contents();
      CancelRemovesFirst(s, id);
      var i := head;
      for k := 0 to count
        invariant i == Pos(head, k) && buf[..] == old(buf[..])
        invariant Some(id) !in s[..k]
      {
        RingAt(buf[..], head, count, k);
        assert s[k] == buf[i] && s[..k + 1] == s[..k] + [s[k]];
        if buf[i] == Some(id) {
          CancelAt(s, id, k);
          RingStore(buf[..], head, count, k, None);
          ghost var b := buf[..];
          buf[i] := None;
          assert buf[..] == b[i := None];
          return true;
        }
        PosStep(head, k);
        i := Pos(i, 1);
      }
      assert s[..count] == s;
      return false;
    }
  }

  /** Storing just behind the window leaves the window alone. */
  lemma RingFrame(buf: Slots, h: nat, n: nat, x: Option<nat>)
    requires |buf| == WQ_CAP && h < WQ_CAP && n < WQ_CAP
    ensures Ring(buf[Pos(h, n) := x], h, n) == Ring(buf, h, n)
  {
    hide Pos, Ring;
    var buf' := buf[Pos(h, n) := x];
    forall i | 0 <= i < n ensures Ring(buf', h, n)[i] == Ring(buf, h, n)[i] {
      RingAt(buf', h, n, i);
      RingAt(buf, h, n, i);
      PosDistinct(h, i, n);
    }
  }

  lemma FirstSlot(buf: Slots, h: nat, n: nat)
    requires |buf| == WQ_CAP && h < WQ_CAP && n > 0
    ensures Ring(buf, h, n)[0] == buf[h]
  {
  }

  /** Emptying the first slot leaves the rest of the window alone. */
  lemma RingFrameFront(buf: Slots, h: nat, n: nat)
    requires |buf| == WQ_CAP && h < WQ_CAP && 0 < n <= WQ_CAP
    ensures Ring(buf[h := None], Pos(h, 1), n - 1) == Ring(buf, h, n)[1..]
  {
    hide Pos;
    PosStep(h, 0);
    RingStore(buf, h, n, 0, None);
    assert Ring(buf[h := None], h, n)[1..] == Ring(buf[h := None], Pos(h, 1), n - 1);
  }

  lemma {:induction false} CancelAt(s: Slots, id: nat, k: nat)
    requires k < |s| && s[k] == Some(id) && Some(id) !in s[..k]
    ensures AfterCancel(s, id) == s[k := None]
    decreases k
  {
    if k > 0 {
      assert s[0] in s[..k];
      assert forall x :: x in s[1..][..k - 1] ==> x in s[..k];
      CancelAt(s[1..], id, k - 1);
      assert s[k := None] == [s[0]] + s[1..][k - 1 := None];
    } else {
      assert s[0 := None] == [None] + s[1..];
    }
  }
}
