/** How the free lists of a buddy zone represent its free blocks. */
module FreeLists {
  import opened Blocks
  import opened Chain
  import opened Frames

  const MAX_ORDER: nat := 11

  /** One well-formed doubly linked list per head. */
  ghost predicate AllLinked(next: map<nat, nat>, prev: map<nat, nat>, free: seq<nat>, lists: seq<seq<nat>>) {
    && |free| == |lists|
    && forall o :: 0 <= o < |lists| ==> Linked(next, prev, INVALID_PFN, free[o], lists[o])
  }

  ghost predicate Separate(lists: seq<seq<nat>>) {
    forall i, j, x :: 0 <= i < |lists| && 0 <= j < |lists| && x in lists[i] && x in lists[j] ==> i == j
  }

  ghost predicate Listed(lists: seq<seq<nat>>, x: nat) {
    exists o :: 0 <= o < |lists| && x in lists[o]
  }

  /** The list of order o holds the heads of exactly the free blocks of order o. */
  ghost predicate ListsHold(lists: seq<seq<nat>>, s: set<Block>) {
    && |lists| == MAX_ORDER + 1
    && (forall b :: b in s && b.free ==> b.order <= MAX_ORDER && b.head in lists[b.order])
    && (forall o, h: nat :: 0 <= o < |lists| && h in lists[o] ==> Block(h, o, true) in s)
  }

  lemma ListsSeparate(z: Bounds, lists: seq<seq<nat>>, s: set<Block>)
    requires Tiled(z, s) && ListsHold(lists, s)
    ensures Separate(lists)
  {
    forall i, j, x: nat | 0 <= i < |lists| && 0 <= j < |lists| && x in lists[i] && x in lists[j] ensures i == j {
      SameHead(z, s, Block(x, i, true), Block(x, j, true));
    }
  }

  lemma PushAll(next: map<nat, nat>, prev: map<nat, nat>, free: seq<nat>, lists: seq<seq<nat>>, o: nat, x: nat)
    requires AllLinked(next, prev, free, lists) && Separate(lists) && o < |lists|
    requires !Listed(lists, x) && x != INVALID_PFN
    ensures AllLinked(PushNext(next, x, free[o]), PushPrev(prev, x, free[o], INVALID_PFN),
                      free[o := x], lists[o := [x] + lists[o]])
  {
    var n', p' := PushNext(next, x, free[o]), PushPrev(prev, x, free[o], INVALID_PFN);
    PushLinked(next, prev, INVALID_PFN, free[o], lists[o], x);
    forall i | 0 <= i < |lists| && i != o ensures Linked(n', p', INVALID_PFN, free[i], lists[i]) {
      PushOther(next, prev, free, lists, o, x, i);
    }
  }

  lemma PushOther(next: map<nat, nat>, prev: map<nat, nat>, free: seq<nat>, lists: seq<seq<nat>>, o: nat, x: nat,
                  i: nat)
    requires AllLinked(next, prev, free, lists) && Separate(lists) && o < |lists| && i < |lists| && i != o
    requires !Listed(lists, x)
    ensures Linked(PushNext(next, x, free[o]), PushPrev(prev, x, free[o], INVALID_PFN), INVALID_PFN, free[i], lists[i])
  {
    assert Linked(next, prev, INVALID_PFN, free[o], lists[o]);
    LinkedFrame(next, prev, PushNext(next, x, free[o]), PushPrev(prev, x, free[o], INVALID_PFN),
                INVALID_PFN, free[i], lists[i]);
  }

  /** The list heads after taking x out of list o. */
  function RemoveHead(next: map<nat, nat>, prev: map<nat, nat>, free: seq<nat>, o: nat, x: nat): seq<nat>
    requires x in next && x in prev && o < |free|
  {
    if prev[x] != INVALID_PFN then free else free[o := next[x]]
  }

  ghost function DropFrom(lists: seq<seq<nat>>, o: nat, x: nat): seq<seq<nat>>
    requires o < |lists| && x in lists[o]
  {
    lists[o := Without(lists[o], IndexOf(lists[o], x))]
  }

  lemma RemoveAll(next: map<nat, nat>, prev: map<nat, nat>, free: seq<nat>, lists: seq<seq<nat>>, o: nat, x: nat)
    requires AllLinked(next, prev, free, lists) && Separate(lists) && o < |lists| && x in lists[o]
    ensures x in next && x in prev
    ensures AllLinked(RemoveNext(next, prev, x, INVALID_PFN), RemovePrev(next, prev, x, INVALID_PFN),
                      RemoveHead(next, prev, free, o, x), DropFrom(lists, o, x))
  {
    assert Linked(next, prev, INVALID_PFN, free[o], lists[o]);
    RemoveLinked(next, prev, INVALID_PFN, free[o], lists[o], IndexOf(lists[o], x));
    var n', p' := RemoveNext(next, prev, x, INVALID_PFN), RemovePrev(next, prev, x, INVALID_PFN);
    forall i | 0 <= i < |lists| && i != o ensures Linked(n', p', INVALID_PFN, free[i], lists[i]) {
      RemoveOther(next, prev, free, lists, o, x, i);
    }
  }

  /** Only x and its neighbours in the list have their links changed. */
  lemma RemoveTouches(next: map<nat, nat>, prev: map<nat, nat>, head: nat, s: seq<nat>, x: nat)
    requires Linked(next, prev, INVALID_PFN, head, s) && x in s
    ensures forall y :: y in next && y !in s ==> RemoveNext(next, prev, x, INVALID_PFN)[y] == next[y]
    ensures forall y :: y in prev && y !in s ==> RemovePrev(next, prev, x, INVALID_PFN)[y] == prev[y]
    ensures RemoveNext(next, prev, x, INVALID_PFN).Keys == next.Keys
    ensures RemovePrev(next, prev, x, INVALID_PFN).Keys == prev.Keys
  {
    var k: int := IndexOf(s, x);
    assert next[s[k]] == At(s, k + 1, INVALID_PFN) && prev[s[k]] == At(s, k - 1, INVALID_PFN);
  }

  lemma RemoveOther(next: map<nat, nat>, prev: map<nat, nat>, free: seq<nat>, lists: seq<seq<nat>>, o: nat, x: nat,
                    i: nat)
    requires AllLinked(next, prev, free, lists) && Separate(lists) && o < |lists| && i < |lists| && i != o &&
             x in lists[o]
    ensures x in next && x in prev
    ensures Linked(RemoveNext(next, prev, x, INVALID_PFN), RemovePrev(next, prev, x, INVALID_PFN), INVALID_PFN, free[i],
                   lists[i])
  {
    assert Linked(next, prev, INVALID_PFN, free[o], lists[o]);
    RemoveTouches(next, prev, free[o], lists[o], x);
    assert Linked(next, prev, INVALID_PFN, free[i], lists[i]);
    LinkedFrame(next, prev, RemoveNext(next, prev, x, INVALID_PFN), RemovePrev(next, prev, x, INVALID_PFN),
                INVALID_PFN, free[i], lists[i]);
  }
}
