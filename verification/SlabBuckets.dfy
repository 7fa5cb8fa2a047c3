/** The buckets of the slab allocator: every slab is in the doubly linked list that
    its class and its list tag name, and in no other. */
module SlabBuckets {
  import opened Chain
  import opened Frames
  import opened FreeLists
  import opened SlabState

  /** Three buckets per class. */
  function BucketNo(cls: nat, k: Kind): nat {
    3 * cls + match k { case Partial => 0 case Full => 1 case Empty => 2 }
  }

  lemma BucketNoUnique(cls: nat, k: Kind, cls': nat, k': Kind)
    ensures BucketNo(cls, k) == BucketNo(cls', k') <==> cls == cls' && k == k'
  {
  }

  /** The lists are linked through the headers and counted right; slab v, `except`
      aside, is in the list of its class and tag. */
  ghost predicate Bucketed(n: nat, s: Slabs, heads: seq<nat>, counts: seq<nat>, lists: seq<seq<nat>>, except: nat) {
    && |lists| == |counts| == 3 * n && AllLinked(s.next, s.prev, heads, lists)
    && (forall b :: 0 <= b < |lists| ==> counts[b] == |lists[b]|)
    && InLists(n, s.info, s.kind, lists, except)
  }

  ghost predicate OfBucket(info: map<nat, Info>, kind: map<nat, Kind>, q: seq<nat>, b: nat, except: nat) {
    forall v: nat {:trigger v in q} :: v in q ==>
      v in info && v in kind && v != except && b == BucketNo(info[v].cls, kind[v])
  }

  ghost predicate InLists(n: nat, info: map<nat, Info>, kind: map<nat, Kind>, lists: seq<seq<nat>>, except: nat) {
    && |lists| == 3 * n
    && (forall b :: 0 <= b < |lists| ==> OfBucket(info, kind, lists[b], b, except))
    && (forall v: nat :: v in info && v != except ==>
          v in kind && info[v].cls < n && v in lists[BucketNo(info[v].cls, kind[v])])
  }

  lemma InListsSeparate(n: nat, info: map<nat, Info>, kind: map<nat, Kind>, lists: seq<seq<nat>>, except: nat)
    requires InLists(n, info, kind, lists, except)
    ensures Separate(lists) && !Listed(lists, except)
  {
    forall i, j, x: nat | 0 <= i < |lists| && 0 <= j < |lists| && x in lists[i] && x in lists[j] ensures i == j {
      assert OfBucket(info, kind, lists[i], i, except) && OfBucket(info, kind, lists[j], j, except);
    }
    forall b | 0 <= b < |lists| ensures except !in lists[b] {
      assert OfBucket(info, kind, lists[b], b, except);
    }
  }

  function PushSlab(s: Slabs, v: nat, k: Kind, head: nat): Slabs {
    s.(kind := s.kind[v := k], next := PushNext(s.next, v, head), prev := PushPrev(s.prev, v, head, INVALID_PFN))
  }

  lemma PushInLists(n: nat, info: map<nat, Info>, kind: map<nat, Kind>, lists: seq<seq<nat>>, v: nat, k: Kind)
    requires InLists(n, info, kind, lists, v) && v in info && info[v].cls < n
    requires forall u :: u in info ==> u < INVALID_PFN
    ensures var b := BucketNo(info[v].cls, k);
            b < |lists| && InLists(n, info, kind[v := k], lists[b := [v] + lists[b]], INVALID_PFN)
  {
    var b := BucketNo(info[v].cls, k);
    var kind', lists' := kind[v := k], lists[b := [v] + lists[b]];
    assert forall x :: x in lists'[b] <==> x == v || x in lists[b];
    forall u: nat | u in info ensures u in kind' && info[u].cls < n && u in lists'[BucketNo(info[u].cls, kind'[u])] {
      assert u == v || u in lists[BucketNo(info[u].cls, kind[u])];
    }
  }

  /** `SlabBucket::push`. */
  lemma PushBucket(n: nat, s: Slabs, heads: seq<nat>, counts: seq<nat>, lists: seq<seq<nat>>, v: nat, k: Kind)
    requires Bucketed(n, s, heads, counts, lists, v) && v in s.info && s.info[v].cls < n
    requires forall u :: u in s.info ==> u < INVALID_PFN
    ensures var b := BucketNo(s.info[v].cls, k);
            && b < |heads| == |counts| == |lists|
            && Bucketed(n, PushSlab(s, v, k, heads[b]), heads[b := v], counts[b := counts[b] + 1],
                        lists[b := [v] + lists[b]], INVALID_PFN)
  {
    hide AllLinked, InLists, PushNext, PushPrev, Separate, Listed;
    var b := BucketNo(s.info[v].cls, k);
    InListsSeparate(n, s.info, s.kind, lists, v);
    LinkedLength(s.next, s.prev, heads, lists);
    PushInLists(n, s.info, s.kind, lists, v, k);
    PushAll(s.next, s.prev, heads, lists, b, v);
  }

  lemma LinkedLength(next: map<nat, nat>, prev: map<nat, nat>, heads: seq<nat>, lists: seq<seq<nat>>)
    requires AllLinked(next, prev, heads, lists)
    ensures |heads| == |lists|
  {
  }

  function UnlinkSlab(s: Slabs, v: nat): Slabs
    requires v in s.next && v in s.prev
  {
    s.(next := RemoveNext(s.next, s.prev, v, INVALID_PFN), prev := RemovePrev(s.next, s.prev, v, INVALID_PFN))
  }

  lemma DropInLists(n: nat, info: map<nat, Info>, kind: map<nat, Kind>, lists: seq<seq<nat>>, v: nat)
    requires InLists(n, info, kind, lists, INVALID_PFN) && v in info && v in kind && v != INVALID_PFN
    requires forall b :: 0 <= b < |lists| ==> NoDup(lists[b])
    requires forall u :: u in info ==> u < INVALID_PFN
    ensures var b := BucketNo(info[v].cls, kind[v]);
            b < |lists| && v in lists[b] && |DropFrom(lists, b, v)[b]| == |lists[b]| - 1 &&
            InLists(n, info, kind, DropFrom(lists, b, v), v)
  {
    var b := BucketNo(info[v].cls, kind[v]);
    WithoutElements(lists[b], IndexOf(lists[b], v));
    var d := DropFrom(lists, b, v);
    forall c | 0 <= c < |d| ensures OfBucket(info, kind, d[c], c, v) {
      assert OfBucket(info, kind, lists[c], c, INVALID_PFN);
    }
  }

  lemma LinkedNoDup(next: map<nat, nat>, prev: map<nat, nat>, heads: seq<nat>, lists: seq<seq<nat>>)
    requires AllLinked(next, prev, heads, lists)
    ensures forall b :: 0 <= b < |lists| ==> NoDup(lists[b])
  {
    forall b | 0 <= b < |lists| ensures NoDup(lists[b]) {
      assert Linked(next, prev, INVALID_PFN, heads[b], lists[b]);
    }
  }

  /** `SlabBucket::remove`. */
  lemma RemoveBucket(n: nat, s: Slabs, heads: seq<nat>, counts: seq<nat>, lists: seq<seq<nat>>, v: nat)
    requires Bucketed(n, s, heads, counts, lists, INVALID_PFN) && v in s.info && v < INVALID_PFN
    requires v in s.next && v in s.prev && v in s.kind && forall u :: u in s.info ==> u < INVALID_PFN
    ensures var b := BucketNo(s.info[v].cls, s.kind[v]);
            && b < |heads| == |counts| == |lists| && v in lists[b] && counts[b] > 0
            && Bucketed(n, UnlinkSlab(s, v), RemoveHead(s.next, s.prev, heads, b, v), counts[b := counts[b] - 1],
                        DropFrom(lists, b, v), v)
  {
    hide AllLinked, InLists, RemoveNext, RemovePrev, Separate, Listed, RemoveHead;
    LinkedLength(s.next, s.prev, heads, lists);
    InListsSeparate(n, s.info, s.kind, lists, INVALID_PFN);
    LinkedNoDup(s.next, s.prev, heads, lists);
    DropInLists(n, s.info, s.kind, lists, v);
    RemoveAll(s.next, s.prev, heads, lists, BucketNo(s.info[v].cls, s.kind[v]), v);
  }

  /** Buckets do not depend on the free lists. */
  lemma BucketsUnmoved(n: nat, s: Slabs, s': Slabs, heads: seq<nat>, counts: seq<nat>, lists: seq<seq<nat>>,
                       except: nat)
    requires Bucketed(n, s, heads, counts, lists, except)
    requires s'.info == s.info && s'.kind == s.kind && s'.next == s.next && s'.prev == s.prev
    ensures Bucketed(n, s', heads, counts, lists, except)
  {
  }

  lemma LinksElsewhere(next: map<nat, nat>, prev: map<nat, nat>, next': map<nat, nat>, prev': map<nat, nat>,
                       heads: seq<nat>, lists: seq<seq<nat>>, v: nat)
    requires AllLinked(next, prev, heads, lists) && !Listed(lists, v)
    requires forall x :: x in next && x != v ==> x in next' && next'[x] == next[x]
    requires forall x :: x in prev && x != v ==> x in prev' && prev'[x] == prev[x]
    ensures AllLinked(next', prev', heads, lists)
  {
    forall b | 0 <= b < |lists| ensures Linked(next', prev', INVALID_PFN, heads[b], lists[b]) {
      assert Linked(next, prev, INVALID_PFN, heads[b], lists[b]);
      assert v !in lists[b];
      LinkedFrame(next, prev, next', prev', INVALID_PFN, heads[b], lists[b]);
    }
  }

  lemma AddInfo(n: nat, info: map<nat, Info>, kind: map<nat, Kind>, lists: seq<seq<nat>>, v: nat, i: Info)
    requires InLists(n, info, kind, lists, INVALID_PFN) && v !in info && forall u :: u in info ==> u < INVALID_PFN
    ensures InLists(n, info[v := i], kind[v := Partial], lists, v)
  {
    forall b | 0 <= b < |lists| ensures OfBucket(info[v := i], kind[v := Partial], lists[b], b, v) {
      assert OfBucket(info, kind, lists[b], b, INVALID_PFN);
    }
  }

  lemma AddToBuckets(n: nat, s: Slabs, heads: seq<nat>, counts: seq<nat>, lists: seq<seq<nat>>,
                     v: nat, i: Info, node: map<nat, nat>, head: nat)
    requires Bucketed(n, s, heads, counts, lists, INVALID_PFN) && v !in s.info
    requires forall u :: u in s.info ==> u < INVALID_PFN
    ensures Bucketed(n, AddSlab(s, v, i, node, head), heads, counts, lists, v)
  {
    hide AllLinked, InLists, Listed;
    var s' := AddSlab(s, v, i, node, head);
    AddInfo(n, s.info, s.kind, lists, v, i);
    InListsSeparate(n, s'.info, s'.kind, lists, v);
    LinksElsewhere(s.next, s.prev, s'.next, s'.prev, heads, lists, v);
  }

  lemma DropInfo(n: nat, info: map<nat, Info>, kind: map<nat, Kind>, lists: seq<seq<nat>>, v: nat)
    requires InLists(n, info, kind, lists, v) && forall u :: u in info ==> u < INVALID_PFN
    ensures InLists(n, info - {v}, kind - {v}, lists, INVALID_PFN)
  {
    forall b | 0 <= b < |lists| ensures OfBucket(info - {v}, kind - {v}, lists[b], b, INVALID_PFN) {
      assert OfBucket(info, kind, lists[b], b, v);
    }
  }

  lemma DropFromBuckets(n: nat, s: Slabs, heads: seq<nat>, counts: seq<nat>, lists: seq<seq<nat>>, v: nat)
    requires Bucketed(n, s, heads, counts, lists, v)
    requires forall u :: u in s.info ==> u < INVALID_PFN
    ensures Bucketed(n, DropSlab(s, v), heads, counts, lists, INVALID_PFN)
  {
    hide AllLinked, InLists, Listed;
    var s' := DropSlab(s, v);
    DropInfo(n, s.info, s.kind, lists, v);
    InListsSeparate(n, s.info, s.kind, lists, v);
    LinksElsewhere(s.next, s.prev, s'.next, s'.prev, heads, lists, v);
  }

  // Tags and counts between calls.

  function KindFor(inuse: nat, total: nat): Kind {
    if inuse == 0 then Empty else if inuse == total then Full else Partial
  }

  /** The tag of every slab, `except` aside, says how full it is. */
  ghost predicate KindsOk(s: Slabs, except: nat) {
    forall v :: v in s.info && v != except ==>
      v in s.kind && v in s.inuse && s.kind[v] == KindFor(s.inuse[v], s.info[v].total)
  }

  /** No class has more than two empty slabs. */
  ghost predicate FewEmpty(n: nat, counts: seq<nat>) {
    |counts| == 3 * n && forall c: nat :: c < n ==> counts[BucketNo(c, Empty)] <= 2
  }

  /** Tags and links do not matter to the free lists. */
  lemma LinksOnly(g: Config, s: Slabs, s': Slabs, fl: map<nat, seq<nat>>)
    requires SlabsOk(g, s, fl) && s' == s.(kind := s'.kind, next := s'.next, prev := s'.prev)
    requires s'.kind.Keys == s.kind.Keys && s'.next.Keys == s.next.Keys && s'.prev.Keys == s.prev.Keys
    ensures SlabsOk(g, s', fl) && SameLive(g, s, fl, s', fl)
  {
    hide SlabOk;
    forall v | v in s'.info ensures v in fl && SlabOk(g, s', fl[v], v) {
      AtSlab(g, s, fl, v);
      OtherSlab(g, s, s', fl[v], v);
    }
    forall u: nat, x: nat
      ensures LiveAt(g, s', fl, u, x) <==> LiveAt(g, s, fl, u, x)
      ensures LiveAt(g, s, fl, u, x) ==> SameClass(s, s', u)
    {
    }
  }

  lemma PushKeys(g: Config, s: Slabs, fl: map<nat, seq<nat>>, v: nat, k: Kind, head: nat)
    requires SlabsOk(g, s, fl) && v in s.info && (head == INVALID_PFN || head in s.info)
    ensures SlabsOk(g, PushSlab(s, v, k, head), fl) && SameLive(g, s, fl, PushSlab(s, v, k, head), fl)
  {
    hide SlabOk, SameLive;
    var s' := PushSlab(s, v, k, head);
    assert v in s.kind.Keys && v in s.next.Keys && v in s.prev.Keys;
    assert head == INVALID_PFN || head in s.prev.Keys;
    assert s'.kind.Keys == s.kind.Keys && s'.next.Keys == s.next.Keys && s'.prev.Keys == s.prev.Keys;
    LinksOnly(g, s, s', fl);
  }

  lemma UnlinkKeys(g: Config, s: Slabs, fl: map<nat, seq<nat>>, v: nat)
    requires SlabsOk(g, s, fl) && v in s.info && v in s.next && v in s.prev
    requires s.prev[v] == INVALID_PFN || s.prev[v] in s.info
    requires s.next[v] == INVALID_PFN || s.next[v] in s.info
    ensures SlabsOk(g, UnlinkSlab(s, v), fl) && SameLive(g, s, fl, UnlinkSlab(s, v), fl)
  {
    hide SlabOk, SameLive;
    var s' := UnlinkSlab(s, v);
    assert s.prev[v] == INVALID_PFN || s.prev[v] in s.next.Keys;
    assert s.next[v] == INVALID_PFN || s.next[v] in s.prev.Keys;
    assert s'.next.Keys == s.next.Keys && s'.prev.Keys == s.prev.Keys;
    LinksOnly(g, s, s', fl);
  }

  /** The first of a list, and the neighbours of its members, are members. */
  lemma Neighbourhood(n: nat, s: Slabs, heads: seq<nat>, counts: seq<nat>, lists: seq<seq<nat>>, except: nat, b: nat)
    requires Bucketed(n, s, heads, counts, lists, except) && b < |lists|
    ensures |heads| == |lists| && (heads[b] == INVALID_PFN <==> lists[b] == [])
    ensures lists[b] != [] ==> heads[b] == lists[b][0]
    ensures forall v: nat :: v in lists[b] ==> v in s.info && v in s.next && v in s.prev && v in s.kind
    ensures forall v: nat :: v in lists[b] ==> s.next[v] == INVALID_PFN || s.next[v] in s.info
    ensures forall v: nat :: v in lists[b] ==> s.prev[v] == INVALID_PFN || s.prev[v] in s.info
  {
    assert Linked(s.next, s.prev, INVALID_PFN, heads[b], lists[b]) && OfBucket(s.info, s.kind, lists[b], b, except);
    var q := lists[b];
    forall v: nat | v in q
      ensures v in s.next && v in s.prev && (s.next[v] == INVALID_PFN || s.next[v] in q)
      ensures s.prev[v] == INVALID_PFN || s.prev[v] in q
    {
      var i :| 0 <= i < |q| && q[i] == v;
      assert s.next[q[i]] == At(q, i + 1, INVALID_PFN) && s.prev[q[i]] == At(q, i - 1, INVALID_PFN);
    }
  }
}
