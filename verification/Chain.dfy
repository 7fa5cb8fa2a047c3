/** Doubly linked lists threaded through records: `next` and `prev` hold one
    link per record, `nil` ends a list. The buddy free lists and the slab
    buckets are such lists. */
module Chain {

  /** The i-th element, or nil off either end. */
  ghost function At(s: seq<nat>, i: int, nil: nat): nat {
    if 0 <= i < |s| then s[i] else nil
  }

  ghost predicate NoDup(s: seq<nat>) {
    forall i, j :: 0 <= i < j < |s| ==> s[i] != s[j]
  }

  /** head, next and prev spell out exactly the list s. */
  ghost predicate Linked(next: map<nat, nat>, prev: map<nat, nat>, nil: nat, head: nat, s: seq<nat>) {
    && head == At(s, 0, nil)
    && NoDup(s)
    && (forall i :: 0 <= i < |s| ==> s[i] != nil && s[i] in next && s[i] in prev)
    && (forall i {:trigger next[s[i]]} :: 0 <= i < |s| ==> next[s[i]] == At(s, i + 1, nil))
    && (forall i {:trigger prev[s[i]]} :: 0 <= i < |s| ==> prev[s[i]] == At(s, i - 1, nil))
  }

  /** Links outside the list do not matter. */
  lemma LinkedFrame(next: map<nat, nat>, prev: map<nat, nat>, next': map<nat, nat>, prev': map<nat, nat>,
                    nil: nat, head: nat, s: seq<nat>)
    requires Linked(next, prev, nil, head, s)
    requires forall x :: x in s ==> x in next' && x in prev' && next'[x] == next[x] && prev'[x] == prev[x]
    ensures Linked(next', prev', nil, head, s)
  {
  }

  // Pushing at the front.

  function PushNext(next: map<nat, nat>, x: nat, head: nat): map<nat, nat> {
    next[x := head]
  }

  function PushPrev(prev: map<nat, nat>, x: nat, head: nat, nil: nat): map<nat, nat> {
    if head != nil then prev[x := nil][head := x] else prev[x := nil]
  }

  lemma PushLinked(next: map<nat, nat>, prev: map<nat, nat>, nil: nat, head: nat, s: seq<nat>, x: nat)
    requires Linked(next, prev, nil, head, s)
    requires x !in s && x != nil
    ensures Linked(PushNext(next, x, head), PushPrev(prev, x, head, nil), nil, x, [x] + s)
  {
    var t := [x] + s;
    var n', p' := PushNext(next, x, head), PushPrev(prev, x, head, nil);
    forall i | 0 <= i < |t| ensures n'[t[i]] == At(t, i + 1, nil) && p'[t[i]] == At(t, i - 1, nil) {
      if i > 0 {
        assert t[i] == s[i - 1];
        assert next[s[i - 1]] == At(s, i, nil) && prev[s[i - 1]] == At(s, i - 2, nil);
      }
    }
  }

  // Removing anywhere.

  function RemoveNext(next: map<nat, nat>, prev: map<nat, nat>, x: nat, nil: nat): map<nat, nat>
    requires x in next && x in prev
  {
    if prev[x] != nil then next[x := nil][prev[x] := next[x]] else next[x := nil]
  }

  function RemovePrev(next: map<nat, nat>, prev: map<nat, nat>, x: nat, nil: nat): map<nat, nat>
    requires x in next && x in prev
  {
    if next[x] != nil then prev[x := nil][next[x] := prev[x]] else prev[x := nil]
  }

  ghost function Without(s: seq<nat>, k: nat): seq<nat>
    requires k < |s|
  {
    s[..k] + s[k + 1..]
  }

  ghost function IndexOf(s: seq<nat>, x: nat): (k: nat)
    requires x in s
    ensures k < |s| && s[k] == x
  {
    if s[0] == x then 0 else 1 + IndexOf(s[1..], x)
  }

  /** Dropping s[k] leaves every other element, once, in order. */
  lemma WithoutElements(s: seq<nat>, k: nat)
    requires NoDup(s) && k < |s|
    ensures NoDup(Without(s, k))
    ensures forall y :: y in Without(s, k) <==> y in s && y != s[k]
  {
    var t := Without(s, k);
    assert forall i :: 0 <= i < |t| ==> t[i] == s[if i < k then i else i + 1];
    forall y | y in s && y != s[k] ensures y in t {
      var j :| 0 <= j < |s| && s[j] == y;
      assert t[if j < k then j else j - 1] == y;
    }
  }

  lemma WithoutAt(s: seq<nat>, k: nat, i: int, nil: nat)
    requires k < |s|
    ensures At(Without(s, k), i, nil) == At(s, if i < k then i else i + 1, nil)
  {
  }

  /** Every other element keeps its successor, the one before s[k] inherits s[k]'s. */
  lemma RemoveNextAt(next: map<nat, nat>, prev: map<nat, nat>, nil: nat, head: nat, s: seq<nat>, k: nat, j: nat)
    requires Linked(next, prev, nil, head, s) && k < |s| && j < |s| && j != k
    ensures var n' := RemoveNext(next, prev, s[k], nil);
            s[j] in n' && n'[s[j]] == At(s, if j + 1 == k then k + 1 else j + 1, nil)
  {
    assert next[s[k]] == At(s, k + 1, nil) && prev[s[k]] == At(s, k - 1, nil) && next[s[j]] == At(s, j + 1, nil);
  }

  lemma RemovePrevAt(next: map<nat, nat>, prev: map<nat, nat>, nil: nat, head: nat, s: seq<nat>, k: nat, j: nat)
    requires Linked(next, prev, nil, head, s) && k < |s| && j < |s| && j != k
    ensures var p' := RemovePrev(next, prev, s[k], nil);
            s[j] in p' && p'[s[j]] == At(s, if j == k + 1 then k - 1 else j - 1, nil)
  {
    assert next[s[k]] == At(s, k + 1, nil) && prev[s[k]] == At(s, k - 1, nil) && prev[s[j]] == At(s, j - 1, nil);
  }

  /** The same successor and predecessor, read in the shortened list. */
  lemma Reindex(s: seq<nat>, k: nat, i: nat, nil: nat)
    requires k < |s| && i < |s| - 1
    ensures var j, t := if i < k then i else i + 1, Without(s, k);
            && t[i] == s[j]
            && At(s, if j + 1 == k then k + 1 else j + 1, nil) == At(t, i + 1, nil)
            && At(s, if j == k + 1 then k - 1 else j - 1, nil) == At(t, i - 1, nil)
  {
    WithoutAt(s, k, i + 1, nil);
    WithoutAt(s, k, i - 1, nil);
  }

  ghost predicate LinksAt(n: map<nat, nat>, p: map<nat, nat>, x: nat, after: nat, before: nat) {
    x in n && x in p && n[x] == after && p[x] == before
  }

  lemma RemoveStep(next: map<nat, nat>, prev: map<nat, nat>, nil: nat, head: nat, s: seq<nat>, k: nat, j: nat)
    requires Linked(next, prev, nil, head, s) && k < |s| && j < |s| && j != k
    ensures LinksAt(RemoveNext(next, prev, s[k], nil), RemovePrev(next, prev, s[k], nil), s[j],
                    At(s, if j + 1 == k then k + 1 else j + 1, nil), At(s, if j == k + 1 then k - 1 else j - 1, nil))
  {
    RemoveNextAt(next, prev, nil, head, s, k, j);
    RemovePrevAt(next, prev, nil, head, s, k, j);
  }

  lemma LinkedFromSteps(n: map<nat, nat>, p: map<nat, nat>, nil: nat, head: nat, s: seq<nat>)
    requires NoDup(s) && nil !in s && head == At(s, 0, nil)
    requires forall i :: 0 <= i < |s| ==> LinksAt(n, p, s[i], At(s, i + 1, nil), At(s, i - 1, nil))
    ensures Linked(n, p, nil, head, s)
  {
  }

  lemma RemoveLinked(next: map<nat, nat>, prev: map<nat, nat>, nil: nat, head: nat, s: seq<nat>, k: nat)
    requires Linked(next, prev, nil, head, s) && k < |s|
    ensures Linked(RemoveNext(next, prev, s[k], nil), RemovePrev(next, prev, s[k], nil), nil,
                   if prev[s[k]] != nil then head else next[s[k]], Without(s, k))
  {
    WithoutElements(s, k);
    var n', p', t := RemoveNext(next, prev, s[k], nil), RemovePrev(next, prev, s[k], nil), Without(s, k);
    forall i | 0 <= i < |t| ensures LinksAt(n', p', t[i], At(t, i + 1, nil), At(t, i - 1, nil)) {
      RemoveStep(next, prev, nil, head, s, k, if i < k then i else i + 1);
      Reindex(s, k, i, nil);
    }
    assert next[s[k]] == At(s, k + 1, nil) && prev[s[k]] == At(s, k - 1, nil);
    LinkedFromSteps(n', p', nil, if prev[s[k]] != nil then head else next[s[k]], t);
  }
}
