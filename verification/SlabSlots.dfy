/** The object slots of a slab and the free list threaded through the free ones. */
module SlabSlots {
  import opened Chain
  import opened Dyadic
  import opened SlabLayout

  /** n slots of a size, from address a on. */
  ghost function Slots(a: nat, size: nat, n: nat): seq<nat>
    decreases n
  {
    if n == 0 then [] else [a] + Slots(a + size, size, n - 1)
  }

  /** The slots lie one behind the other in [a, a + n * size). */
  lemma {:induction false} SlotBounds(a: nat, size: nat, n: nat, x: nat)
    requires x in Slots(a, size, n)
    ensures a <= x && x + size <= a + n * size
    decreases n
  {
    assert n * size == size + (n - 1) * size;
    if x == a {
      Scale(0, n - 1, size);
    } else {
      SlotBounds(a + size, size, n - 1, x);
    }
  }

  /** Two slots do not overlap. */
  lemma {:induction false} SlotsDisjoint(a: nat, size: nat, n: nat, x: nat, y: nat)
    requires x in Slots(a, size, n) && y in Slots(a, size, n) && x != y
    ensures x + size <= y || y + size <= x
    decreases n
  {
    if x == a {
      SlotBounds(a + size, size, n - 1, y);
    } else if y == a {
      SlotBounds(a + size, size, n - 1, x);
    } else {
      SlotsDisjoint(a + size, size, n - 1, x, y);
    }
  }

  lemma {:induction false} SlotsShape(a: nat, size: nat, n: nat)
    requires size > 0
    ensures |Slots(a, size, n)| == n && NoDup(Slots(a, size, n))
    decreases n
  {
    if n > 0 {
      SlotsShape(a + size, size, n - 1);
      var rest := Slots(a + size, size, n - 1);
      forall x | x in rest ensures x != a {
        SlotBounds(a + size, size, n - 1, x);
      }
      assert forall i :: 0 <= i < |rest| ==> rest[i] in rest;
    }
  }

  lemma {:induction false} SlotsSnoc(a: nat, size: nat, n: nat)
    ensures Slots(a, size, n + 1) == Slots(a, size, n) + [a + n * size]
    decreases n
  {
    if n > 0 {
      assert n * size == size + (n - 1) * size;
      SlotsSnoc(a + size, size, n - 1);
    }
  }

  /** What `free` checks of an address, the bound of the last whole slot aside. */
  lemma {:induction false} SlotIffOnGrid(a: nat, size: nat, n: nat, x: nat)
    requires size > 0
    ensures x in Slots(a, size, n) <==> a <= x < a + n * size && (x - a) % size == 0
    decreases n
  {
    if n > 0 {
      assert n * size == size + (n - 1) * size;
      SlotIffOnGrid(a + size, size, n - 1, x);
      Scale(0, n - 1, size);
      if x >= a + size {
        ModAddOnce(x - a - size, size);
      } else if x >= a {
        ModOfMultiple(0, size, x - a);
      }
    }
  }

  // The free list.

  /** From head on, the nodes spell out s; 0 ends the list. */
  ghost predicate FreeChain(node: map<nat, nat>, head: nat, s: seq<nat>)
    decreases |s|
  {
    if s == [] then head == 0
    else head == s[0] != 0 && head in node && FreeChain(node, node[head], s[1..])
  }

  /** Nodes outside the list do not matter. */
  lemma {:induction false} FreeChainFrame(node: map<nat, nat>, node': map<nat, nat>, head: nat, s: seq<nat>)
    requires FreeChain(node, head, s) && forall x :: x in s && x in node ==> x in node' && node'[x] == node[x]
    ensures FreeChain(node', head, s)
    decreases |s|
  {
    if s != [] {
      FreeChainFrame(node, node', node[head], s[1..]);
    }
  }

  /** A node in front of the list. */
  lemma FreeChainPush(node: map<nat, nat>, head: nat, s: seq<nat>, x: nat)
    requires FreeChain(node, head, s) && x !in s && x != 0
    ensures FreeChain(node[x := head], x, [x] + s)
  {
    FreeChainFrame(node, node[x := head], head, s);
    assert ([x] + s)[1..] == s;
  }

  /** `build_freelist`: links all slots in ascending order. */
  method BuildFreelist(node: map<nat, nat>, base: nat, size: nat, count: nat) returns (node': map<nat, nat>, head: nat)
    requires base > 0 && size > 0
    ensures FreeChain(node', head, Slots(base, size, count))
    ensures forall x :: x in node && x !in Slots(base, size, count) ==> x in node' && node'[x] == node[x]
  {
    hide Slots, FreeChain;
    node', head := node, 0;
    var i: nat := count;
    NoSlots(node, base + count * size, size);
    while i > 0
      invariant i <= count && FreeChain(node', head, Slots(base + i * size, size, count - i))
      invariant forall x :: x in node && x !in Slots(base + i * size, size, count - i) ==>
                  x in node' && node'[x] == node[x]
    {
      i := i - 1;
      var cur := base + i * size;
      OneSlotMore(base, size, count, i);
      FreeChainPush(node', head, Slots(base + (i + 1) * size, size, count - i - 1), cur);
      node' := node'[cur := head];
      head := cur;
    }
    assert base + 0 * size == base;
  }

  lemma NoSlots(node: map<nat, nat>, a: nat, size: nat)
    ensures Slots(a, size, 0) == [] && FreeChain(node, 0, Slots(a, size, 0))
  {
  }

  lemma OneSlotMore(base: nat, size: nat, count: nat, i: nat)
    requires i < count && base > 0 && size > 0
    ensures var cur, rest := base + i * size, Slots(base + (i + 1) * size, size, count - i - 1);
            cur > 0 && cur !in rest && Slots(cur, size, count - i) == [cur] + rest
  {
    var cur := base + i * size;
    assert (i + 1) * size == i * size + size;
    var rest := Slots(cur + size, size, count - i - 1);
    if cur in rest {
      SlotBounds(cur + size, size, count - i - 1, cur);
    }
  }
}
