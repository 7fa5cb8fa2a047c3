/** The kernel object table: 4096 slots, each with a 32-bit generation that makes
    old handles stop resolving, and a hint below which no slot is free. */
module ObjectTables {
  import opened Options

  const MAX_OBJECTS: nat := 4096
  const GENERATIONS: nat := 0x1_0000_0000

  datatype KernelObjType = VSpace | Endpoint | Frame | Thread | Irq | CNode

  /** A kernel object: its type and the task it belongs to. */
  datatype KernelObject = KernelObject(objType: KernelObjType, task: nat)

  datatype Slot = Slot(generation: nat, obj: Option<KernelObject>)

  datatype HandleRef = HandleRef(index: nat, generation: nat)

  /** Subtracting less than a full cycle of generations never gives the same one. */
  lemma GenerationsDiffer(older: nat, newer: nat)
    requires older < newer < older + GENERATIONS
    ensures older % GENERATIONS != newer % GENERATIONS
  {
    assert newer == GENERATIONS * (newer / GENERATIONS) + newer % GENERATIONS;
    assert older == GENERATIONS * (older / GENERATIONS) + older % GENERATIONS;
  }

  class ObjectTable {
    var slots: array<Slot>
    var freeHead: nat

    /** How often each slot has been emptied, and which object each slot has held
        after how many emptyings. */
    ghost var epochs: seq<nat>
    ghost var issued: map<(nat, nat), KernelObject>

    ghost predicate Shape()
      reads this, slots
    {
      && slots.Length == MAX_OBJECTS && |epochs| == MAX_OBJECTS && freeHead <= MAX_OBJECTS
      && forall i :: 0 <= i < MAX_OBJECTS ==> slots[i].generation == epochs[i] % GENERATIONS
    }

    ghost predicate Valid()
      reads this, slots
    {
      && Shape()
      // every slot below the hint is occupied
      && (forall i :: 0 <= i < freeHead ==> slots[i].obj.Some?)
      // an occupied slot holds the object issued for its current epoch
      && (forall i :: 0 <= i < MAX_OBJECTS && slots[i].obj.Some? ==>
            (i, epochs[i]) in issued && issued[(i, epochs[i])] == slots[i].obj.value)
      // nothing has been issued for the future, or for the present of an empty slot
      && (forall i, e :: (i, e) in issued ==>
            i < MAX_OBJECTS && (e < epochs[i] || (e == epochs[i] && slots[i].obj.Some?)))
    }

    constructor ()
      ensures Valid() && fresh(slots) && issued == map[] && forall i :: 0 <= i < MAX_OBJECTS ==> slots[i].obj.None?
    {
      slots := new Slot[MAX_OBJECTS](_ => Slot(0, None));
      freeHead := 0;
      epochs := seq(MAX_OBJECTS, _ => 0);
      issued := map[];
    }

    /** Stores the object in the lowest free slot; fails exactly when all are taken. */
    method Insert(obj: KernelObject) returns (r: Option<HandleRef>)
      requires Valid()
      modifies this, slots
      ensures Valid() && slots == old(slots) && epochs == old(epochs)
      ensures r == None <==> forall i :: 0 <= i < MAX_OBJECTS ==> old(slots[i].obj).Some?
      ensures r == None ==> slots[..] == old(slots[..]) && issued == old(issued)
      ensures r.Some? ==>
                var k := r.value.index;
                && k < MAX_OBJECTS && old(slots[k].obj).None?
                && (forall i :: 0 <= i < k ==> old(slots[i].obj).Some?)
                && r.value.generation == epochs[k] % GENERATIONS
                && slots[..] == old(slots[..])[k := Slot(old(slots[k].generation), Some(obj))]
                && (k, epochs[k]) !in old(issued) && issued == old(issued)[(k, epochs[k]) := obj]
    {
      for i := freeHead to MAX_OBJECTS
        invariant forall j :: 0 <= j < i ==> slots[j].obj.Some?
        invariant slots[..] == old(slots[..]) && Valid() && slots == old(slots)
        invariant issued == old(issued) && epochs == old(epochs) && freeHead == old(freeHead)
      {
        if slots[i].obj.None? {
          var generation := slots[i].generation;
          slots[i] := Slot(generation, Some(obj));
          freeHead := i + 1;
          issued := issued[(i, epochs[i]) := obj];
          return Some(HandleRef(i, generation));
        }
      }
      return None;
    }

    /** The object a handle names, if its generation is the slot's. */
    function Get(h: HandleRef): Option<KernelObject>
      requires slots.Length == MAX_OBJECTS && h.index < MAX_OBJECTS
      reads this, slots
    {
      if slots[h.index].generation == h.generation then slots[h.index].obj else None
    }

    /** Empties the slot of a handle that resolves, and moves its generation on. */
    method Remove(h: HandleRef) returns (r: Option<KernelObject>)
      requires Valid() && h.index < MAX_OBJECTS
      modifies this, slots
      ensures Valid() && slots == old(slots) && issued == old(issued)
      ensures r == old(Get(h))
      ensures r == None ==> slots[..] == old(slots[..]) && epochs == old(epochs)
      ensures r.Some? ==> epochs == old(epochs)[h.index := old(epochs[h.index]) + 1]
      ensures r.Some? ==> slots[..] == old(slots[..])[h.index := Slot(epochs[h.index] % GENERATIONS, None)]
    {
      var slot := slots[h.index];
      if slot.generation == h.generation && slot.obj.Some? {
        if h.index <= freeHead {
          freeHead := h.index;
        }
        NextGeneration(epochs[h.index]);
        epochs := epochs[h.index := epochs[h.index] + 1];
        slots[h.index] := Slot(if slot.generation == GENERATIONS - 1 then 0 else slot.generation + 1, None);
        return slot.obj;
      }
      return None;
    }

    /** An issued handle resolves to its object as long as that was not removed; once
        it was, the handle resolves exactly when the slot is occupied again after
        a whole number of full cycles of 2^32 removals, so never before that. */
    lemma HandleResolves(i: nat, e: nat)
      requires Valid() && (i, e) in issued
      ensures e == epochs[i] ==> Get(HandleRef(i, e % GENERATIONS)) == Some(issued[(i, e)])
      ensures Get(HandleRef(i, e % GENERATIONS)).Some? <==>
              slots[i].obj.Some? && e % GENERATIONS == epochs[i] % GENERATIONS
      ensures e < epochs[i] < e + GENERATIONS ==> Get(HandleRef(i, e % GENERATIONS)) == None
    {
      if e < epochs[i] < e + GENERATIONS {
        GenerationsDiffer(e, epochs[i]);
      }
    }
  }

  lemma NextGeneration(e: nat)
    ensures (e + 1) % GENERATIONS == if e % GENERATIONS == GENERATIONS - 1 then 0 else e % GENERATIONS + 1
  {
  }
}
