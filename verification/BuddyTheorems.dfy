/** What the buddy invariant means over whole runs of calls. */
module BuddyTheorems {
  import opened Blocks
  import opened Frames
  import opened Options
  import opened ZoneRecords
  import opened BuddyAllocator

  /** Allocating and freeing again leaves exactly the free blocks there were. */
  method AllocThenFree(zone: Buddy, order: nat) returns (res: Option<nat>)
    requires zone.Valid()
    modifies zone, zone.mem
    ensures zone.Valid()
    ensures FreeBlocks(zone.blocks) == old(FreeBlocks(zone.blocks)) && zone.freePages == old(zone.freePages)
  {
    hide *;
    ghost var s := zone.blocks;
    zone.StartCoalesced();
    res := zone.Alloc(order);
    zone.StartCoalesced();
    if res.Some? {
      ghost var t, a := zone.blocks, Block(res.value, order, false);
      AllocatedFacts(zone.Zone(), zone.mem.r, s, t, a);
      zone.Free(res.value);
      zone.StartCoalesced();
      TookUndone(s, zone.blocks, t, a);
      FreeBlocksDetermined(zone.Zone(), s, zone.blocks);
      FreeCountSame(s, zone.blocks);
    }
  }

  lemma AllocatedFacts(z: Bounds, r: Records, s: set<Block>, t: set<Block>, a: Block)
    requires RecordsOk(z, r, t, INVALID_PFN) && Took(s, t, a) && z.hi <= INVALID_PFN
    requires forall p: nat :: InBlock(a, p) && p in r.next ==> r.next[p] == INVALID_PFN
    ensures a.head in r.order && r.order[a.head] == a.order && a in t && InnerCleared(r, a)
  {
  }

  lemma TookUndone(s: set<Block>, u: set<Block>, t: set<Block>, a: Block)
    requires Took(s, t, a) && Took(u, t, a)
    ensures forall p: nat :: PageFree(s, p) <==> PageFree(u, p)
  {
  }

  /** sets[i + 1] is sets[i] after freeing the i-th block. */
  ghost predicate FreeTrace(sets: seq<set<Block>>, freed: seq<Block>) {
    |sets| == |freed| + 1 && forall i :: 0 <= i < |freed| ==> Took(sets[i + 1], sets[i], freed[i])
  }

  ghost predicate InSome(freed: seq<Block>, p: nat) {
    exists i :: 0 <= i < |freed| && InBlock(freed[i], p)
  }

  /** After any run of frees, the free pages are those of before and of the freed blocks. */
  lemma {:induction false} FreeTracePages(sets: seq<set<Block>>, freed: seq<Block>, p: nat)
    requires FreeTrace(sets, freed)
    ensures PageFree(sets[|freed|], p) <==> PageFree(sets[0], p) || InSome(freed, p)
    decreases |freed|
  {
    if |freed| > 0 {
      var k := |freed| - 1;
      FreeTracePages(sets[..|freed|], freed[..k], p);
      assert Took(sets[k + 1], sets[k], freed[k]);
      assert InSome(freed, p) <==> InSome(freed[..k], p) || InBlock(freed[k], p) by {
        if InSome(freed[..k], p) {
          var i :| 0 <= i < k && InBlock(freed[..k][i], p);
          assert InBlock(freed[i], p);
        }
        if i :| 0 <= i < |freed| && InBlock(freed[i], p) && i < k {
          assert InBlock(freed[..k][i], p);
        }
      }
    }
  }

  /** Freeing the same blocks in any order gives the same free blocks. */
  lemma FreeOrderIrrelevant(z: Bounds, sets: seq<set<Block>>, freed: seq<Block>, sets': seq<set<Block>>,
                            freed': seq<Block>)
    requires FreeTrace(sets, freed) && FreeTrace(sets', freed') && sets[0] == sets'[0]
    requires forall b :: b in freed <==> b in freed'
    requires Tiled(z, sets[|freed|]) && Coalesced(z, sets[|freed|])
    requires Tiled(z, sets'[|freed'|]) && Coalesced(z, sets'[|freed'|])
    ensures FreeBlocks(sets[|freed|]) == FreeBlocks(sets'[|freed'|])
  {
    forall p: nat ensures PageFree(sets[|freed|], p) <==> PageFree(sets'[|freed'|], p) {
      FreeTracePages(sets, freed, p);
      FreeTracePages(sets', freed', p);
      SameMembers(freed, freed', p);
      SameMembers(freed', freed, p);
    }
    FreeBlocksDetermined(z, sets[|freed|], sets'[|freed'|]);
  }

  lemma SameMembers(freed: seq<Block>, freed': seq<Block>, p: nat)
    requires forall b :: b in freed ==> b in freed'
    ensures InSome(freed, p) ==> InSome(freed', p)
  {
    if i :| 0 <= i < |freed| && InBlock(freed[i], p) {
      assert freed[i] in freed';
      var j :| 0 <= j < |freed'| && freed'[j] == freed[i];
      assert InBlock(freed'[j], p);
    }
  }
}
