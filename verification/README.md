# Anvil kernel: a Dafny model of its allocators, queues and message passing

Anvil is a microkernel for amd64 written in Rust. This project models the parts of
the kernel that manage physical memory, address spaces, tasks and messages, and proves
what they keep over every run.

**Physical memory.** `Regions` and `Memblock` model the boot memory map: three arrays of
at most 64 regions that are compacted, sorted, merged and subtracted in place. `SparseMem`,
`SparseBoot` and `Bump` model the frame table, one record per 4 KiB page frame in sections
of 128 MiB, built inside a range that is taken from the memory it describes. `PfnRuns`
models the resumable iterator over runs of usable frames. `Zones` builds a DMA zone below
16 MiB and a high zone above it, each a buddy allocator (`Dyadic`, `Blocks`, `Chain`,
`FreeLists`, `ZoneRecords`, `Allocation`, `Buddy`) whose lists are threaded through the
shared frame records. The slab allocator (`SlabLayout`, `SlabSlots`, `SlabState`,
`SlabBuckets`, `SlabFrames`, `Slab`, `SlabChecks`) puts objects of fourteen sizes into blocks of the
high zone and reuses the list link of allocated frames to find a slab from an address;
`KernelHeap` is `kmalloc`, `kfree` and the global allocator on top. `Boot` runs all of
this from a memory map to an empty heap.

A buddy zone is described by a set of aligned disjoint blocks; the frame tags, the doubly
linked lists and the free-page count are proved to agree with it. Full coalescing is an
invariant, and it makes the free blocks a function of the free pages. The heap is described
by the set of live owners, each an object of a slab or a block of pages: every allocation
adds one whose bytes no other has, every `kfree` removes exactly the owner of the pointer.

**Tasks.** `Runqueue` models the Chase-Lev deque of each CPU as interleaved atomic steps
of one owner, any number of thieves and any number of readers of its length, under
sequential consistency. `Scheduler` is a
machine whose steps are the scheduler entry points; `SchedulerOps` has the entry points
themselves, with their loops, and proves that each does its step. `AddrSpace` models
regions, page table and the page-fault handler of an address space.

**Messages.** `WaitQueue` is the ring of waiting receivers with tombstones, `ObjectTable`
the table of kernel objects with generations, `Ipc` the endpoint manager and the machine of
tasks that send, receive, call and reply, in any interleaving of the turns of the manager's
lock and of the steps between them.

Where the code and a comment disagree, the model follows the code: the bit set of
`count_present_sections` has 4096 entries although its comment says 512.

Some properties one might expect are false of the code. Each has a witness and an exact
condition.

- A zero-size `map` at the base of a mapped region orphans its pages (`ZeroSizeMapOrphans`;
  `Map` says exactly when).
- A steal loses a task when more than four other CPUs can be stolen from (`StealCanDrop` has
  a run; `LossExactly` says exactly when, `LossNeedsSixCpus` on how many CPUs). The task
  stays in the task table, ready and in no queue.
- `len` is no bound on what a steal will find, and can wrap without a pop
  (`LenWrapsWithoutPop`; `LenAnswers` says what it is; `StealAfterAnyLen` that no steal goes
  wrong for it).
- Above 512 GiB the frame table can outgrow its reservation (`TableCanOverrun`; `Enough`
  says exactly when, and `NothingUncounted` that it never does below).
- Destroying an endpoint leaves its receivers asleep for good (`DestroyStrands`; `StrandedExactly` says exactly
  when).
- A second free of an object passes the checks of `free` and ruins the free list of its
  slab, and so does the address of the slot cut off at the end of a slab (`FreeTwice`,
  `SecondFreePasses`, `CutOffPasses`; `PlausibleExactly` and `FreeExactly` say exactly when).
- A receiver can be awakened before it sleeps (`WakeBeforeSleep`); it is then current and
  queued at once, and two CPUs can run it (`EarlyAwakeningRunsTwice`; `PlacedExactly` says
  exactly when tasks stay in one place).

## Model

| member | source | states |
|---|---|---|
| `Runqueue.RunShape` | kernel/src/arch/amd64/scheduler/cpu_local.rs:24-126 | After every interleaving of the atomic steps of one owner, any number of thieves and any number of readers of the length, the indices, the slots in between and what owner and thieves have read so far fit together |
| `Runqueue.ExactlyOnce` | kernel/src/arch/amd64/scheduler/cpu_local.rs:24-108 | For every interleaving and every task: pushes of it equal returns of it plus its copies still queued plus its copies in the hand of the owner; nothing is lost or duplicated |
| `Runqueue.PushRefines` | kernel/src/arch/amd64/scheduler/cpu_local.rs:24-36 | A step of push leaves the queue as it is, or appends the task when it publishes the new bottom |
| `Runqueue.PopRefines` | kernel/src/arch/amd64/scheduler/cpu_local.rs:38-85 | A step of pop leaves the queue as it is, or takes exactly the last task at the point where it wins it |
| `Runqueue.ThiefRefines` | kernel/src/arch/amd64/scheduler/cpu_local.rs:87-108 | A step of steal leaves the queue as it is, or takes exactly the first task at its successful compare-exchange |
| `Runqueue.StealTakesOldest` | kernel/src/arch/amd64/scheduler/cpu_local.rs:87-108 | In every reachable state a successful steal returns the oldest queued task, never a slot overwritten since it was read |
| `Runqueue.PopTakesNewest` | kernel/src/arch/amd64/scheduler/cpu_local.rs:38-85 | In every reachable state a successful pop returns the newest queued task |
| `Runqueue.PopEmptyIsTrue` | kernel/src/arch/amd64/scheduler/cpu_local.rs:38-85 | In every schedule a pop that ends without a task ends on an empty queue; and where pop gives up, it does end so |
| `Runqueue.PopAlone` | kernel/src/arch/amd64/scheduler/cpu_local.rs:38-85 | From every reachable state with the owner idle, an undisturbed pop hands back the newest queued task and leaves the others, or changes nothing exactly when there is none |
| `Runqueue.StealEmptyIsTrue` | kernel/src/arch/amd64/scheduler/cpu_local.rs:87-108 | In every schedule a steal that gives up after reading bottom finds the queue empty, or holding one task that the owner is popping; one whose compare-exchange takes nothing finds that top has moved |
| `Runqueue.PanicExactlyWhenFull` | kernel/src/arch/amd64/scheduler/cpu_local.rs:24-36 | push panics exactly when 1024 tasks are queued |
| `Runqueue.LenAnswers` | kernel/src/arch/amd64/scheduler/cpu_local.rs:121-125 | With any steps of everyone else between its two loads, len answers the queue length at its first load, less one if the owner was then contesting the last task, less what left the front in between; it wraps exactly when top has passed the bottom it read, and otherwise never exceeds the length at the first load |
| `Runqueue.LenWrapsWithoutPop` | kernel/src/arch/amd64/scheduler/cpu_local.rs:121-125 | A wrap with the owner idle at both loads: one task queued, bottom read, that task stolen, another pushed and stolen, top read |
| `Runqueue.StealAfterAnyLen` | kernel/src/arch/amd64/scheduler/cpu_local.rs:87-125 | In every schedule, those with readers of the length included, a step of a steal changes nothing of queue and loot, or takes exactly the oldest queued task |
| `Dyadic.BuddyShape` | kernel/src/arch/amd64/memory/pmm/buddy.rs:81-88 | The head with its order digit flipped is the other half of the block twice the size |
| `Dyadic.FlipRelative` | kernel/src/arch/amd64/memory/pmm/buddy.rs:75-88 | With the base aligned, the buddy computed relative to the zone base is the absolute one |
| `Blocks.FreeRunInOneBlock` | kernel/src/arch/amd64/memory/pmm/buddy.rs:171-191 | In a coalesced zone every aligned free run lies inside one free block |
| `Blocks.FreeBlocksAreMaximalRuns` | kernel/src/arch/amd64/memory/pmm/buddy.rs:171-191 | In a coalesced zone the free blocks are exactly the maximal aligned runs of free pages |
| `Blocks.FreeBlocksDetermined` | kernel/src/arch/amd64/memory/pmm/buddy.rs:171-253 | Two coalesced zones with the same free pages have the same free blocks |
| `Blocks.RunExistsIffBlockExists` | kernel/src/arch/amd64/memory/pmm/buddy.rs:193-201 | An aligned free run of an order exists exactly when a free block of at least that order does |
| `Blocks.MergeCoalesced` | kernel/src/arch/amd64/memory/pmm/buddy.rs:171-191 | Merging a block with its free buddy keeps every other pair of buddies apart |
| `Blocks.SplitCoalesced` | kernel/src/arch/amd64/memory/pmm/buddy.rs:205-215 | Splitting an allocated block, freeing the upper half, creates no pair of free buddies |
| `BuddyAllocator.MaxBlockOrderFor` | kernel/src/arch/amd64/memory/pmm/buddy.rs:24-35 | The order is the largest one that the alignment of the start, the length left and the limit 11 allow |
| `BuddyAllocator.Buddy.constructor` | kernel/src/arch/amd64/memory/pmm/buddy.rs:45-59 | A new zone: empty lists, no free pages, largest order the logarithm of its size up to 11 |
| `BuddyAllocator.Buddy.BuddyFacts` | kernel/src/arch/amd64/memory/pmm/buddy.rs:81-106 | The tag test finds the buddy exactly when it is a free block of the same order in the zone |
| `BuddyAllocator.Buddy.PushFree` | kernel/src/arch/amd64/memory/pmm/buddy.rs:255-271 | The list of the order gets the block at its front; all lists stay well formed and hold exactly the free blocks |
| `BuddyAllocator.Buddy.PopFree` | kernel/src/arch/amd64/memory/pmm/buddy.rs:273-293 | The list of the order loses its first block, if it has one; all lists stay well formed |
| `BuddyAllocator.Buddy.RemoveFree` | kernel/src/arch/amd64/memory/pmm/buddy.rs:295-319 | A block is taken out of the middle of its list; all lists stay well formed |
| `BuddyAllocator.Buddy.MarkBlockFreeHead` | kernel/src/arch/amd64/memory/pmm/buddy.rs:321-348 | Exactly the records of the block are rewritten: tag and order at the head, cleared inside |
| `BuddyAllocator.Buddy.MergeWithBuddy` | kernel/src/arch/amd64/memory/pmm/buddy.rs:182-189 | Two free buddies become one free block of the next order, in records, lists and block set |
| `BuddyAllocator.Buddy.CoalesceUp` | kernel/src/arch/amd64/memory/pmm/buddy.rs:171-191 | A zone coalesced but for one block becomes fully coalesced; no page changes between free and allocated |
| `BuddyAllocator.Buddy.Reset` | kernel/src/arch/amd64/memory/pmm/buddy.rs:108-123 | The zone is valid and empty; exactly the records of its range are cleared |
| `BuddyAllocator.Buddy.InsertBlockBoot` | kernel/src/arch/amd64/memory/pmm/buddy.rs:157-169 | A new free block joins; its pages become free, the zone stays valid and coalesced |
| `BuddyAllocator.Buddy.AddUsableRun` | kernel/src/arch/amd64/memory/pmm/buddy.rs:125-155 | Exactly the pages of the run that lie in the zone become free; tiling, tags, lists, count and coalescing are kept |
| `BuddyAllocator.Buddy.FindOrder` | kernel/src/arch/amd64/memory/pmm/buddy.rs:198-199 | The smallest order from the requested one up whose list is not empty, or none |
| `BuddyAllocator.Buddy.SplitBuddy` | kernel/src/arch/amd64/memory/pmm/buddy.rs:209-210 | The split expect never fails: the buddy of the upper half is in range and is the upper half |
| `BuddyAllocator.Buddy.SplitHeld` | kernel/src/arch/amd64/memory/pmm/buddy.rs:206-215 | Splitting the held block down frees exactly the upper halves |
| `BuddyAllocator.Buddy.MarkBlockAllocated` | kernel/src/arch/amd64/memory/pmm/buddy.rs:350-357 | Ends the exception for the block held back: records, lists and blocks of the zone agree again without exception, the head reads Allocated with the order, no page of the block is linked, and no other record changes |
| `BuddyAllocator.Buddy.Alloc` | kernel/src/arch/amd64/memory/pmm/buddy.rs:193-220 | None exactly when the order is too large or no aligned run of that size is free, and then nothing changes; otherwise exactly one aligned block of free pages becomes allocated, its pages unlinked, and only records of free pages are touched |
| `BuddyAllocator.Buddy.Free` | kernel/src/arch/amd64/memory/pmm/buddy.rs:222-253 | Exactly the pages of the allocated block become free again and the zone is coalesced |
| `BuddyTheorems.AllocThenFree` | kernel/src/arch/amd64/memory/pmm/buddy.rs:193-253 | Allocating and freeing again leaves the same free blocks and the same count |
| `BuddyTheorems.FreeTracePages` | kernel/src/arch/amd64/memory/pmm/buddy.rs:222-253 | After a sequence of frees the free pages are the old ones plus those of the freed blocks |
| `BuddyTheorems.FreeOrderIrrelevant` | kernel/src/arch/amd64/memory/pmm/buddy.rs:222-253 | Freeing the same blocks in two orders leaves the same free blocks |
| `MemblockTable.CompactList` | kernel/src/arch/amd64/memory/pmm/memblock.rs:99-114 | Drops exactly the empty regions, in order, in place |
| `MemblockTable.SortByBase` | kernel/src/arch/amd64/memory/pmm/memblock.rs:116-128 | The prefix becomes its insertion sort by base; the rest of the array is untouched |
| `Regions.SortIsSorted` | kernel/src/arch/amd64/memory/pmm/memblock.rs:116-128 | The insertion sort is sorted and a permutation |
| `MemblockTable.MergeOverlapsSameKind` | kernel/src/arch/amd64/memory/pmm/memblock.rs:130-157 | The prefix becomes the merge of neighbours of one kind that touch or overlap |
| `MemblockTable.CutInto` | kernel/src/arch/amd64/memory/pmm/memblock.rs:168-215 | Writes the pieces of one memory region that the reserved regions leave, or fails exactly when the output is full |
| `MemblockTable.SubtractReserved` | kernel/src/arch/amd64/memory/pmm/memblock.rs:159-218 | The output is the list of all pieces left, or an error exactly when it has more than 64 |
| `Regions.SubtractCovers` | kernel/src/arch/amd64/memory/pmm/memblock.rs:159-218 | The pieces cover exactly the memory bytes that no reserved region covers, also when reserved regions of different kinds overlap |
| `Regions.CoversMeans` | kernel/src/arch/amd64/memory/pmm/memblock.rs:31-45 | A list covers exactly the bytes from the base of one of its regions up to base plus size, cut at the largest address |
| `Regions.NormalIsDifference` | kernel/src/arch/amd64/memory/pmm/memblock.rs:313-341 | The normal form is sorted, non-empty, strictly separated and covers exactly memory minus reserved |
| `Regions.NormalIdempotent` | kernel/src/arch/amd64/memory/pmm/memblock.rs:313-341 | Normalising a second time changes nothing |
| `Regions.NormalTwoSteps` | kernel/src/arch/amd64/memory/pmm/memblock.rs:313-341 | Reserving in two steps gives the same list as reserving in one |
| `Regions.CanonicalUnique` | kernel/src/arch/amd64/memory/pmm/memblock.rs:313-341 | There is only one sorted, strictly separated list for a set of bytes |
| `Regions.CanonicalIsShortest` | kernel/src/arch/amd64/memory/pmm/memblock.rs:313-341 | No list that covers the same bytes is shorter than the normal form |
| `MemblockTable.Memblock.constructor` | kernel/src/arch/amd64/memory/pmm/memblock.rs:232-241 | All three lists are empty |
| `MemblockTable.Memblock.AddMemory` | kernel/src/arch/amd64/memory/pmm/memblock.rs:266-287 | Each error in the order tested, or the region appended to the memory and the raw list |
| `MemblockTable.Memblock.AddReserved` | kernel/src/arch/amd64/memory/pmm/memblock.rs:289-310 | Each error in the order tested, or the region appended to the reserved list |
| `MemblockTable.Memblock.Normalize` | kernel/src/arch/amd64/memory/pmm/memblock.rs:313-341 | The memory list becomes the normal form, or OutOfSlots exactly when that has more than 64 regions; then the memory list still covers the same bytes |
| `MemblockTable.NormalizeMeaning` | kernel/src/arch/amd64/memory/pmm/memblock.rs:313-341 | What a caller gets: exactly memory minus reserved; and if normalize fails, no list of 64 regions could have held it |
| `MemblockTable.Memblock.MaxPhysAddr` | kernel/src/arch/amd64/memory/pmm/memblock.rs:258-264 | One past the last byte of memory ever added, or 0 |
| `Align.AlignUpPow2` | kernel/src/arch/amd64/memory/misc.rs:4-6 | For a power of two the mask rounds up to the least multiple |
| `Align.MaskSplit` | kernel/src/arch/amd64/memory/misc.rs:4-6 | For other sizes the mask clears the low digits of the size and masks the rest digit by digit |
| `BumpAllocator.Bump.Alloc` | kernel/src/arch/amd64/memory/pmm/bump_alloc.rs:20-39 | The lowest aligned range left, so allocations never overlap; fails exactly for size 0, an alignment that is no power of two, no room, or the null address |
| `SparseMemory.SparseMem.EnsureSection` | kernel/src/arch/amd64/memory/pmm/sparsemem.rs:239-269 | The section gets absent records for all its frames at the next bump address; fails exactly when they do not fit |
| `SparseMemory.SparseMem.MarkRange` | kernel/src/arch/amd64/memory/pmm/sparsemem.rs:271-318 | Exactly the frames in present sections whose pages meet the bytes take the state; sections are added when asked, each charged once |
| `SparseMemory.SparseMem.MarkMemory` | kernel/src/arch/amd64/memory/pmm/sparsemem.rs:196-201 | Exactly the sections that meet memory are present and exactly the frames that meet it are Usable, or room ran out with a section left over |
| `SparseMemory.SparseMem.MarkReserved` | kernel/src/arch/amd64/memory/pmm/sparsemem.rs:203-208 | Exactly the frames that meet a reserved region become Reserved; no section appears |
| `SparseMemory.SparseMem.ComputeMaxPresentPfn` | kernel/src/arch/amd64/memory/pmm/sparsemem.rs:213-237 | One past the last frame that is not absent, or 0 |
| `SparseMemory.SparseMem.InitFromMemblock` | kernel/src/arch/amd64/memory/pmm/sparsemem.rs:171-211 | No bump allocation fails exactly when the room holds the section table and the records of every section that meets memory; then the state of every frame is what the lists say, a frame is Usable exactly when its page meets memory and nothing reserved, and the record arrays are disjoint and inside the room |
| `SparseBoot.CountPresentSections` | kernel/src/arch/amd64/memory/pmm/sparsemem.rs:331-356 | The number of sections below 512 GiB that meet memory |
| `SparseBoot.FindSuitableRegion` | kernel/src/arch/amd64/memory/pmm/sparsemem.rs:370-390 | The first region in list order with room from its first page boundary on, or None exactly when there is none |
| `SparseBoot.ReserveForSparsemem` | kernel/src/arch/amd64/memory/pmm/sparsemem.rs:392-400 | The range leaves the memory list and joins the reserved one; fails exactly when a list would need more than 64 slots |
| `SparseBoot.Enough` | kernel/src/arch/amd64/memory/pmm/sparsemem.rs:358-368 | The bytes computed beforehand suffice exactly when no more sections meet memory after the reservation than were counted before it, for every alignment of the start |
| `SparseBoot.TableCanOverrun` | kernel/src/arch/amd64/memory/pmm/sparsemem.rs:331-368 | With one TiB of memory from address 0 on the reservation succeeds, and more sections meet memory after it than were counted |
| `SparseBoot.NothingUncounted` | kernel/src/arch/amd64/memory/pmm/sparsemem.rs:331-356 | For memory that ends at or below 512 GiB that is always so |
| `SparseBoot.InitSparsememLayer` | kernel/src/arch/amd64/memory/pmm/sparsemem.rs:402-435 | Each panic has its exact condition on the given lists; otherwise memory and reserved bytes are the given ones with exactly the bytes of the table moved from one to the other, no page of them is Usable, the records lie disjoint inside them, and every frame has the state the lists say |
| `PfnRuns.RunIterator.constructor` | kernel/src/arch/amd64/memory/pmm/pfn_iterator.rs:29-38 | All runs are still to come |
| `PfnRuns.RunIterator.CloseRun` | kernel/src/arch/amd64/memory/pmm/pfn_iterator.rs:41-47 | The open run, if there is one, is given out and forgotten |
| `PfnRuns.RunIterator.Next` | kernel/src/arch/amd64/memory/pmm/pfn_iterator.rs:52-100 | Gives the first run to come and leaves the others, across sections and calls; None for ever at the end |
| `PfnRuns.ScanIsExact` | kernel/src/arch/amd64/memory/pmm/pfn_iterator.rs:52-100 | The runs to come at the start are exactly the maximal runs of usable frames, ascending, each once, and cover every usable frame |
| `Zones.ZoneKept` | kernel/src/arch/amd64/memory/pmm/zones_manager.rs:195-223 | A zone stays valid when frame records outside it, or links of its pages that are not free, change |
| `Zones.AssignZoneToRun` | kernel/src/arch/amd64/memory/pmm/zones_manager.rs:161-193 | Exactly the usable frames of the run get the zone id |
| `Zones.BuildZone` | kernel/src/arch/amd64/memory/pmm/zones_manager.rs:195-223 | Exactly the usable frames of the range become free pages of the new valid zone and carry its id; nothing outside the range changes |
| `Zones.ZonesManager.AllocPages` | kernel/src/arch/amd64/memory/pmm/zones_manager.rs:127-129 | From the zone asked for and no other; every page of the block is below 16 MiB exactly when the DMA zone was asked; None exactly when the zone has no free run or does not exist; every frame keeps its zone |
| `Zones.ZonesManager.FreePages` | kernel/src/arch/amd64/memory/pmm/zones_manager.rs:131-150 | The block returns to the zone it was taken from; the other zone is untouched |
| `Zones.HomeZone` | kernel/src/arch/amd64/memory/pmm/zones_manager.rs:136-149 | The zone field of a block head names the zone that holds the block |
| `Zones.ZonesLie` | kernel/src/arch/amd64/memory/pmm/zones_manager.rs:265-288 | In every valid manager, that is after every allocation and free, all pages of the DMA zone are below 16 MiB and all pages of the high zone at or above |
| `Zones.InitZonesManager` | kernel/src/arch/amd64/memory/pmm/zones_manager.rs:265-288 | Panics exactly when the last frame is below 16 MiB; otherwise the DMA zone lies below 16 MiB and the high zone from there on, every usable frame is a free page of exactly one zone, and the two counts add up to the number of usable frames |
| `PhysicalMemory.InitPhysicalMemory` | kernel/src/arch/amd64/memory/pmm/mod.rs:18-27 | From any memory map: it panics exactly when the frame table cannot be placed and built, or no page known to it is as high as the last one below 16 MiB; otherwise a frame is usable exactly when its page meets the given memory and no byte of it is reserved or of the table, every usable frame is a free page of one zone, the DMA zone when below 16 MiB and the high zone otherwise, and the heap is valid and empty |
| `SlabLayout.InitCache` | kernel/src/arch/amd64/memory/pmm/slab.rs:176-194 | The smallest order that fits eight objects, or else order 4, and how many fit |
| `SlabLayout.ClassLayout` | kernel/src/arch/amd64/memory/pmm/slab.rs:32-34 | The exact object size, start, order and count of each of the fourteen classes; each fits behind the header inside the span and wastes less than one object |
| `SlabAllocation.StartIs` | kernel/src/arch/amd64/memory/pmm/slab.rs:84-86 | Objects start at the layout offset for every page-aligned slab, also for sizes that are no power of two |
| `SlabState.SlotInside` | kernel/src/arch/amd64/memory/pmm/slab.rs:371-385 | Every slot lies behind the header, inside the pages of its slab |
| `SlabSlots.SlotsDisjoint` | kernel/src/arch/amd64/memory/pmm/slab.rs:371-385 | Two slots of a slab do not overlap |
| `SlabSlots.SlotIffOnGrid` | kernel/src/arch/amd64/memory/pmm/slab.rs:304-305 | The address checks accept, up to the last whole slot, exactly the slots |
| `SlabSlots.BuildFreelist` | kernel/src/arch/amd64/memory/pmm/slab.rs:371-385 | The free list holds all slots in ascending order; other nodes are untouched |
| `SlabState.LiveCount` | kernel/src/arch/amd64/memory/pmm/slab.rs:246-248 | Free list and live objects partition the slots, and inuse is the number of live objects |
| `SlabState.OneSlab` | kernel/src/arch/amd64/memory/pmm/slab.rs:420-433 | An address is a slot of at most one slab |
| `SlabAllocation.InitCaches` | kernel/src/arch/amd64/memory/pmm/slab.rs:224-228 | Every class gets its layout |
| `SlabAllocation.ClassIndex` | kernel/src/arch/amd64/memory/pmm/slab.rs:231-234 | The smallest class that fits, or None exactly above 2048 bytes |
| `SlabAllocation.SlabAllocator.constructor` | kernel/src/arch/amd64/memory/pmm/slab.rs:219-228 | A valid allocator without slabs |
| `SlabAllocation.SlabAllocator.Push` | kernel/src/arch/amd64/memory/pmm/slab.rs:115-126 | The slab joins its bucket with its tag and is counted; no object becomes live or free |
| `SlabAllocation.SlabAllocator.Remove` | kernel/src/arch/amd64/memory/pmm/slab.rs:128-141 | The slab leaves its bucket and is counted off |
| `SlabAllocation.SlabAllocator.Pop` | kernel/src/arch/amd64/memory/pmm/slab.rs:143-148 | The first slab of the bucket, or None exactly when it is empty |
| `SlabAllocation.SlabAllocator.MoveSlab` | kernel/src/arch/amd64/memory/pmm/slab.rs:204-207 | The slab changes bucket and tag and nothing else does |
| `SlabAllocation.SlabAllocator.Grow` | kernel/src/arch/amd64/memory/pmm/slab.rs:346-369 | A new slab whose pages all name it, or None exactly when the high zone has no block of the order |
| `SlabAllocation.SlabAllocator.GetOrGrowPartial` | kernel/src/arch/amd64/memory/pmm/slab.rs:265-284 | A slab of the class with a free slot; grows only when no slab of the class has one; None exactly when that fails too |
| `SlabAllocation.SlabAllocator.Alloc` | kernel/src/arch/amd64/memory/pmm/slab.rs:236-263 | One object of the smallest class that fits becomes live and nothing else; None exactly when the size is too large or neither a slot nor a block is there; tags and counts are right again |
| `SlabAllocation.SlabAllocator.FindSlab` | kernel/src/arch/amd64/memory/pmm/slab.rs:420-433 | Finds the slab of every address on a slab page, and for every page of the high zone that no slab holds, free or allocated, answers None |
| `SlabAllocation.SlabAllocator.ReleaseSlab` | kernel/src/arch/amd64/memory/pmm/slab.rs:400-418 | Exactly that slab leaves, exactly its pages become free in the high zone, and all other slabs, live objects and page blocks stay |
| `SlabAllocation.SlabAllocator.PutObject` | kernel/src/arch/amd64/memory/pmm/slab.rs:321-340 | The object is free again, its slab is in the bucket for its fill, and one empty slab is released exactly when this one became empty while its class had two empty ones |
| `SlabAllocation.SlabAllocator.Free` | kernel/src/arch/amd64/memory/pmm/slab.rs:286-344 | True exactly for live objects, which stop being live, and a slab is released exactly when a third one of the class becomes empty; false changes nothing |
| `SlabState.PutSlotExactly` | kernel/src/arch/amd64/memory/pmm/slab.rs:308-326 | Pushing an address onto the free list of a slab leaves a well-formed slab exactly when the address is a live object of it |
| `SlabChecks.PlausibleExactly` | kernel/src/arch/amd64/memory/pmm/slab.rs:300-306 | In a slab with objects in use the checks let through exactly its slots, free or live, and the address of the slot cut off at the end |
| `SlabChecks.FreeExactly` | kernel/src/arch/amd64/memory/pmm/slab.rs:300-326 | Of the addresses the checks let through, exactly the live objects leave a well-formed slab; the others are the free slots and the slot cut off |
| `SlabChecks.SecondFreePasses` | kernel/src/arch/amd64/memory/pmm/slab.rs:300-326 | A slot freed before, in a slab in use, passes the checks, and the push ruins the slab |
| `SlabChecks.CutOffPasses` | kernel/src/arch/amd64/memory/pmm/slab.rs:300-326 | In the 96-byte class the address 4064 bytes into the slab is no object, passes the checks, and the push ruins the slab |
| `SlabChecks.FreeTwice` | kernel/src/arch/amd64/memory/pmm/slab.rs:286-344 | After a free of one of two live objects of a slab, the same address passes the checks again and would ruin the slab |
| `SlabFrames.LinkBlock` | kernel/src/arch/amd64/memory/pmm/slab.rs:387-398 | Only the link fields of the allocated block change, and both zones stay valid |
| `SlabFrames.RegisterPages` | kernel/src/arch/amd64/memory/pmm/slab.rs:387-398 | Every page of the new slab names it; pages of all other allocated blocks are as before |
| `SlabFrames.UnregisterPages` | kernel/src/arch/amd64/memory/pmm/slab.rs:400-418 | The released block carries no link; all other slabs still name themselves |
| `SlabFrames.TakenKeeps` | kernel/src/arch/amd64/memory/pmm/slab.rs:387-433 | Taking a block keeps slab pages named and other allocated pages unlinked |
| `SlabFrames.ReturnedKeeps` | kernel/src/arch/amd64/memory/pmm/slab.rs:400-418 | So does returning one |
| `KernelHeap.LiveDisjoint` | kernel/src/arch/amd64/memory/pmm/physical_alloc.rs:27-90 | No two live allocations, objects or page blocks, share a byte |
| `KernelHeap.PagesToOrder` | kernel/src/arch/amd64/memory/misc.rs:29-38 | The smallest order whose blocks hold that many pages |
| `KernelHeap.AllocBlock` | kernel/src/arch/amd64/memory/pmm/pages_allocator.rs:43-62 | A new page block aligned to its size, or None exactly when the high zone has none |
| `KernelHeap.AllocObject` | kernel/src/arch/amd64/memory/pmm/slab.rs:445-449 | A new object, 16-byte aligned, at least as large as asked for |
| `KernelHeap.Kmalloc` | kernel/src/arch/amd64/memory/pmm/physical_alloc.rs:27-46 | None exactly for 0 bytes or no memory; otherwise exactly one new live allocation of at least that many bytes |
| `KernelHeap.AllocForLayout` | kernel/src/arch/amd64/memory/pmm/physical_alloc.rs:61-90 | Null exactly when there is no memory; otherwise aligned as asked, large enough and new; the dangling address for size 0 |
| `KernelHeap.BlockAddress` | kernel/src/arch/amd64/memory/pmm/physical_alloc.rs:76-88 | A block is aligned to its own size in the mapping |
| `KernelHeap.Kfree` | kernel/src/arch/amd64/memory/pmm/physical_alloc.rs:48-59 | Exactly the owner of the pointer, slab object or page block, stops being live, without being told the size |
| `KernelHeap.FreeBlock` | kernel/src/arch/amd64/memory/pmm/pages_allocator.rs:64-76 | The page block goes back to the high zone |
| `AddressSpaces.LastBelow` | kernel/src/arch/amd64/scheduler/addr_space.rs:154-160 | The greatest key below a limit |
| `AddressSpaces.FindOverlappingIsExact` | kernel/src/arch/amd64/scheduler/addr_space.rs:182-188 | The one neighbour looked at overlaps exactly when some region does |
| `AddressSpaces.FindIsScan` | kernel/src/arch/amd64/scheduler/addr_space.rs:154-160 | find gives the same answer as a scan of all regions |
| `AddressSpaces.OwnerIsUnique` | kernel/src/arch/amd64/scheduler/addr_space.rs:77-99 | A page lies in at most one region |
| `AddressSpaces.AddrSpace.MapInPageTable` | kernel/src/arch/amd64/scheduler/addr_space.rs:162-180 | Succeeds exactly when no page of the region was present, and maps exactly its pages; on failure exactly those before a present one |
| `AddressSpaces.AddrSpace.Map` | kernel/src/arch/amd64/scheduler/addr_space.rs:77-99 | Each error in the order tested, or the region added and each of its pages leading to its own frame with its flags; regions stay disjoint and mapped, and the table agrees exactly when no mapped region is replaced by an empty one |
| `AddressSpaces.AddrSpace.Unmap` | kernel/src/arch/amd64/scheduler/addr_space.rs:101-119 | The region and exactly its present pages go; all others stay mapped |
| `AddressSpaces.AddrSpace.Protect` | kernel/src/arch/amd64/scheduler/addr_space.rs:121-152 | Every page of a backed region leads to the same frame as before with the new flags; pages of a reserved region keep theirs |
| `AddressSpaces.AddrSpace.PageFault` | kernel/src/arch/amd64/memory/vmm/pf_handler.rs:6-65 | Halts exactly unless a user access permitted by a reserved region; then panics exactly without a frame or when the page is present, and otherwise maps exactly that page to the new frame with the flags of the region |
| `AddressSpaces.MapTable` | kernel/src/arch/amd64/scheduler/addr_space.rs:77-99 | After map every backed region is mapped, and page table and regions agree exactly when the new region orphans no mapped page |
| `AddressSpaces.UnmapTable` | kernel/src/arch/amd64/scheduler/addr_space.rs:101-119 | They agree after unmap |
| `AddressSpaces.ProtectTable` | kernel/src/arch/amd64/scheduler/addr_space.rs:121-152 | They agree after protect |
| `AddressSpaces.EntryShows` | kernel/src/arch/amd64/scheduler/addr_space.rs:19-27 | The entry for a page holds the frame at the page offset in the backing, and write, user, no-cache and no-execute as the flags of the region say |
| `AddressSpaces.FramesInOrder` | kernel/src/arch/amd64/scheduler/addr_space.rs:162-180 | Page i of a mapped region leads to frame i of its backing, and no two pages to one frame |
| `AddressSpaces.Perform` | kernel/src/arch/amd64/scheduler/addr_space.rs:77-152 | After every sequence of map, unmap, protect and page fault, refused ones included, regions do not overlap and every page of a backed region leads to its own frame with the flags of the region; and no page is present without a region unless an empty region was mapped |
| `AddressSpaces.ZeroSizeMapOrphans` | kernel/src/arch/amd64/scheduler/addr_space.rs:77-99 | A zero-size map at the base of a mapped region is accepted and leaves its pages without a region |
| `AddressSpaces.StaleFlagsPanic` | kernel/src/arch/amd64/memory/vmm/pf_handler.rs:24-65 | After protect makes a faulted-in page of a reserved region writable, the write fault on it panics |
| `WaitQueues.WaitQueue.Enqueue` | kernel/src/arch/amd64/ipc/endpoint.rs:66-81 | Appends the id, or fails exactly when entries and tombstones number 16 |
| `WaitQueues.EnqueueIsFifo` | kernel/src/arch/amd64/ipc/endpoint.rs:66-81 | While entries and tombstones number fewer than 16 the id joins the queue of live ids at the end; at 16 it is refused |
| `WaitQueues.WaitQueue.Dequeue` | kernel/src/arch/amd64/ipc/endpoint.rs:83-97 | Gives the oldest id not cancelled, or None when there is none |
| `WaitQueues.WaitQueue.Cancel` | kernel/src/arch/amd64/ipc/endpoint.rs:99-117 | True exactly when the id waits; its first entry becomes a tombstone |
| `WaitQueues.DequeueIsFifo` | kernel/src/arch/amd64/ipc/endpoint.rs:83-97 | Dequeue takes the head of the queue of live ids |
| `WaitQueues.CancelRemovesFirst` | kernel/src/arch/amd64/ipc/endpoint.rs:99-117 | Cancel takes the first occurrence out of the queue of live ids |
| `ObjectTables.ObjectTable.Insert` | kernel/src/arch/amd64/ipc/object_table.rs:78-88 | The lowest free slot, with a handle never issued before; fails exactly when all 4096 are taken |
| `ObjectTables.ObjectTable.Remove` | kernel/src/arch/amd64/ipc/object_table.rs:108-119 | Gives what the handle resolves to and advances the generation, or changes nothing |
| `ObjectTables.ObjectTable.HandleResolves` | kernel/src/arch/amd64/ipc/object_table.rs:90-97 | A live handle resolves to its object; a removed one never does while its slot has been recycled fewer than 2^32 times; in general it resolves exactly when the slot is taken and the generations coincide |
| `ObjectTables.GenerationsDiffer` | kernel/src/arch/amd64/ipc/object_table.rs:108-119 | Generations less than 2^32 removals apart differ |
| `Ipc.RunInv` | kernel/src/arch/amd64/scheduler/syscall/ipc_handlers.rs:99-245 | Over every interleaving of the turns of the manager lock and the steps between them, a task in a receive is queued once, stranded, chosen by one sender, or awakened, has a message exactly in the last two cases, and nobody else is or has any of this |
| `Ipc.DeliveredOnce` | kernel/src/arch/amd64/ipc/mod.rs:109-153 | Every message handed over is taken once or still pending, by the receiver it was handed to |
| `Ipc.SendNeverOverwrites` | kernel/src/arch/amd64/ipc/mod.rs:117-137 | A send that finds a receiver finds no pending message of that task and picks the oldest waiter |
| `Ipc.QueuedOrStranded` | kernel/src/arch/amd64/ipc/mod.rs:67-153 | A task in a receive without a message is queued at exactly one endpoint, once, precisely unless its endpoint was destroyed; nobody else is queued |
| `Ipc.StrandedExactly` | kernel/src/arch/amd64/ipc/mod.rs:67-77 | A task is stranded exactly by the destruction of the endpoint it is queued at, and then for good |
| `Ipc.DestroyStrands` | kernel/src/arch/amd64/ipc/mod.rs:49-77 | A run that strands a receiver: create, receive, destroy |
| `Ipc.OneWaker` | kernel/src/arch/amd64/scheduler/syscall/ipc_handlers.rs:115-125 | A receiver with a message is not awakened yet exactly while one sender, and only one, is about to awaken it |
| `Ipc.WakeBeforeSleep` | kernel/src/arch/amd64/scheduler/syscall/ipc_handlers.rs:113-148 | A run in which a sender is about to awaken a receiver that is queued but not asleep yet |
| `Ipc.WokenFindsMessage` | kernel/src/arch/amd64/scheduler/syscall/ipc_handlers.rs:130-162 | A receiver that slept and was awakened, in either order, finds its message |
| `Ipc.SendActs` | kernel/src/arch/amd64/scheduler/syscall/ipc_handlers.rs:99-128 | In every schedule a send delivers as promised, and a sender that found a receiver goes on to awaken it and is then done |
| `Ipc.RecvActs` | kernel/src/arch/amd64/scheduler/syscall/ipc_handlers.rs:130-162 | In every schedule a task that receives waits exactly when it was admitted, and no other task changes its step |
| `Ipc.TableActs` | kernel/src/arch/amd64/ipc/mod.rs:49-77 | In every schedule create fills the first empty slot and destroy clears the first one with the id |
| `Ipc.CallGoesOn` | kernel/src/arch/amd64/scheduler/syscall/ipc_handlers.rs:164-216 | In every schedule a call whose send finds a receiver awakens it, with the message pending, and then waits last in line at its reply endpoint, when that is open and has room |
| `Ipc.ReceiveEnds` | kernel/src/arch/amd64/scheduler/syscall/ipc_handlers.rs:130-162 | In every schedule an awakened receiver ends its receive with the message that was pending for it |
| `Ipc.IpcManager.GetEndpoint` | kernel/src/arch/amd64/ipc/mod.rs:61-65 | The first endpoint with the id |
| `Ipc.IpcManager.CreateEndpoint` | kernel/src/arch/amd64/ipc/mod.rs:49-59 | Fills the first free slot with an open endpoint nobody waits at; None exactly when there is none |
| `Ipc.IpcManager.DestroyEndpoint` | kernel/src/arch/amd64/ipc/mod.rs:67-77 | Clears the slot of the first endpoint with the id and no other; changes nothing when there is none |
| `Ipc.IpcManager.HandleSend` | kernel/src/arch/amd64/ipc/mod.rs:117-137 | Does the send step of the machine: finds a receiver exactly when somebody waits at the first endpoint with the id and it is open; then the one that has waited longest gets the message and the others wait on |
| `Ipc.IpcManager.HandleRecv` | kernel/src/arch/amd64/ipc/mod.rs:139-153 | Does the receive step of the machine: blocks exactly when the first endpoint with the id is open and holds fewer than 16 entries and tombstones; then the receiver waits behind all others |
| `Ipc.IpcManager.TakePendingMessage` | kernel/src/arch/amd64/ipc/mod.rs:113-115 | Hands the message out once |
| `Scheduler.EveryTaskPlaced` | kernel/src/arch/amd64/scheduler/mod.rs:119-307 | After every run each task is in at most one place, the one its state field says; only a task dropped by a steal is ready and nowhere |
| `Scheduler.StealCount` | kernel/src/arch/amd64/scheduler/mod.rs:45-69 | Stealing moves tasks into the buffer and loses at most the one it reports dropped |
| `Scheduler.StealTakesOldest` | kernel/src/arch/amd64/scheduler/mod.rs:45-69 | A steal takes the oldest task of every other CPU with four queued, in CPU order, keeps the first four and drops the fifth |
| `Scheduler.StealDrops` | kernel/src/arch/amd64/scheduler/mod.rs:45-69 | A stolen task is dropped exactly when more than four CPUs are eligible victims, and then the buffer is full |
| `Scheduler.StealCanDrop` | kernel/src/arch/amd64/scheduler/mod.rs:45-69 | On six CPUs or more some run, from the initial state on, loses a task |
| `Scheduler.LossNeedsSixCpus` | kernel/src/arch/amd64/scheduler/mod.rs:45-69 | Some run on n CPUs loses a task exactly when n is more than five |
| `Scheduler.LossExactly` | kernel/src/arch/amd64/scheduler/mod.rs:45-69 | In every reachable state a step loses a task exactly when it is an idle round with more than four eligible victims and room for four in the own queue |
| `Scheduler.FewCpusLoseNothing` | kernel/src/arch/amd64/scheduler/mod.rs:45-69 | With at most five CPUs no run loses a task |
| `Scheduler.SleeperNotEarly` | kernel/src/arch/amd64/scheduler/mod.rs:142-202 | A sleeper is in no queue and on no CPU until the tick count reaches its wake tick |
| `Scheduler.SleepLength` | kernel/src/arch/amd64/scheduler/mod.rs:142-169 | In every schedule a task that sleeps for a number of nanoseconds gets the first wake tick that is that far away, a tick being one millisecond, and leaves its CPU; nothing else moves |
| `Scheduler.SleepsAsAsked` | kernel/src/arch/amd64/scheduler/mod.rs:142-202 | Along every continuation it is asleep, in no queue and on no CPU until that many nanoseconds of ticks have passed |
| `Scheduler.NoSleep` | kernel/src/arch/amd64/scheduler/mod.rs:142-169 | A sleep of zero length changes nothing |
| `Scheduler.DueIsQueued` | kernel/src/arch/amd64/scheduler/mod.rs:171-202 | In every schedule a tick on CPU 0 that reaches the wake tick of a sleeper makes it ready and puts it, once, behind the tasks of the global queue |
| `Scheduler.TickGivesNewest` | kernel/src/arch/amd64/scheduler/mod.rs:249-307 | In every schedule a tick on a CPU makes its newest queued task current and running and the task it had the newest queued one, and changes no other CPU; with an empty queue it changes neither |
| `Scheduler.BlockSleeps` | kernel/src/arch/amd64/scheduler/mod.rs:119-140 | In every schedule the task that blocks on a message leaves its CPU, asleep without a wake tick; nothing else changes |
| `Scheduler.ReadyGoesLast` | kernel/src/arch/amd64/scheduler/mod.rs:204-207 | In every schedule a new or awakened task is ready and last in the global queue; nothing else changes |
| `Scheduler.IdleFetches` | kernel/src/arch/amd64/scheduler/mod.rs:209-247 | In every schedule an idle round with room puts the oldest tasks of up to four other CPUs with four queued behind its own queue, or, when there is no such CPU, the first four of the global queue; other CPUs lose at most their oldest task |
| `Scheduler.HaltsExactly` | kernel/src/arch/amd64/scheduler/mod.rs:209-247 | In every schedule the kernel panics exactly in an idle round that fetches more tasks than its queue has room for |
| `Scheduler.QueuesBounded` | kernel/src/arch/amd64/scheduler/mod.rs:119-307 | In every schedule no run queue holds more than 1024 tasks |
| `Scheduler.PlacedExactly` | kernel/src/arch/amd64/scheduler/mod.rs:204-207 | When awakenings do not look at the state of their task, every task is in its one place all along a run exactly when every awakening finds its task blocked on a message, or dropped by a steal |
| `Scheduler.OrderlyRun` | kernel/src/arch/amd64/scheduler/mod.rs:204-207 | Such runs are those of the machine, so all its results hold for them |
| `Scheduler.EarlyAwakeningRunsTwice` | kernel/src/arch/amd64/scheduler/mod.rs:204-307 | A run in which a task awakened before it sleeps is current and in the global queue, and then current on two CPUs |
| `SchedulerOperations.CpuDescriptors.constructor` | kernel/src/arch/amd64/scheduler/mod.rs:30-35 | The initial state of the machine |
| `SchedulerOperations.CpuDescriptors.AddTaskToExecute` | kernel/src/arch/amd64/scheduler/task_storage.rs:60-65 | Does the step that adds a task |
| `SchedulerOperations.CpuDescriptors.StealFromGlobal` | kernel/src/arch/amd64/scheduler/task_storage.rs:81-90 | Takes the first four tasks of the global queue, or all |
| `SchedulerOperations.CpuDescriptors.TryToStealInto` | kernel/src/arch/amd64/scheduler/mod.rs:45-69 | Fills the buffer as the steal of the machine does |
| `SchedulerOperations.CpuDescriptors.WakeSleepingTasks` | kernel/src/arch/amd64/scheduler/mod.rs:171-202 | Collecting the due sleepers and then waking them is the waking of the machine |
| `SchedulerOperations.CpuDescriptors.IdleTask` | kernel/src/arch/amd64/scheduler/mod.rs:209-247 | Does the idle step; panics exactly when the machine halts |
| `SchedulerOperations.CpuDescriptors.ProcessTick` | kernel/src/arch/amd64/scheduler/mod.rs:249-307 | Does the switch of the machine |
| `SchedulerOperations.CpuDescriptors.TimerTick` | kernel/src/arch/amd64/scheduler/mod.rs:353-358 | Does the tick step |
| `SchedulerOperations.CpuDescriptors.SleepCurrent` | kernel/src/arch/amd64/scheduler/mod.rs:142-169 | Does the sleep step |
| `SchedulerOperations.CpuDescriptors.BlockCurrentOnIpc` | kernel/src/arch/amd64/scheduler/mod.rs:119-140 | Does the block step |
| `SchedulerOperations.CpuDescriptors.AwakenReceiver` | kernel/src/arch/amd64/scheduler/mod.rs:204-207 | Does the awakening step that does not look at the state of the task |

## Left out

- Memory orderings weaker than sequential consistency in the run queue and the wait queue; the spin lock of the wait queue makes each of its operations one step.
- Wrap-around of the 64-bit run-queue indices after 2^64 pushes, except inside `len`.
- Overflow of 64-bit address sums in `align_up`, in `map` and in frame-number arithmetic; region ends saturate as in the source.
- Contents of memory: zeroing, poison values, the bytes copied by `realloc`, and the debug-only checks. `realloc` is an allocation, a copy and a `kfree` and adds no other step.
- Headers and free nodes of slabs are maps keyed by slab and by address; `SlabState.SlotInside` and `KernelHeap.LiveDisjoint` are why they cannot overlap objects or each other. Memory that is no slab header is taken not to hold the slab magic number.
- SlabAllocation.SlabAllocator.Free: an address that passes the source's checks without being a live object (a double free, or the cut-off slot at the end of a slab) is excluded by its precondition, because the source only detects it in debug builds; `SlabChecks.FreeExactly` says that exactly these ruin the slab.
- BuddyAllocator.Buddy.Free: freeing a page that is not the head of an allocated block is excluded, because the source checks it in debug builds only.
- Zones.ZonesManager.FreePages: the same.
- BuddyAllocator.Buddy.AddUsableRun: adding frames twice is excluded; the source does not check it and the iterator never does it.
- The zones array is two fields, because it is written once at boot.
- Ipc.IpcManager.HandleSend: the queue inside an endpoint is a value here; `WaitQueues.WaitQueue` proves that the ring does the same.
- Capabilities, capability nodes, notifications, rights checks and register passing of the system calls.
- `handle_reply`, which no system call uses.
- Endpoint ids are not distinct (endpoints of one task share its id), and nothing here says so.
- Fairness: a CPU runs its newest local task first, so older ones can wait for ever.
- `inject_sleeping_task`.
- Ipc.WokenFindsMessage: an awakening can come before the receiver is asleep; the message machine takes it that the task is not resumed elsewhere before it has gone to sleep, and `Scheduler.PlacedExactly` says when the scheduler keeps to that.
- Scheduler.EveryTaskPlaced: every scheduler entry point is one step, so the length a steal looks at is the queue length; `Runqueue.LenAnswers` says what `len` answers when others act in between. There an awakening finds its task blocked or dropped; `Scheduler.PlacedExactly` is about the awakenings that do not.
- Reference counts of kernel objects, `get_mut`, and a handle index beyond the table, which the source would panic on.
- The four-level page table walk and its frame allocation; a page table is a map from page to entry whose map fails when present and whose unmap fails when absent. `Drop` of an address space.
- `size_hint` of the run iterator, which counts sections and bounds nothing.
- Turning boot-loader entries into memory and reserved regions, memory statistics and logging.
- The cpio reader, drivers, assembly, context switch and everything in user space.
