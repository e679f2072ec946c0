# Memory and threads of a small x86-64 kernel

This project models the parts of the kernel that keep a representation invariant, and proves what they are
for. From the bottom up:

- `RbShape`, `RbTree`: the red-black tree with parent pointers, on node objects whose fields are overwritten in
  place. A ghost tree says what the nodes stand for, and a zipper (a subtree and the way up from it) is the
  invariant of the fix-up loops.
- `RangeSeq`, `Balloc`, `BootMap`: the range allocator of early boot, which works on that tree, its meaning as a
  sorted sequence of ranges, and the boot sequence that turns the firmware map into free memory.
- `BuddyBlocks`, `Buddy`: the page allocator. Blocks are numbered by absolute page index. `PageSetup` fills it from
  the ranges that boot has left free.
- `SlabLayout`, `Slab`, `MemAlloc`: slab pools, caches, and `mem_alloc`, `mem_free`, `mem_realloc` on top of the
  page allocator of `Buddy`.
- `PageTables`, `PageNeeds`, `PageBuilder`: the recursive page-table builder against the four-level walk of section
  4.5 of the Intel SDM, Volume 3A; which tables a mapping needs and how large its pages are, told from the request.
- `KmapRanges`, `Kmap`: the boundary-tag allocator of the kmap window, and mapping and unmapping in it.
- `KernelSpace`: the address space that the kernel starts with, and how many pages it takes.
- `Threads`, `ThreadRuns`, `LockRuns`, `Turns`: threads, mutexes and condition variables as a transition system whose
  steps are the interrupts-off regions of one processor, and what holds in every run of it; what the callers of
  locks get; and whose turn it is.
- `List`, `Rings`, `Scheduler`: the intrusive list on node objects; the run queue, the wait queues and the list of
  a broadcast as such lists, which share the nodes of the threads; and the code of each region, on those lists,
  against its step.
- `Stdlib`: `strtoul` with its inverses `ulltoa` and `lltoa`.
- `Arithmetic`, `Collections`: facts and types that the others share.

`dafny verify dfyconfig.toml` checks the whole project.

## What the code does not do

Five expectations that the documentation or the shape of the code suggests do not hold as they stand. For each the
exact condition under which the code does meet it is proved, together with an input on which it does not:

- Adding a range that swallows a whole existing range loses the part behind it, because the end of the range that
  is absorbed is taken over without a comparison (src/balloc.c:81-87). `RangeSeq.AddedExact` says when adding is a
  union and `RangeSeq.AddedPoint` which bytes come, `RangeSeq.AddedLosesExample` shows a loss. For the map that boot
  makes of the firmware's, `BootMap.MapExact` says which bytes are in it, `BootMap.PlainUnion` that none is lost unless
  an entry has an earlier one inside it that ends before it does, and `BootMap.MapLosesExample` shows a loss.
- A pool sized for `MIN_POOL_OBJS`, that is eight objects, may hold fewer. `SlabLayout.EightFit` says for which object
  sizes eight fit: unless the pages needed are a power of two in number and a part of a page is needed besides, which
  the rounding drops (src/alloc.c:76-79). `MemAlloc.ShortCaches` names the sizes of the kernel's own caches that come
  short, and `SlabLayout.FourOf960` shows that the pools for 960 bytes have four objects. Three, which the lists need,
  always fit (`SlabLayout.LayoutSetup`).
- A thread that blocks while nobody else can run, or while preemption is off, comes back from `mutex_lock` without
  the mutex. `ThreadRuns.BackTooSoon` gives the exact condition for that, `ThreadRuns.BlockIff` that for the
  invariant, and `ThreadRuns.TwoOwners` is a run with two owners.
- Not every thread on the run queue gets its turn: the idle thread, interrupted between its two assignments
  (src/threads.c:225-226), is dropped when it is first in the queue while somebody else runs. `Turns.SliceEnds` says
  that this happens to the idle thread and to no other, `Turns.TurnComes` that all others get their turn, and
  `Turns.IdlePassedOver` is a run in which it happens. It runs again when nobody else is ready (`Turns.GivesWay`).
- `strtoul` does not do what section 7.20.1.4 of ISO/IEC 9899:1999 asks for (`Stdlib.Standard`). It takes a zero for a
  prefix even when it is the whole number, and then reports that it has read nothing; it never asks whether a character
  is a digit, so that it reads on behind the number; and in base 16 it does not know the prefix `0X`.
  `Stdlib.StrtoulExact` says for which strings and bases it does conform, `Stdlib.NothingReported` when it reports that
  nothing was read, and `Stdlib.LoneZero` and `Stdlib.ReadsOn` show it on `"0"` and `"12 4"`.

## Model

| member | source | states |
|---|---|---|
| `RbShape.RedBlackHeight` | src/rbtree.c:128-178 | a red-black tree of n nodes is at most 2 log2(n + 1) high |
| `RbShape.InorderNoDup` | src/rbtree.c:92-108 | the in-order sequence of a tree of distinct nodes lists every node once |
| `RbTree.Tree.RotateLeft` | src/rbtree.c:30-49 | the pointers stand for the rotated tree in the same place, whose in-order sequence is the same |
| `RbTree.Tree.RotateRight` | src/rbtree.c:51-70 | the mirror image |
| `RbTree.Tree.InsertLoop` | src/rbtree.c:132-176 | the loop ends with equal black heights and no red node under a red one, and keeps the in-order sequence |
| `RbTree.Tree.Insert` | src/rbtree.c:128-178 | after a red leaf is linked in, all invariants hold again and the in-order sequence is the one with the leaf in it |
| `RbTree.Tree.LinkInsert` | inc/rbtree.h:19-25 | linking and rebalancing adds exactly the new node, at the position of its empty slot |
| `RbTree.InsertStepBalanced` | src/rbtree.c:139-173 | each round of the loop keeps the black heights |
| `RbTree.Tree.Next` | src/rbtree.c:92-108 | the in-order successor, or none for the last node |
| `RbTree.Tree.Prev` | src/rbtree.c:110-126 | the in-order predecessor, or none for the first node |
| `RbTree.Tree.EraseFixLoop` | src/rbtree.c:183-243 | the loop terminates, although the red-sibling case moves down one level, and repairs the missing black |
| `RbTree.Tree.EraseFix` | src/rbtree.c:180-247 | a tree that lacks one black on one path becomes a red-black tree with the same in-order sequence |
| `RbTree.Tree.Unlink` | src/rbtree.c:249-291 | the node is unlinked or replaced by its successor; what is missing is one black where the splice was |
| `RbTree.UnlinkedInorder` | src/rbtree.c:249-291 | unlinking removes exactly the node from the in-order sequence |
| `RbTree.Tree.Erase` | src/rbtree.c:249-294 | exactly the given node leaves the in-order sequence, and all invariants hold again |
| `RangeSeq.AddedSeparated` | src/balloc.c:47-88 | adding a range, empty or not, keeps the ranges sorted and strictly apart, and nonempty if they were |
| `RangeSeq.AddedBetween` | src/balloc.c:47-88 | adding loses no byte that was covered and invents none outside the union |
| `RangeSeq.AddedExact` | src/balloc.c:47-88 | adding is the set union if and only if no existing range lies in the new one and ends before it does |
| `RangeSeq.AddedPoint` | src/balloc.c:47-88 | a byte of the new range comes unless an existing range that begins inside it has ended before |
| `RangeSeq.AddedLosesExample` | src/balloc.c:81-87 | a case where the union is not reached |
| `RangeSeq.RemovedExact` | src/balloc.c:90-119 | removing is exact set difference |
| `RangeSeq.RemovedSeparated` | src/balloc.c:90-119 | removing keeps the ranges sorted and strictly apart |
| `RangeSeq.FitAddressLowest` | src/balloc.c:121-160 | the address found is the lowest aligned one whose block lies in one free range within the bounds; the upper bound comes back exactly when there is none |
| `Balloc.AddRange` | src/balloc.c:47-88 | on the pointer-level tree: the ranges become the result of adding, and nodes only move between pool and tree |
| `Balloc.RemoveRange` | src/balloc.c:90-119 | on the pointer-level tree: the ranges become the result of removing, given the number of spare nodes that the program takes and no more |
| `Balloc.FindFit` | src/balloc.c:124-146 | the search stops at the first range that fits |
| `Balloc.Alloc` | src/balloc.c:121-160 | the lowest suitable address, and the ranges without the block, given the number of spare nodes that the program takes and no more |
| `Balloc.AfterAllocExact` | src/balloc.c:121-160 | exactly the bytes of the block handed out are gone, or none when nothing fits |
| `BootMap.BootIsSafe` | src/balloc.c:190-241 | after boot a byte is free exactly when the map has it and no reserved entry, kernel or initramfs byte covers it, each free range lies in one range of the map, and, unless an entry has an earlier one inside it that ends before it does, the map has exactly the bytes of the entries and the kernel |
| `BootMap.MapExact` | src/balloc.c:198-224 | for all maps: which bytes of which entries are in the memory map, and when all are |
| `BootMap.PlainUnion` | src/balloc.c:198-224 | if no entry has an earlier one inside it that ends before it does, the map is the union of the entries |
| `BootMap.MapLosesExample` | src/balloc.c:198-224 | a map with an entry that loses its end |
| `BootMap.ParseMmap` | src/balloc.c:198-241 | both trees hold the ranges of the specification, for entries that overlap or not and empty ones too, whenever the pool of nodes is large enough |
| `BootMap.ThreeEach` | src/balloc.c:31-40 | three nodes for each entry of the map and five more are enough |
| `BootMap.ZoneChecksHold` | src/memory.c:148-163 | the three checks of the page setup cannot fail |
| `BootMap.FreePagesApart` | src/memory.c:148-183 | blocks of different free ranges are never buddies |
| `BuddyBlocks.CoveredByOne` | src/memory.c:325-348 | with maximal coalescing an aligned free run lies inside one free block |
| `BuddyBlocks.CoalescedUnique` | src/memory.c:325-348 | the free blocks are a function of the set of free pages |
| `Buddy.MergeTestTruthful` | src/memory.c:325-334 | the page examined reads free with order k exactly when a free block of order k starts there, although absorbed buddies keep their flags |
| `Buddy.SplitValid` | src/memory.c:252-260 | splitting keeps tiling, alignment, lists, coalescing and truthful flags |
| `Buddy.MergeValid` | src/memory.c:326-342 | merging keeps them |
| `Buddy.Partition` | src/memory.c:318-349 | free and held blocks tile the owned pages, each a multiple of its size |
| `Buddy.MergeTestExact` | src/memory.c:325-334 | the tests of the merge loop, read off the descriptors alone, hold exactly when the buddy is a free block |
| `Buddy.AllocatedBlock` | src/memory.c:233-263 | taking the first block of the first list that has one and halving it hands out one free block of the order asked for, and no other page changes |
| `Buddy.FreedBlock` | src/memory.c:318-349 | merging as long as the test allows frees exactly the pages of the block |
| `Buddy.RunOwns` | src/memory.c:233-349 | a run is a sequence of calls, each done as the program does it: the invariant holds after all of them, and no page is gained or lost |
| `Buddy.RunRestores` | src/memory.c:318-349 | a run that ends with the same blocks held ends with the same free blocks, in whatever order they were freed |
| `Buddy.Zone.FindOrder` | src/memory.c:235-243 | the smallest order with a free block that is large enough |
| `Buddy.Zone.Alloc` | src/memory.c:233-263 | refuses exactly when there is no aligned free run of 2^k pages, otherwise takes exactly one such block, and does one step of a run |
| `Buddy.Zone.Free` | src/memory.c:318-349 | exactly the block's pages become free, the invariant holds again, and it is one step of a run |
| `Buddy.GreedyOrder` | src/memory.c:166-173 | the largest aligned block at a page that does not go beyond the end |
| `Buddy.Zone.FreeRange` | src/memory.c:165-182 | exactly the pages of the range become free, in blocks that never could merge |
| `Buddy.Zone.FreeRanges` | src/memory.c:214-221 | after setup the free pages are those of the free ranges |
| `PageSetup.PagesGiven` | src/memory.c:148-163 | the pages the free ranges give to a zone are its whole free pages, without page 0 |
| `PageSetup.SetupZone` | src/memory.c:201-222 | after setup a page of the zone is free exactly when all its bytes were free, except for page 0, which the zone never has |
| `SlabLayout.ILog2` | src/alloc.c:27-37 | the smallest power of two that is not less |
| `SlabLayout.LayoutSetup` | src/alloc.c:71-90 | the largest object count that fits beside its own metadata, at least three, and at least eight exactly for the sizes that do not come short |
| `SlabLayout.FitsMonotone` | src/alloc.c:80-83 | what does not fit does not fit with more objects either |
| `SlabLayout.EightFit` | src/alloc.c:71-83 | eight objects fit if and only if the pages needed are no power of two in number or are filled up |
| `SlabLayout.FourOf960` | src/alloc.c:71-83 | pools of 960-byte objects have four of them |
| `Slab.Ffs` | src/alloc.c:194-209 | the lowest set bit |
| `Slab.BitmapSetup` | src/alloc.c:92-106 | the padding bits are set and all others clear |
| `Slab.ZerosWith` | src/alloc.c:224-226 | one bit more or less is one free object less or more |
| `Slab.TakenOk` | src/alloc.c:211-251 | the counter stays the number of clear bits among the objects, and only the one object changes |
| `Slab.PoolAlloc` | src/alloc.c:211-232 | the lowest free object; the search never runs to its end |
| `Slab.PoolFree` | src/alloc.c:234-251 | exactly that object becomes free, and no check fails |
| `Slab.PoolOfAddress` | src/alloc.c:303-305 | rounding a live address down to the pool size gives its pool, and dividing gives its object |
| `Slab.ObjectsApart` | src/alloc.c:211-232 | objects overlap neither each other nor the metadata |
| `Slab.BaseAligned` | inc/memory.h:23-24 | the kernel's address offset keeps the alignment of every block |
| `Slab.ListsTaken` | src/alloc.c:255-279 | after an allocation every pool is on the list its free count names |
| `Slab.ListsFreed` | src/alloc.c:307-317 | and after a free, which needs more than one object in a pool |
| `Slab.Cache.Alloc` | src/alloc.c:253-290 | the lowest free object of the first partly used pool, or of the first unused one, and a new pool only when every object is in use; all lists come out right, in order, and no other object has changed; fails exactly when no pool has one and no block can be had |
| `Slab.Cache.Free` | src/alloc.c:301-318 | exactly that object is no longer in use, and its pool is first on the right list when it changes lists |
| `Slab.Cache.Shrink` | src/alloc.c:156-177 | exactly the pools without an object in use go back to the page allocator |
| `MemAlloc.LiveDisjoint` | src/alloc.c:374-391 | no two live pieces of memory overlap, over any mix of slab objects and page blocks |
| `MemAlloc.PageOfPiece` | src/alloc.c:398-405 | the use of the page under a live address names the layer, cache or order that issued it |
| `MemAlloc.PoolLookup` | src/alloc.c:340-346 | the smallest cache that is large enough |
| `MemAlloc.OrderCalculate` | src/alloc.c:348-356 | the smallest block that is large enough |
| `MemAlloc.MemAllocSetup` | src/alloc.c:358-366 | 34 empty caches of the listed sizes, with the layouts for these sizes |
| `MemAlloc.ShortCaches` | src/alloc.c:71-83 | which of the 34 sizes have pools of fewer than eight objects |
| `MemAlloc.Heap.PiecesDisjoint` | src/alloc.c:374-391 | in the heap as it stands, no two live pieces overlap |
| `MemAlloc.Heap.MemAlloc` | src/alloc.c:374-391 | a piece that was not live is now, from the first cache that is large enough or else as the smallest block that is, and no other has changed; a cache takes pages only when all its objects are in use; fails exactly when the cache that serves the size has no object and can get no pool, or no block of the order is free |
| `MemAlloc.Heap.MemFree` | src/alloc.c:393-411 | exactly the piece goes back, to the layer and with the order it came with, and nothing leaks |
| `MemAlloc.Heap.MemRealloc` | src/alloc.c:413-443 | a piece that is large enough stays where it is and nothing changes; otherwise the new piece starts with the whole old contents, and nobody else's memory changes; fails exactly when the piece is too small and a new one cannot be had |
| `PageBuilder.Tables.MapPages` | src/paging.c:86-137 | the recursive builder maps exactly its interval, keeps the tables a tree with aligned leaves, succeeds exactly when the pool has a page for each table that is needed, takes exactly these pages, and gives every address a page of the right size |
| `PageTables.EntryEndIs` | src/paging.c:101 | the last address of an entry comes out right although the sum may wrap at 2^64 |
| `PageTables.LeafBuilt` | src/paging.c:112-119 | a leaf translates exactly the region of its entry |
| `PageTables.TableBuilt` | src/paging.c:121-127 | a new table changes no translation |
| `PageTables.ChildBuilt` | src/paging.c:130-133 | what the recursive call has mapped is mapped in the parent's region |
| `PageNeeds.ChildNeeded` | src/paging.c:130-133 | what is needed below an entry with a table is what that table needs |
| `PageNeeds.NewTableNeeded` | src/paging.c:121-127 | a new table takes itself, and nothing else, from what is needed |
| `PageNeeds.LeafNeeds` | src/paging.c:109-119 | where a leaf goes no table is needed, and the page is as large as the entry |
| `PageNeeds.CutNeeded` | src/paging.c:99-136 | the parts of a request for different entries need different tables, and together what it needs |
| `PageBuilder.Tables.PtMapPages` | src/paging.c:139-149 | every address of the range leads to its place from phys on, by a page of the largest size that fits, and every other canonical address is translated as before, up to and including ranges that end at 2^64; it succeeds exactly when the pool has a page for each table that is needed and not there, and takes exactly these; entries keep 52 bits of a frame address |
| `PageBuilder.Tables.PtPopulatePages` | src/paging.c:151-158 | all tables of the range exist, and no translation has changed; it succeeds exactly when the pool has a page for each missing table |
| `PageBuilder.Tables.ClearLeaf` | src/paging.c:363-377 | exactly the one page loses its translation, and no table is lost |
| `PageTables.ClearedBelow` | src/paging.c:363-377 | clearing a leaf entry at the end of a walk changes that page's walk only |
| `KernelSpace.PagingSetup` | src/paging.c:194-213 | the first address space maps all memory at one base and its first two gigabytes at another, these by pages of a gigabyte, and nothing else; it succeeds exactly with so many pages as a formula in the size of memory says, and takes no more |
| `KernelSpace.FirstNeeded` | src/paging.c:204-205 | the tables for all memory: one for each half terabyte and one of each lower level for what is left at the end |
| `KernelSpace.SecondNeeded` | src/paging.c:207 | one table for the top two gigabytes, unless memory reaches so far |
| `Kmap.KmapSetup` | src/paging.c:416-433 | the tables of the window exist, it is one free range, and nothing is mapped in it |
| `Kmap.Window.Kmap` | src/paging.c:322-349 | the pages of a fresh range lead to the given frames, nothing else changes, and no page is taken from the pool |
| `Kmap.Window.Kunmap` | src/paging.c:351-382 | exactly the pages of that range lose their translation |
| `KmapRanges.KmapOrder` | src/paging.c:243-250 | the smallest order with enough pages, at most 16 |
| `KmapRanges.TileOfPage` | src/paging.c:267-319 | every page of the window lies in exactly one range |
| `KmapRanges.LiveDeterminesTiles` | src/paging.c:267-290 | what is handed out determines all ranges: free neighbours are always merged |
| `KmapRanges.AllReturned` | src/paging.c:267-290 | with nothing handed out the window is one free range again |
| `KmapRanges.NothingFits` | src/paging.c:294-305 | searching the lists from the right one upwards, and the one below if sizes differ, misses no range |
| `KmapRanges.Ranges.FreeRange` | src/paging.c:267-290 | exactly this range is no longer handed out; tags, lists and merging are right again |
| `KmapRanges.Ranges.AllocRange` | src/paging.c:292-319 | a range of exactly that many pages at the start of a free one, of the lowest order there is among those with room for the next power of two; fails exactly when none is long enough or 65536 pages are asked for |
| `ThreadRuns.RunKeeps` | src/threads.c:68-229 | the invariant is kept by every run |
| `ThreadRuns.EveryRun` | src/threads.c:54-66 | and holds after every run of the kernel from its start |
| `ThreadRuns.BlockIff` | src/mutex.c:29-30 | calling schedule in order to wait keeps the invariant if and only if another thread can run and preemption is on |
| `ThreadRuns.BackTooSoon` | src/mutex.c:22-32 | a caller that waits for a mutex comes back with it, though still queued, if and only if nobody else can run or preemption is off |
| `ThreadRuns.TwoOwners` | src/mutex.c:18-36 | a run in which two threads hold one mutex, for want of an idle thread |
| `ThreadRuns.OnePlace` | src/threads.c:68-82 | each thread is in exactly one place |
| `ThreadRuns.MutualExclusion` | src/mutex.c:18-36 | at most one thread has returned from locking a mutex and not unlocked it |
| `ThreadRuns.FirstComeFirstServed` | src/mutex.c:38-53 | the k-th thread served is the k-th that came |
| `ThreadRuns.NoBarging` | src/mutex.c:18-53 | in every run, who waits is served before anyone who comes later |
| `ThreadRuns.EnoughUnlocks` | src/mutex.c:38-53 | in every run that gives the mutex up more than k times, whoever stood at place k of its queue has been granted it |
| `ThreadRuns.HandOff` | src/mutex.c:48-51 | a mutex given up goes to the thread that has waited longest and is never seen unlocked |
| `ThreadRuns.WaitIsAtomic` | src/condition.c:22-29 | a waiter is queued in the step in which it gives up the mutex |
| `ThreadRuns.WaiterIsListed` | src/condition.c:17-66 | a thread that waits is where a signal finds it |
| `ThreadRuns.BroadcastTakesAll` | src/condition.c:48-55 | a broadcast takes every thread that waits |
| `ThreadRuns.WokenIsReady` | src/condition.c:35-66 | whoever is woken is ready, behind all that were |
| `ThreadRuns.WokenOnlyBySignal` | src/condition.c:17-66 | a step that is not the signal or delivery to it leaves a waiter waiting |
| `ThreadRuns.WaitsUntilWoken` | src/condition.c:17-66 | in every run, a waiter waits until a signal or a delivery wakes it |
| `ThreadRuns.SignalsServeInOrder` | src/condition.c:35-46 | in every run, the waiter at place k of the queue moves up by one with each signal, unless it is woken or taken by a broadcast |
| `ThreadRuns.EnoughSignals` | src/condition.c:35-46 | after more than k signals it has been woken or is on the list of a broadcast: no signal is lost |
| `ThreadRuns.StaysInFlight` | src/condition.c:48-66 | a thread on the list of a broadcast stays there until it is woken |
| `ThreadRuns.BroadcastReturns` | src/condition.c:57-66 | when a broadcast is over, every thread on its list has been woken |
| `ThreadRuns.FinishedForever` | src/threads.c:145-158 | a finished thread never runs again |
| `LockRuns.LockedIffHad` | src/mutex.c:18-53 | after every run from the start, a mutex is locked exactly while one thread has it, or has been granted it and can run |
| `LockRuns.ReturnsWithMutex` | src/condition.c:17-33 | in every run, whoever is in mutex_lock or condition_wait stays in it until it returns with the mutex |
| `LockRuns.CallsBegin` | src/mutex.c:18-36 | mutex_lock takes a free mutex at once and otherwise waits for it, and condition_wait waits for its own |
| `Turns.SliceEnds` | src/threads.c:170-193 | at the end of a time slice the first in the run queue runs and the thread that ran comes last, if and only if the first is not the idle thread |
| `Turns.SliceGoesOn` | src/threads.c:170-206 | within its slice, with preemption off or with nobody else ready, a running thread goes on |
| `Turns.GivesWay` | src/threads.c:170-193 | a thread that cannot go on gives way to the first in the run queue, or to the idle thread if there is none |
| `Turns.TurnComes` | src/threads.c:68-218 | no thread starves: in every run the thread at place k of the run queue has run once more than k slices have ended |
| `Turns.IdlePassedOver` | src/threads.c:224-226 | a run in which the idle thread is dropped from the queue |
| `Turns.PreemptNests` | src/threads.c:44-52 | turning preemption off and on nests in every run |
| `Threads.StepKeeps` | src/threads.c:68-229 | every step keeps the invariant |
| `Rings.Store.SetupQueue` | src/mutex.c:6-11 | a new empty queue, beside all the others |
| `Rings.Store.AddThread` | inc/threads.h:17 | a new thread has nodes of its own, on no queue |
| `Rings.Store.IsEmpty` | src/list.c:54-55 | the pointer test says whether the queue is empty |
| `Rings.Store.PushTail` | src/threads.c:76-77 | relinking the thread's node puts it last on its queue, and every other queue in memory is as before |
| `Rings.Store.PopHead` | src/threads.c:180-183 | the node behind the head leaves, its thread was first, and every other queue in memory is as before |
| `Rings.Store.SpliceOff` | src/condition.c:51-58 | the whole wait queue becomes the list of the caller, in order, and the wait queue is empty |
| `Rings.Store.AtEnd` | src/condition.c:60 | the cursor is at the head exactly when nobody is left |
| `Rings.Store.Advance` | src/condition.c:60-64 | the cursor gives the threads in order, although each may link itself elsewhere once it is woken |
| `Scheduler.Cpu.constructor` | src/threads.c:54-66 | the state in which every run starts |
| `Scheduler.Cpu.PlaceThread` | src/threads.c:68-82 | relinking the node of the thread that stops does what the transition system says, on lists in memory, and the other thread's slice begins now |
| `Scheduler.Cpu.DoSchedule` | src/threads.c:170-193 | the thread taken off the list and the switch are those of the transition system |
| `Scheduler.Cpu.ExpiredExact` | src/threads.c:172-177 | a slice is used up after exactly 10 units, even if the clock wraps around |
| `Scheduler.Cpu.Schedule` | src/threads.c:195-206 | the timer's step, with the time slice taken from the clock: when it is over the first in the run queue runs, with a whole slice before it |
| `Scheduler.Cpu.ScheduleToBlock` | src/mutex.c:29-30 | the blocking step, which keeps the invariant exactly when another thread can run |
| `Scheduler.Cpu.ForceSchedule` | src/threads.c:208-218 | the forced step |
| `Scheduler.Cpu.ThreadActivate` | src/threads.c:136-143 | the thread becomes active, and its node is linked in at the end of the run queue |
| `Scheduler.Cpu.MutexLock` | src/mutex.c:18-36 | takes the mutex or queues the caller |
| `Scheduler.Cpu.MutexUnlock` | src/mutex.c:38-53 | hands the mutex over or unlocks it, and keeps the invariant |
| `Scheduler.Cpu.ConditionWait` | src/condition.c:17-29 | queues the caller and unlocks, in one step |
| `Scheduler.Cpu.ConditionSignal` | src/condition.c:35-46 | the signalling step on the lists, which keeps the invariant |
| `Scheduler.Cpu.ConditionBroadcast` | src/condition.c:48-58 | splicing moves the whole queue to the caller's list, and keeps the invariant |
| `Scheduler.Cpu.BroadcastRound` | src/condition.c:57-65 | one waiter is woken, or the loop ends |
| `Scheduler.Cpu.ThreadExit` | src/threads.c:145-149 | the thread is about to finish |
| `Scheduler.Cpu.RegisterIdle` | src/threads.c:224-225 | the caller becomes the idle thread |
| `Scheduler.Cpu.BecomeIdle` | src/threads.c:226 | and is idle from then on |
| `List.ListInsert` | src/list.c:6-13 | the ring with the new node after the given one |
| `List.ListAdd` | src/list.c:15-16 | the new entry is the first |
| `List.ListAddTail` | src/list.c:18-19 | the new entry is the last |
| `List.ListDel` | src/list.c:21-32 | exactly that entry is gone, and points nowhere |
| `List.ListSplice` | src/list.c:34-52 | all entries move to the front of the other list, in order |
| `List.ListEmpty` | src/list.c:54-55 | true exactly for the empty list |
| `List.ListSize` | src/list.c:60-68 | the number of entries |
| `Stdlib.StrToUL` | src/stdlib.c:5-55 | the value and end position of the specification, for every string |
| `Stdlib.AccumulateExact` | src/stdlib.c:35-46 | over a run of digits the loop is exact, or it saturates on the way, without intermediate overflow |
| `Stdlib.StrtoulExact` | src/stdlib.c:5-55 | for every string, in base 0 and bases 2 to 36: value and end position are those of the standard if and only if there is nothing behind blanks and sign, or there are digits behind the prefix, nothing behind them, and their value fits (or is the largest number) |
| `Stdlib.NothingReported` | src/stdlib.c:11-33 | for every string and every base: nothing is reported as read just when blanks, sign and prefix use up the string, which is when there is nothing, or a zero with or without an `x` |
| `Stdlib.LoneZero` | src/stdlib.c:19-33 | a zero that is lost |
| `Stdlib.ReadsOn` | src/stdlib.c:35-46 | a number that is spoilt by what follows it |
| `Stdlib.OverflowExact` | src/stdlib.c:35-54 | on overflow the result is the largest number, or 1 with a minus, and the end position is that of the first digit that makes the number too large |
| `Stdlib.ReverseInPlace` | src/stdlib.c:72-77 | the part of the buffer is reversed and nothing else is touched |
| `Stdlib.Ulltoa` | src/stdlib.c:57-80 | the digits and a terminating zero, and nothing in front of or behind them is touched |
| `Stdlib.Lltoa` | src/stdlib.c:82-94 | the same with a sign |
| `Stdlib.DigitsCanonical` | src/stdlib.c:57-68 | what is printed has decimal digits and small letters only and no zero in front |
| `Stdlib.DigitsUnique` | src/stdlib.c:57-68 | and it is the only such string with that value |
| `Stdlib.RoundTrip` | src/stdlib.c:5-80 | parsing what was printed gives the number back, for all 64-bit numbers and bases 2 to 36 |
| `Stdlib.SignedRoundTrip` | src/stdlib.c:5-94 | the same modulo 2^64 for all signed numbers but the smallest |

## Left out

- src/file_system.c, src/initramfs.c, src/print.c: not modelled; of the initramfs only its address range is an input of `BootMap`.
- src/serial.c, src/i8259a.c, src/time.c, src/ints.c, src/backtrace.c, assembly files: device and processor access; `__thread_switch` is an atomic change of the running thread.
- src/paging.c:48-83: the page counter, which nothing calls.
- src/memory.c:87-146 and 274-316: the search through several zones. One zone is modelled, and the descriptors of a zone are cleared at setup; the length of the call that clears them (src/memory.c:78) is 0, so the program relies on memory being zero.
- src/memory.c:375-383, src/alloc.c:179-192, src/alloc.c:368-372: thin wrappers, the loop of `mem_alloc_shrink` over the caches and `mem_cache_release`, whose loop is that of `mem_cache_shrink`.
- TLB flushes, spin locks, packed structures and pointer tag bits: abstracted to fields; a spin lock is what makes a region a step. `preempt_cnt` is modelled where threads can set it.
- Balloc.AddRange: ranges are unbounded integers, so a map entry that wraps around at 2^64 is not modelled.
- Balloc.Alloc: takes for granted the spare nodes that the call needs, as do `Balloc.AddRange`, `Balloc.RemoveRange` and `BootMap.ParseMmap`; with fewer the program stops (src/balloc.c:31-40).
- Balloc.FindFit: the mask arithmetic for a power-of-two alignment is written as rounding up to a multiple, which is the same for powers of two.
- PageBuilder.Tables.PtMapPages: takes nonempty ranges. For an empty one inside an existing large page the program would follow the large page as if it were a table.
- PageBuilder.Tables.MapPages: the writable and user bits of entries take no part in translation and are dropped.
- SlabLayout.LayoutSetup: sizes are unbounded integers; the program's would overflow close to 2^61.
- Threads.StepKeeps: creating and destroying a thread's stack is not modelled, and the number of a thread is not used again.
- Rings.Store.AddThread: the list node that a waiting thread has on its stack is modelled as one node that it keeps, since it waits for one thing at a time; that the stack frame is gone after the wait is not modelled.
- Scheduler.Cpu.ThreadExit: `thread_join` and the loops of `thread_exit` and `idle` only repeat `force_schedule`, which is `Scheduler.Cpu.ForceSchedule`.
- Stdlib.Lltoa: the smallest value is excluded, since negating it is undefined in the language.
- Stdlib.StrToUL: characters are those of ASCII, and the string ends where its zero would stand.
