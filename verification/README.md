# Verified models of the micael kernel's core

This project models, in Dafny, the parts of the micael kernel whose state has to agree with something
much simpler over every run, and proves that it does, or exactly when it does:

- **Copy-on-write address spaces** (`PageTables`, `ForkSharing`, `Teardown`, `AddressViews`,
  `FrameCounts`, `AddressSpaces`). Four-level page tables lie in physical frames that several processes share after a
  fork. Over every run of spawns, mappings, forks, stores and exits, each process sees exactly what it
  would see if fork had copied every page (`AddressSpaces.Mmu.Run` against `AddressViews.EagerRun`).
  A local ownership record per frame carries the proof: tables form trees that never meet, a page that is
  not shared is mapped once in the whole system, nothing reachable is on the free list. Frames are conserved by
  every operation, each fails only for want of frames, and a run succeeds whenever the free list holds what its
  operations need (`FrameCounts.Need`).
- **The page frame allocator** (`BlockRanges`, `PageFrames`). Per-order free lists, repeated halving and a
  page array. Every claimed page is in exactly one block, free or live, after every run; the page array says
  the same. Memory is claimed for the zone it lies in, and as many pages can be allocated as the normal zone's
  lists hold.
- **The binary heap and the MTS scheduler over it** (`BinaryHeap`, `RunQueueSteps`, `Selection`,
  `SchedulerRuns`, `TickUsage`, `Scheduler`). The heap is a priority bag. On one CPU no task is lost or duplicated by
  admission, timer interrupts, blocking and waking, and all counters agree with the queues. A timer interrupt
  brings another task only from the head of the queue and keeps the same one only if none queued beat it; the
  processor idles exactly when nothing was queued and nothing was running; and exactly when a queued task
  outranks the running one afterwards is stated too.
- **IPv4 fragmentation and reassembly** (`Fragmentation`, `Reassembly`), section 3.2 of RFC 791. Any
  datagram the sender takes comes back byte for byte, once, on the last arrival, for every arrival order and
  with any other traffic between, exactly when the fragment that arrives first is long enough.
- **TCP in-order acceptance** (`TcpStream`, `TcpDelivery`), section 3.4 of RFC 9293. Over a network that drops, repeats
  and reorders, each side takes a prefix of what the other wrote. No acknowledgement removes a segment from the
  retransmission queue before the peer has taken it, and as long as nothing is given up and something is
  missing, a queued segment is what the peer expects. Every segment taken is acknowledged and its acknowledgement
  takes it off the queue, so from every state that can be reached arrivals alone can finish the job, with one
  exact exception (`CanFinishIff`).
- **The kernel heap, the slab caches, the hash index and the sliding sampler** (`HeapChunks`, `Slab`,
  `HashIndex`, `Sampler`).

## How the model is built

Code that updates state step by step is a class whose methods follow the code; each method is tied to a
function of the old state, and what the code promises is proved about those functions and as an invariant
(`Valid`). Where such a function fixes a number the code fixes, a lemma or a clause says so without naming it.
Automatic induction is switched off on every lemma, so each proof is the one written. Arrays stay arrays where the code works in place (the heap's elements, the page array, the hash
slots). Pointers to records are keys of a map or positions in a sequence. Each kernel entry point is one
step; locks are not modelled, so every step is atomic.

Physical memory is a map from frame numbers to 512 words, and a word is split without loss into a frame
number and twelve flag bits. The three nested loops of fork and of teardown are one method per level that
calls itself (`CopyTable`/`CopyEntry`, `FreeTable`/`FreeEntry`) with the leaf loop written out
(`ShareLeaves`, `FreeLeaves`). The kernel stops when memory runs out; the model returns failure, and then
the free list is empty. The allocator below the address spaces is a multiset of free frames: what it promises
is what `PageFrames` proves.

The floating-point heuristics of the scheduler enter only through their outcome: `Load` is an arbitrary
utilisation, an arbitrary comparison with the fair share and an arbitrary share, so most results hold for
every outcome. `TickUsage` ties the outcome to the counters: `Fits` is what holds of it whatever the rounding,
`Exact` is the outcome in exact arithmetic. The idle result needs `Fits`; the example runs take `Exact`
outcomes. Integers are unbounded except where the width matters: heap keys are 32-bit, TCP numbers wrap
at 2^32, hashes are 32-bit, allocator addresses stay below the end of the address space.

## Where the code departs from its intent

- Fork resets the flags of every leaf, so a read-only page comes out writable in parent and child. The eager
  model does the same; `ForkKeepsPermissionsIff` says when it makes no difference.
- The inner loop that claims a range of memory advances by a growing multiple. The blocks tile the range if
  and only if it is at most 2^28 bytes (`ClaimExactIff`); 384 MB is a case that fails.
- A range of memory that ends exactly where the normal zone begins belongs to no zone and does not straddle two,
  so it is not claimed at all (`ClaimMemory`).
- Removing an arbitrary heap element takes the wrong one if and only if a key of `INT_MAX` sits at the root
  and the element is elsewhere (`RemoveElem`). Scheduler keys never get there.
- `mts_get_next`, called when no tick has flagged the active task, drops a task whose timeslice is used up
  in exactly the states `DropsActive` describes (`NextDropsActive`; `DropExample` is a run that gets there); a
  tick always sets the flag first (`TickedAsks`). Blocking the running task takes the counters down twice
  (`BlockKeepsIff`).
- `mts_get_next` reads the best queued priority once, before it adjusts the active task's. A task may be put in
  line and taken again at once (`TakenAgainExample`). A task may go on with a priority below a queued one, or be queued
  above the task it gave way to (`OutrankedIff`, `OutrankedExample`).
- The receiver of fragments places the last fragment by the length of the fragment that came first. A tail
  that comes first and is too short is put too far up and the datagram is never delivered (`Fate`,
  `ShortTailFirstIsLost`).
- The four bytes subtracted from every received TCP payload are the link trailer; without exactly four the
  next number expected is off (`TrailerIff`). For safety alone no more than four behind a payload and at least
  four in all are enough (`PrefixSafety`); more end up in the stream (`LongTrailerIsTaken`), and less in all
  moves the number expected back (`ShortFrameIsUnsafe`).
  A direction is safe for all runs that carry n bytes if and only if n is below 2^32 (`SafeIff`).
- An empty segment written first and not delivered before the bytes behind it is never acknowledged: it waits, and
  is sent again, until it is given up (`StuckForGood`, `EmptyWriteIsStuck`). Nothing else can be in the way of
  finishing (`CanFinishIff`).
- A repeated answer to the opening segment, arriving after `tcp_connect` has returned, stops the kernel of the
  active side (`StopsIff`).
- The sampler's documentation has each class collect a full window before passing an average up. The code
  tests the first class's counter at every level, so every class above the first gets one sample per turn of
  the first (`ReceivedOf`).
- Removal from the hash index leaves a gap that ends later lookups: another hash is found afterwards if and only if
  its lookup does not come past the slot (`StillFoundIff`, `HiddenByRemoval`). It never lowers the count of items,
  so a table takes no more insertions in all than it has slots (`Churn`), and it follows a null pointer in exactly
  the cases of `FaultIff`.
- `kfree` has its two merge calls commented out. The merge routines are modelled and proved on their own.
- `bh_insert` falls off its end without returning a value on success; the model returns `Inserted`.

## Model

| member | source | states |
|---|---|---|
| AddressSpaces.Mmu.AllocEntry | kernel/arch/amd64/mmu.c:53-59 | a table frame comes off the free list zeroed, owned by nobody, marked present and writable; no walk of any process changes; fails exactly when the list was empty |
| AddressSpaces.Mmu.EnsureTable | kernel/arch/amd64/mmu.c:74-76 | one level of a mapping: afterwards the entry leads to a table owned at that path, every walk in the system is as before, nothing else is written; at most one frame is taken, and it fails only when there was none |
| AddressSpaces.Mmu.EnsureTables | kernel/arch/amd64/mmu.c:74-90 | the three upper levels: the walk of the page reaches its bottom table and no leaf anywhere has changed |
| AddressSpaces.Mmu.MapPage | kernel/arch/amd64/mmu.c:62-93 | the four-level walk of v yields paddr with the flags asked for, the walk of every other page of every space is unchanged, the tree shape and ownership are kept, what left the free list is what became owned; fails only with fewer than three frames |
| AddressViews.MappingTouchesOneWalk | kernel/arch/amd64/mmu.c:74-91 | building upper tables and writing one leaf changes one walk only |
| AddressSpaces.Mmu.RootTable | kernel/arch/amd64/mmu.c:147-151 | slots 0 to 510 zero, slot 511 the kernel's |
| AddressSpaces.Mmu.BuildDir | kernel/arch/amd64/mmu.c:137-151 | a new space sees nothing, the others see what they saw; one frame is taken, and it fails exactly when there was none |
| AddressSpaces.Mmu.ShareLeaf | kernel/arch/amd64/mmu.c:273-277 | parent and child entry both become the same copy-on-write, read-only entry for the frame, which turns shared |
| AddressSpaces.Mmu.ShareLeaves | kernel/arch/amd64/mmu.c:272-279 | every leaf below a bottom table is shared, everything outside the subtree untouched |
| AddressSpaces.Mmu.CopyTable | kernel/arch/amd64/mmu.c:238-284 | every walk below the copied table gives in parent and child the shared form of what the parent had, for every level |
| AddressSpaces.Mmu.CopyEntry | kernel/arch/amd64/mmu.c:240-254 | one present upper entry: the child gets its own fresh table there and the walks through it are forked |
| AddressSpaces.Mmu.DuplicateDir | kernel/arch/amd64/mmu.c:228-290 | fork looks exactly like copying every page eagerly: parent and child see a copy, nobody else sees a change; it takes one frame per table of the parent at most and fails only with fewer |
| ForkSharing.ShareEntryOk | kernel/arch/amd64/mmu.c:274-276 | turning a private leaf into a shared one keeps the ownership invariant |
| ForkSharing.ForkStep | kernel/arch/amd64/mmu.c:258-280 | forking one subtree more extends what is forked without disturbing the subtrees done before |
| AddressViews.ForkView | kernel/arch/amd64/mmu.c:228-290 | tables forked walk by walk give the eager view of parent and child |
| AddressViews.ForkKeepsPermissionsIff | kernel/arch/amd64/mmu.c:274-276 | a fork leaves a process's view as it was if and only if all its pages were writable |
| AddressViews.ForkMakesWritable | kernel/arch/amd64/mmu.c:274-276 | a run in which a page mapped read-only comes out of a fork writable in parent and child |
| AddressSpaces.Mmu.Walk | kernel/arch/amd64/page_fault.c:68-83 | the handler's walk finds the bottom table exactly when all upper entries are present |
| AddressSpaces.Mmu.PageFault | kernel/arch/amd64/page_fault.c:63-101 | the fault is resolved, invisibly to every process and leaving the page writable, with exactly one frame off the list; or refused, changing nothing, exactly when the entry is absent or not a copy-on-write one without write permission; the kernel stops exactly when the page is shared and no frame is free |
| AddressSpaces.Mmu.CopyPage | kernel/arch/amd64/page_fault.c:88-101 | a private writable copy replaces the shared page, one frame leaves the list and no process sees a difference; out of memory exactly when no frame was free |
| AddressViews.CopyKeepsView | kernel/arch/amd64/page_fault.c:92-98 | replacing a shared page by a copy of it leaves the view of every space unchanged |
| AddressViews.HwLeafAgrees | kernel/arch/amd64/mmu.c:74-91 | upper levels never get in the way: a user access depends on the leaf entry alone |
| AddressSpaces.Mmu.Load | kernel/arch/amd64/page_fault.c:63-86 | a user load reads what the process's view holds, and fails exactly where nothing is mapped |
| AddressSpaces.Mmu.Store | kernel/arch/amd64/page_fault.c:88-101 | a store, retried after a fault, changes one word of one page of one process as in the eager world, is refused exactly where the view is not writable, and stops the kernel exactly when a copy is needed and no frame is free |
| AddressViews.ViewAfterStore | kernel/arch/amd64/page_fault.c:94-98 | writing in place through a writable entry is seen by its own page alone |
| AddressSpaces.Mmu.FreeLeaf | kernel/arch/amd64/mmu.c:327-332 | a private page is wiped and freed, a shared or absent one left alone |
| AddressSpaces.Mmu.FreeLeaves | kernel/arch/amd64/mmu.c:326-333 | all private pages of a bottom table and no others are freed |
| AddressSpaces.Mmu.FreeTable | kernel/arch/amd64/mmu.c:304-348 | every table and private page below goes to the free list once, tables still standing are untouched |
| AddressSpaces.Mmu.FreeEntry | kernel/arch/amd64/mmu.c:320-342 | one present upper entry: what lies below, then the table itself |
| AddressSpaces.Mmu.DestroyDir | kernel/arch/amd64/mmu.c:292-351 | all tables and private pages of the space are free, only frames it owned were freed and none twice, every other space sees what it saw |
| Teardown.TornDownOk | kernel/arch/amd64/mmu.c:345-350 | after teardown the invariant holds of the spaces that remain and their frames are untouched |
| Teardown.EverythingReturned | kernel/arch/amd64/mmu.c:304-350 | every table and every unshared page of the space is on the free list and nothing else was added |
| PageTables.PrivateFrameMappedOnce | kernel/arch/amd64/mmu.c:326-333 | a frame behind a mapping that is not copy-on-write is mapped exactly once in the whole system |
| PageTables.TablesAreTrees | kernel/arch/amd64/mmu.c:74-90 | distinct spaces, and distinct paths of one space, never meet in a table |
| PageTables.ReachableIsNotFree | kernel/arch/amd64/mmu.c:335-350 | no table or page a live space reaches is on the free list, and no page is a table |
| AddressSpaces.Mmu.LoadPage | kernel/fs/binfmt_elf.c:64-78 | taking a frame, mapping and filling it shows in one page of one process only; fails only with fewer than four frames |
| AddressSpaces.Mmu.Run | kernel/arch/amd64/mmu.c:137-351 | over every run of spawns, mappings, forks, stores and exits the view of all processes is that of the eager world, and the ownership invariant holds; the run succeeds whenever the free list holds the frames its operations need |
| BlockRanges.ClaimRange | kernel/mm/page.c:98-122 | the blocks emitted for a range, order by order |
| BlockRanges.ClaimIsBinaryExpansion | kernel/mm/page.c:108-121 | below one more block of the top order the blocks tile the range, at most one per order: the binary expansion of its page count |
| BlockRanges.ClaimExactIff | kernel/mm/page.c:98-122 | the blocks tile a page-aligned range if and only if it is at most 2^28 bytes |
| BlockRanges.ClaimOf384MegabytesIsWrong | kernel/mm/page.c:114-117 | a range on which the decomposition is wrong |
| BlockRanges.TilesCover | kernel/mm/page.c:113-117 | blocks that tile a range hold each of its pages once and no other page |
| PageFrames.Pfa.GetFreeEntry | kernel/mm/page.c:125-135 | the head of the list is taken, the rest stays |
| PageFrames.Pfa.SplitBlock | kernel/mm/page.c:139-168 | splitting order k for order r leaves one block on each list k-1 to r, laid out one after the other, plus the one returned, and together they hold what the block held |
| PageFrames.Pfa.AllocMem | kernel/mm/page.c:174-228 | the head of the first non-empty list from the order up is taken and cut down; failure exactly when all these lists are empty; the lists have 2^order pages less |
| PageFrames.Pfa.SetPages | kernel/mm/page.c:78-96 | exactly the pages of the block are rewritten, `first` on its head only |
| PageFrames.Pfa.ZoneAddBlock | kernel/mm/page.c:57-76 | the block becomes the head of the list of its zone and order, aligned and of its order's size; the other zone is untouched |
| PageFrames.Pfa.BlockAlloc | kernel/mm/page.c:390-402 | a block of the order becomes live, taken from the normal zone; fails, changing nothing, if and only if every list from the order up was empty |
| PageFrames.Pfa.BlockFree | kernel/mm/page.c:404-417 | a live block becomes the head of its normal list, the dma lists untouched; the two errors, in numbers, change nothing |
| PageFrames.Pfa.ClaimFree | kernel/mm/page.c:343-355 | the lists of the zone hold each page of the range once more and those of the other zone are unchanged; the pages are marked free |
| PageFrames.Pfa.ClaimMemory | kernel/mm/page.c:343-378 | the whole pages of a byte range are claimed, those below 16 MB on the dma lists and the others on the normal ones, also across the border; none if and only if the range ends at the border |
| PageFrames.Pfa.AllocPages | kernel/mm/page.c:385-402 | as many single pages can be allocated in a row as the normal lists hold, and the lists hold that many less |
| PageFrames.Pfa.ClaimThenAlloc | kernel/mm/page.c:343-402 | every page of a range claimed for the normal zone can then be allocated; the next allocation fails if and only if the lists were empty before the claim |
| PageFrames.NoPagesIff | kernel/mm/page.c:205-227 | the lists have no page exactly when they have no block |
| PageFrames.AllocKeepsBalance | kernel/mm/page.c:390-402 | allocation moves a block from the free lists to the live blocks and no page is lost or counted twice |
| PageFrames.AllocKeepsMirror | kernel/mm/page.c:390-402 | a page is marked free exactly when a free block holds it, and live pages know their block's order and head |
| PageFrames.FreeKeepsBalance | kernel/mm/page.c:404-417 | giving a block back keeps every page in exactly one block |
| PageFrames.FreeKeepsMirror | kernel/mm/page.c:404-417 | giving a block back keeps the page array in agreement |
| PageFrames.FreeBlocksDisjoint | kernel/mm/page.c:139-168 | no page is in two free blocks, of one zone or of two |
| PageFrames.LiveIsNotFree | kernel/mm/page.c:390-417 | no page is in a live block and a free one of either zone |
| PageFrames.LiveBlocksDisjoint | kernel/mm/page.c:390-417 | no page is in two live blocks |
| PageFrames.Pfa.Run | kernel/mm/page.c:390-417 | over every run of allocations and matching frees: conservation, disjointness and agreement of the page array |
| BinaryHeap.BHeap.Swap | kernel/lib/bheap.c:26-35 | two elements exchanged |
| BinaryHeap.BHeap.SiftUp | kernel/lib/bheap.c:97-102 | the loop is the recursive sift-up |
| BinaryHeap.SiftUpRestores | kernel/lib/bheap.c:97-102 | sifting up restores heap order, keeps the bag, and brings the element to the root exactly when it beats it |
| BinaryHeap.BHeap.MaxHeapify | kernel/lib/bheap.c:37-53 | terminates and is the recursive sift-down |
| BinaryHeap.SiftDownRestores | kernel/lib/bheap.c:37-53 | sifting down restores heap order and keeps the bag |
| BinaryHeap.RootIsMax | kernel/lib/bheap.c:173-182 | the root carries a greatest key |
| BinaryHeap.BHeap.Insert | kernel/lib/bheap.c:85-103 | exactly the new element is added, the two errors otherwise; still a heap |
| BinaryHeap.BHeap.RemoveMax | kernel/lib/bheap.c:146-171 | an element of greatest key leaves the bag |
| BinaryHeap.RaiseAndPop | kernel/lib/bheap.c:55-65 | what raising, sifting up and popping removes, in both cases |
| BinaryHeap.BHeap.RemoveElem | kernel/lib/bheap.c:55-65 | exactly element i leaves if it is the root or the root's key is below INT_MAX; otherwise the root leaves and element i stays, raised |
| BinaryHeap.BHeap.Remove | kernel/lib/bheap.c:109-128 | the first element of that key in array order leaves, or there is none; with INT_MAX at the root and the element elsewhere, what leaves and what stays instead |
| BinaryHeap.BHeap.RemovePayload | kernel/lib/bheap.c:130-144 | the first matching element in array order leaves, or none matches; with INT_MAX at the root and the element elsewhere, what leaves and what stays instead |
| BinaryHeap.BHeap.PeekMax | kernel/lib/bheap.c:173-182 | a bound on all keys that is attained, INT_MIN for the empty heap |
| BinaryHeap.BHeap.Run | kernel/lib/bheap.c:85-182 | over every sequence of operations with keys below INT_MAX the heap is a priority bag: each step adds, takes a greatest, takes a matching element or shows the greatest key, exactly |
| Scheduler.RunQueue.AdjustBatch | kernel/sched/mts.c:232-264 | the batch branch, for every outcome of the tick-usage comparison |
| Scheduler.RunQueue.AdjustPriority | kernel/sched/mts.c:174-275 | all branches of the priority adjustment, whose values AdjustedInNumbers gives |
| RunQueueSteps.AdjustedOk | kernel/sched/mts.c:174-275 | priorities stay within the heap's safe keys, the low-water mark falls by at most one at a time, a penalised task gets the new lowest priority |
| RunQueueSteps.AdjustedInNumbers | kernel/sched/mts.c:174-275 | priority, scheduling priority, timeslice, class and low-water mark of every branch, in numbers; penalised exactly when grown, at 90 percent or more and over the fair share |
| RunQueueSteps.SleepIsRewarded | kernel/sched/mts.c:191-218 | of two records that differ only in one having slept, short of a batch task's use, the sleeper ends exactly 3 ahead if batch and level if interactive |
| RunQueueSteps.MadeReadyInNumbers | kernel/sched/mts.c:283-311 | the record of a task made ready, in numbers: a fresh slice after sleep or a used-up slice, the same slice after preemption |
| RunQueueSteps.InteractiveOutranks | kernel/sched/mts.c:197-272 | of one task, classed interactive it outranks itself undecided and that outranks itself as a batch task short of its share; timeslices grow the other way |
| RunQueueSteps.SliceSettled | kernel/sched/mts.c:294-311 | a task that slept or used up its slice starts a fresh one with its ticks booked, a preempted one continues where it left off |
| Scheduler.RunQueue.MakeReady | kernel/sched/mts.c:283-311 | runtime settled for flagged or blocked tasks, new priority, marked ready |
| Scheduler.RunQueue.ScheduleTask | kernel/sched/mts.c:277-321 | a task already ready is left alone, another is queued or left in hand |
| RunQueueSteps.ScheduleOk | kernel/sched/mts.c:277-321 | the task moves to the heap or stays in hand and nowhere else, and the counters move with it, whichever branch the adjustment takes |
| RunQueueSteps.SwitchToOk | kernel/sched/mts.c:516-540 | the switch keeps every task in one place, also when the active task was queued before it |
| Scheduler.RunQueue.SetupActive | kernel/sched/mts.c:511-548 | idle when the queue was empty, else a switch to the greatest element |
| Scheduler.RunQueue.GetNext | kernel/sched/mts.c:432-549 | the call is the step Next on the state, with the greatest key seen and a greatest element taken |
| RunQueueSteps.NextOk | kernel/sched/mts.c:432-549 | unless it drops the active task, picking leaves each task in one place with all counters right |
| RunQueueSteps.NextDropsActive | kernel/sched/mts.c:486-514 | in the states excluded there the active task ends up nowhere |
| RunQueueSteps.NextSelects | kernel/sched/mts.c:474-540 | a switch takes a task that no task queued before the call beats, and the idle task only when none was queued before the call |
| Scheduler.RunQueue.Tick | kernel/sched/mts.c:569-623 | no switch asked for means time is left and no queued task beats the active one |
| RunQueueSteps.TickedAsks | kernel/sched/mts.c:607-620 | a tick that asks for a switch has set the flag that keeps the active task from being dropped |
| RunQueueSteps.TimerOk | kernel/sched/mts.c:432-623 | a timer interrupt loses no task and duplicates none, for every outcome of the heuristics |
| Selection.TimerRunsOn | kernel/sched/mts.c:474-540 | the same task runs after a timer interrupt only if none queued beat it, past its slice only if none equalled it, whether it was kept or put in line and taken again |
| Selection.TimerPicks | kernel/sched/mts.c:516-540 | another task comes to run only from the queue, with the greatest queued priority |
| Selection.SliceGoesOn | kernel/sched/mts.c:569-623 | while its slice lasts and nobody queued beats it, a task runs on and an interrupt does nothing but count |
| Selection.SliceIsRenewed | kernel/sched/mts.c:486-509 | a task that beats everybody queued and is not over its share gets a fresh slice when its own is over; nothing moves |
| TickUsage.AloneIsNotPenalised | kernel/sched/mts.c:232-244 | with nothing queued no task is over its share, since none has run for longer than it has lived |
| TickUsage.ExactFits | kernel/sched/mts.c:190-248 | the exact outcome of the heuristics is one that fits |
| Selection.NeverExpelled | kernel/sched/mts.c:232-264 | a lone task is never penalised, so it is never queued with the processor left idle |
| Selection.IdleIff | kernel/sched/mts.c:442-548 | the processor idles after an interrupt if and only if nothing was queued and nothing was running, and then nothing is queued |
| Selection.OutrankedIff | kernel/sched/mts.c:474-540 | a queued task outranks the running one afterwards exactly when the adjusted priority of the old active task fell below the best queued one while it ran on, or rose above the one it gave way to |
| Selection.TimerSelects | kernel/sched/mts.c:432-623 | the selection guarantee in one |
| SchedulerRuns.RunGood | kernel/sched/mts.c:364-740 | after every run of events each task is in one place and the counters agree |
| SchedulerRuns.RunIdlesIff | kernel/sched/mts.c:432-623 | the same at every interrupt of every run, with the heuristics computed from the counters |
| SchedulerRuns.TakenAgainExample | kernel/sched/mts.c:501-527 | a run, its heuristics computed from the counters, at tick 30 of which the running task is penalised, queued and taken again |
| SchedulerRuns.OutrankedExample | kernel/sched/mts.c:501-505 | a run, its heuristics computed from the counters, after which a task goes on with priority 7 while 8 is queued |
| SchedulerRuns.DropExample | kernel/sched/mts.c:486-514 | a run, its heuristics computed from the counters, to a state in which asking for the next task loses the running one |
| Scheduler.RunQueue.OnTimer | kernel/sched/mts.c:432-623 | a whole timer interrupt of the real queue: another task only from the queue and unbeaten, the same task only if unbeaten and past its slice only if unequalled, nothing but counting while a slice lasts unbeaten; idle if and only if nothing was queued or running, whenever the heuristics fit the counters; and the exact condition for being outranked |
| Scheduler.RunQueue.Admit | kernel/sched/mts.c:364-430 | refused exactly for a null task or a nice value beyond 4; else the task is queued and counted once, its record given in numbers |
| RunQueueSteps.AdmittedOk | kernel/sched/mts.c:395-419 | admission keeps the partition and the counters |
| RunQueueSteps.AdmittedInNumbers | kernel/sched/mts.c:380-419 | a new task starts at priority 9 + nice with a slice of 10, and the low-water mark takes it in |
| Scheduler.RunQueue.Block | kernel/sched/mts.c:662-708 | the task moves to the wait list; the invariant survives exactly when it was not the running one |
| RunQueueSteps.BlockKeepsIff | kernel/sched/mts.c:662-708 | blocking keeps the invariant if and only if the task is not running |
| RunQueueSteps.ParkingTheRunning | kernel/sched/mts.c:691-694 | blocking the running task leaves the ready count one below the queue |
| Scheduler.RunQueue.Unblock | kernel/sched/mts.c:710-740 | a waiting task is queued under its new key and leaves the wait list, its record in numbers: a batch task in the undecided band wakes at 10 + nice; a switch is asked for exactly when the woken task beats the active one; nothing happens before the start or for a task that is not waiting |
| RunQueueSteps.UnblockedOk | kernel/sched/mts.c:724-735 | waking keeps the partition and the counters |
| RunQueueSteps.UnblockedInNumbers | kernel/sched/mts.c:277-321 | what waking makes of the record of the task, and of no other |
| RunQueueSteps.PlaceOf | kernel/sched/mts.c:672-684 | a task is queued exactly when it is neither active nor waiting |
| Scheduler.RunQueue.Run | kernel/sched/mts.c:364-740 | over every run each task is active, queued or waiting, exactly one of these; nready, nblocked, ntasks and rprio agree with the queues and every heap key with its task; the states passed are those of a run of events |
| Fragmentation.Send | kernel/net/ipv4.c:135-200 | the packets sent are the fragments of the payload |
| Fragmentation.FragmentAt | kernel/net/ipv4.c:177-195 | fragment i carries the i-th stretch of 1480 bytes, says where it belongs and whether more follow |
| Fragmentation.FieldsFit | kernel/net/ipv4.c:178-191 | no fragment exceeds the MTU and no field is cut off |
| Fragmentation.JoinedFragments | kernel/net/ipv4.c:177-196 | the payloads of the fragments in order are the datagram |
| Fragmentation.Receiver.FindSlot | kernel/net/ipv4.c:81-90 | the slot of a fragment, or none where the code would divide by zero or leave the buffer |
| Fragmentation.Receiver.Merge | kernel/net/ipv4.c:107-113 | the payloads of the first slots one after the other, if none is missing |
| Fragmentation.Receiver.Handle | kernel/net/ipv4.c:55-118 | one arrival: delivered whole, kept, or merged, with the new buffers |
| Fragmentation.Receiver.Run | kernel/net/ipv4.c:55-118 | a run of arrivals, ended by a fault |
| Reassembly.SlotOf | kernel/net/ipv4.c:81-90 | a fragment lands in its own slot, the last one exactly if the first arrival was long enough, else beyond all fragments; from the 46th on there is none |
| Reassembly.InAnyOrder | kernel/net/ipv4.c:55-118 | any permutation that starts long enough: pending until the last arrival, then everything in order with the right total size, the buffer gone |
| Reassembly.ShortFirst | kernel/net/ipv4.c:75-96 | any permutation that starts with too short a tail: nothing is ever delivered |
| Reassembly.AnySender | kernel/net/ipv4.c:55-118 | for every sender that cuts into pieces of one length, a multiple of eight, and every arrival order: delivered whole, once and last if and only if there are at most 45 fragments and the first arrival fits |
| Reassembly.Reassembled | kernel/net/ipv4.c:55-200 | for every datagram the sender takes and every arrival order, delivery happens once, whole and last if and only if the first arrival fits |
| Reassembly.FullFirstFits | kernel/net/ipv4.c:75-88 | any order starting with a full fragment fits |
| Reassembly.Independent | kernel/net/ipv4.c:70-118 | what one identifier's packets lead to does not depend on the packets of other identifiers |
| Reassembly.RoundTrip | kernel/net/ipv4.c:55-200 | the round trip with arbitrary other traffic in between, exactly when the first arrival fits |
| Reassembly.ShortTailFirstIsLost | kernel/net/ipv4.c:75-96 | a family of datagrams lost when the tail comes first |
| TcpStream.Endpoint.constructor | kernel/net/tcp.c:518-521 | the numbers after the handshake |
| TcpStream.Endpoint.Write | kernel/net/tcp.c:184-204 | the segment carries the current number and waits under the number that acknowledges it |
| TcpStream.Endpoint.HandleConnected | kernel/net/tcp.c:298-350 | data accepted only at the number expected, with the new number and the acknowledgement in numbers; an acknowledgement takes exactly the first entry of its number off the queue; anything else stops the kernel |
| TcpStream.Endpoint.RemoveUnacked | kernel/net/tcp.c:337-343 | exactly the first entry of that number goes |
| TcpStream.OpenedOk | kernel/net/tcp.c:612-613 | both directions are sound after the handshake |
| TcpStream.Connection.Perform | kernel/net/tcp.c:184-350 | one event of a connection between two endpoints is the step on their states; only segments that were sent arrive |
| TcpStream.Connection.Run | kernel/net/tcp.c:184-350 | a whole run of the two endpoints is the run the theorems below speak about |
| TcpStream.TakesNext | kernel/net/tcp.c:304-333 | a segment is accepted only if it carries the very next bytes |
| TcpStream.DataKeeps | kernel/net/tcp.c:304-335 | an arriving data segment keeps a direction sound |
| TcpStream.AckKeeps | kernel/net/tcp.c:337-343 | an arriving acknowledgement keeps a direction sound |
| TcpStream.WriteKeeps | kernel/net/tcp.c:184-204 | a write keeps a direction sound |
| TcpStream.RunForward | kernel/net/tcp.c:184-350 | every run keeps a direction sound while fewer than 2^32 bytes are written into it, nothing in it is given up and frames have their trailer, whatever the other direction carries |
| TcpStream.RunBackward | kernel/net/tcp.c:184-350 | the same for the other direction |
| TcpStream.RunPrefixed | kernel/net/tcp.c:184-335 | every run keeps what was taken a prefix and the number expected its end, with no more than four bytes behind a payload and four in all |
| TcpStream.PrefixSafety | kernel/net/tcp.c:298-335 | whatever the network drops, repeats or reorders and whatever is given up, each side has taken a prefix of what the other wrote, below 2^32 bytes in that direction |
| TcpStream.StopsIff | kernel/net/tcp.c:336-349 | in every run, an arrival stops the side that connected exactly when it is the answer to its opening segment again, and the other side never |
| TcpStream.DroppedWasTaken | kernel/net/tcp.c:337-343 | a segment leaves the retransmission queue only after the peer has taken its bytes |
| TcpStream.NextIsWaiting | kernel/net/tcp.c:157-182 | as long as something is missing, a segment that still waits is exactly what the peer expects |
| TcpStream.NextIsTaken | kernel/net/tcp.c:304-333 | delivering that segment gets the peer further by its payload |
| TcpStream.AllAcked | kernel/net/tcp.c:132-350 | once nothing waits for an acknowledgement, and nothing was given up, the peer has everything |
| TcpStream.GivenUpIsLost | kernel/net/tcp.c:143-151 | a run in which a segment given up is gone though the peer never got it |
| TcpStream.TrailerIff | kernel/net/tcp.c:329-333 | the next number expected is that of the byte behind the segment if and only if the frame had four trailing bytes, up to the wrap |
| TcpStream.StaleIsTaken | kernel/net/tcp.c:307-333 | a run of one-byte segments after 2^32 of which the very first is taken again |
| TcpStream.SafeIff | kernel/net/tcp.c:298-335 | all runs that write n bytes are prefix-safe if and only if n is below 2^32 |
| TcpStream.LongTrailerIsTaken | kernel/net/tcp.c:329-333 | a run in which trailing bytes beyond four are taken as payload |
| TcpStream.ShortFrameIsUnsafe | kernel/net/tcp.c:329-333 | a run in which a frame of less than four bytes moves the number expected back and an old segment is taken again |
| TcpDelivery.AckRemovesFirst | kernel/net/tcp.c:337-343 | an acknowledgement takes exactly the first segment that waits under its number off the queue |
| TcpDelivery.AckOfNothing | kernel/net/tcp.c:337-343 | one that nobody waits for changes nothing |
| TcpDelivery.InTurnSettles | kernel/net/tcp.c:184-350 | whatever payloads are written, each delivered with its trailer and its reply delivered: all of it taken, in order, nothing left waiting, however much it is |
| TcpDelivery.RunAcknowledged | kernel/net/tcp.c:304-335 | over every run, each end of a segment up to which the peer has taken bytes has been acknowledged |
| TcpDelivery.AckedIffTaken | kernel/net/tcp.c:304-343 | over every run, a waiting segment that carries something has been acknowledged if and only if the peer has taken it |
| TcpDelivery.QueuedWasSent | kernel/net/tcp.c:157-204 | over every run, what waits in the queue is under way |
| TcpDelivery.Drain | kernel/net/tcp.c:337-343 | from any state, delivering the acknowledgements sent leaves in the queue exactly the segments none of them acknowledges, in their order, and changes nothing else |
| TcpDelivery.Deliver | kernel/net/tcp.c:157-182 | from any sound state, delivering segments already sent gets the peer to the end of the stream |
| TcpDelivery.Finish | kernel/net/tcp.c:132-350 | from every state a run reaches, arrivals alone lead to one where everything is taken and at most empty first segments still wait; none if nothing empty was written |
| TcpDelivery.CanFinishIff | kernel/net/tcp.c:132-350 | arrivals alone can get everything taken and the queue empty if and only if no empty first segment is stuck |
| TcpDelivery.StuckForGood | kernel/net/tcp.c:307-343 | such a segment waits through every continuation without giving up |
| TcpDelivery.EmptyWriteIsStuck | kernel/net/tcp.c:184-204 | a run in which that happens |
| HeapChunks.Arena.constructor | kernel/mm/heap.c:242-249 | one free chunk fills the arena |
| HeapChunks.Arena.SplitBlock | kernel/mm/heap.c:100-119 | with at least 33 bytes to spare the chunk has exactly the size asked for and a free chunk of the rest less 25 is linked in behind it; otherwise it keeps its size; headers and links are those of the new layout |
| HeapChunks.Arena.FindFree | kernel/mm/heap.c:121-146 | first fit, or no free chunk is large enough |
| HeapChunks.Arena.Kmalloc | kernel/mm/heap.c:178-204 | the region behind the first chunk that fits, now in use and cut, in numbers, exactly when 33 bytes are to spare; nothing if and only if no free chunk is large enough |
| HeapChunks.AllocatedCuts | kernel/mm/heap.c:100-119 | when a chunk is cut and into what, in numbers |
| HeapChunks.Arena.KmallocMany | kernel/mm/heap.c:100-204 | from one free chunk n regions of one size can be had, one after the other, whenever it has room for them, 25 bytes between them and 8 more |
| HeapChunks.Arena.Kfree | kernel/mm/heap.c:219-230 | that chunk alone becomes free |
| HeapChunks.Arena.MergePrev | kernel/mm/heap.c:148-162 | the whole row of free chunks up to this one becomes one chunk, which is returned; links right, every chunk in use untouched, no free chunk before it |
| HeapChunks.Arena.MergeNext | kernel/mm/heap.c:164-176 | the whole row of free chunks from this one on becomes one chunk; links right, every chunk in use untouched, no free chunk behind it |
| HeapChunks.Arena.FreeAndMerge | kernel/mm/heap.c:219-230 | a free followed by both merges takes exactly that chunk out of use and leaves no two free chunks in a row if there were none |
| HeapChunks.SplitTiled | kernel/mm/heap.c:105-116 | splitting keeps the arena tiled |
| HeapChunks.SplitLinked | kernel/mm/heap.c:105-116 | the three headers written are those of the split layout |
| HeapChunks.JoinedLinked | kernel/mm/heap.c:153-159 | the two headers written are those of the joined layout |
| HeapChunks.CollapsedLive | kernel/mm/heap.c:148-176 | making a row of free chunks one leaves every chunk in use untouched |
| HeapChunks.MergedBothWays | kernel/mm/heap.c:226-227 | merging backwards and then forwards joins the whole row around the chunk |
| HeapChunks.FreeAndMergeCoalesces | kernel/mm/heap.c:226-227 | with both merges, a free leaves no two free chunks in a row if there were none |
| HeapChunks.AllocatedBooks | kernel/mm/heap.c:178-204 | allocation adds exactly one region, as large as asked, and keeps the others |
| HeapChunks.RegionsDisjoint | kernel/mm/heap.c:100-204 | regions handed out lie in the arena and never overlap |
| HeapChunks.Arena.Run | kernel/mm/heap.c:178-230 | over every run the chunks tile the arena with consistent links, and those in use are exactly the regions handed out and not given back |
| Slab.Create | kernel/mm/slab.c:140-165 | refused exactly for sizes of zero or above a page; sizes rounded up to even |
| Slab.Cache.TakePage | kernel/mm/slab.c:72-84 | a new page raises the capacity by its entries |
| Slab.PageIsUsedUp | kernel/mm/slab.c:76-84 | a page is cut into as many entries as fit in 4096 bytes |
| Slab.Cache.CutEntry | kernel/mm/slab.c:221-241 | the next entry of the page, never handed out before |
| Slab.Cache.AllocEntry | kernel/mm/slab.c:186-248 | an entry not in use: the first one given back, else the next of the page; a new page only when every entry of all pages is in use |
| Slab.Cache.FreeEntry | kernel/mm/slab.c:250-272 | the entry goes behind the first of the free chunks; null is refused |
| Slab.LiveDisjoint | kernel/mm/slab.c:186-272 | live entries never overlap and lie wholly inside a page of the cache |
| Slab.NextIsNew | kernel/mm/slab.c:221-241 | the entry about to be cut was never handed out |
| Slab.Run | kernel/mm/slab.c:186-272 | over every run of allocations and frees the live entries are those the client holds, with all invariants kept |
| HashIndex.HashIsBijective | kernel/lib/hashmap.c:35-47 | the numeric hash has a two-sided inverse on 32-bit values |
| HashIndex.SameHash | kernel/lib/hashmap.c:35-47 | storable numeric keys never collide |
| HashIndex.XorBits | kernel/lib/hashmap.c:42-44 | each bit of the exclusive or |
| HashIndex.ProbeIs | kernel/lib/hashmap.c:114-126 | the i-th slot looked at is (hash + i) mod capacity |
| HashIndex.HashMap.FindFreeBucket | kernel/lib/hashmap.c:112-129 | the first free slot on the wrap-around probe path, none exactly when all twelve probes are taken |
| HashIndex.InsertReachable | kernel/lib/hashmap.c:112-161 | every item stays reachable over occupied slots from the start of its probe path |
| HashIndex.InsertAgrees | kernel/lib/hashmap.c:131-161 | after an insertion every lookup gives what the first insertion under its hash stored |
| HashIndex.NoSpaceIff | kernel/lib/hashmap.c:136-152 | no room exactly when all the slots a hash may use are taken |
| HashIndex.NoSpaceMeans | kernel/lib/hashmap.c:112-152 | no room exactly when the twelve slots from the hash on are taken |
| HashIndex.HashMap.Put | kernel/lib/hashmap.c:131-161 | the four answers of an insertion and what it adds; no room exactly when the twelve slots from the hash on are taken |
| HashIndex.HashMap.Find | kernel/lib/hashmap.c:192-217 | the data first stored under the hash, or nothing |
| HashIndex.HashMap.Remove | kernel/lib/hashmap.c:163-190 | the first slot of that hash, used or not, is vacated and the hash no longer found; the errors, and the null pointer, otherwise |
| HashIndex.RemovedIsGone | kernel/lib/hashmap.c:177-183 | a removed hash is not found, even if it was stored twice |
| HashIndex.StillFoundIff | kernel/lib/hashmap.c:163-217 | after a removal another stored hash is found if and only if its lookup did not come past the slot |
| HashIndex.HiddenByRemoval | kernel/lib/hashmap.c:163-217 | a table in which a removal hides an item that is still stored |
| HashIndex.FaultIff | kernel/lib/hashmap.c:177-185 | the null pointer is followed if and only if a slot never used comes within twelve and before one of that hash |
| HashIndex.HashMap.Churn | kernel/lib/hashmap.c:131-190 | over every run of insertions and removals no more insertions succeed than there are slots |
| HashIndex.HashMap.Run | kernel/lib/hashmap.c:131-217 | over every run without removals each lookup gives the earliest successful insertion under that very key |
| Sampler.Init | kernel/lib/sample.c:77-106 | refused exactly for an empty window or no class |
| Sampler.AddHolds | kernel/lib/sample.c:135-145 | the running total stays the sum of the last samples and the ring holds them |
| Sampler.AverageBounds | kernel/lib/sample.c:147-148 | the average of the last w samples is their sum over w, rounded down |
| Sampler.SlidingSampler.AddSample | kernel/lib/sample.c:157-162 | one more sample reaches every class that should get one |
| Sampler.SlidingSampler.AddFrom | kernel/lib/sample.c:128-150 | the recursion up the classes |
| Sampler.AverageIsByte | kernel/lib/sample.c:147-148 | every value passed up fits a byte |
| Sampler.ReceivedOf | kernel/lib/sample.c:147-148 | a class above the first has received floor(n / w_size) samples |
| Sampler.SecondClass | kernel/lib/sample.c:128-150 | sample k of the second class is the average of the k-th turn of the first |
| Sampler.HigherClass | kernel/lib/sample.c:128-150 | sample k of a higher class is the windowed average of the class below at that time |
| Sampler.SlidingSampler.GetAvg | kernel/lib/sample.c:172-181 | the stored total gives the average of the last w_size samples of the class, or the two errors |
| Sampler.SlidingSampler.Run | kernel/lib/sample.c:128-162 | after any samples every class holds what it should |

## Left out

- 2 MB pages in fork and teardown, the device mappings made by `mmu_native_build_dir`, TLB flushes and the switch of cr3.
- AddressSpaces.Mmu.MapPage: takes user mappings of 4 KB pages to frames nobody else owns, as the program loader makes them; a map over a page already mapped leaks the old frame in the code and leaves it without an owner's mapping in the model.
- AddressSpaces.Mmu.LoadPage: fills the frame mapped; the loader copies to the program's entry address and advances by the bytes read.
- Shared frames are never freed by the code, so the model keeps them owned as shared for ever.
- PageFrames.Pfa.ClaimFree: merges the two passes over the memory map (zones, then page array) and covers ranges of at most 2^28 bytes; beyond that the decomposition is wrong (BlockRanges.ClaimExactIff).
- PageFrames.Pfa.ClaimMemory: likewise, and the range must reach a page boundary, because the subtraction wraps otherwise.
- PageFrames.Pfa.BlockFree: takes blocks that are live, or addresses the code refuses; a second free of a block is accepted by the code and puts its pages on the lists twice.
- PageFrames.Pfa.AllocMem: allocates from the normal zone, which the code insists on; the high zone is not modelled.
- BlockRanges.ClaimRange: takes a start not beyond the end, because the subtraction wraps otherwise.
- Coalescing of free blocks does not exist in the code; `page_count` and block descriptors' own memory are not modelled.
- Scheduler.RunQueue.Run: bounds the length of a run by the distance of the lowest priority from INT_MIN, because each penalty lowers it by one without limit; admits at most 256 tasks, the capacity of the heap.
- TickUsage.Exact: exact arithmetic; the code uses single-precision floats, whose rounding can matter only at the very thresholds.
- SchedulerRuns.RunGood: the same bound on the length of a run as Scheduler.RunQueue.Run.
- SchedulerRuns.RunIdlesIff: the same bound on the length of a run.
- Scheduler.RunQueue.GetNext: the active task is not blocked and not unscheduled; those branches follow a block of the running task, which breaks the counters first (RunQueueSteps.BlockKeepsIff), or mts_unschedule.
- Scheduler.RunQueue.Tick: likewise without the branch for a blocked active task.
- Scheduler.RunQueue.Admit: at most 256 tasks; beyond that the code raises the counters and then fails to insert.
- Scheduler.RunQueue.Block: takes tasks that are running or queued; for any other the code follows a null pointer.
- Statistics that nothing in the scheduler reads (`unused_rt`, `total_blocked`, `nexec`), `mts_unschedule`, other CPUs and the near-identical DTS scheduler.
- Locks: every kernel entry point is one atomic step.
- IPv4 headers, checksums, protocol dispatch and packet memory; duplicate fragments; the fragment table is a mathematical map, since removal from the hash index can hide colliding keys.
- TcpStream.Endpoint.HandleConnected: both sides handle segments as an established active side does; the listening side's own delivery has no sequence check and is not modelled. The retransmission table is a list that never refuses a segment; a retransmission is a repeated delivery, and giving up may happen at any time rather than after five tries. After a stop the model goes on with the state unchanged.
- TcpStream.Endpoint.RemoveUnacked: a list stands for the hash table, whose removal has the limits of HashIndex.FaultIff and HashIndex.HashMap.Churn.
- The socket buffer's ten places and `__tcp_read`, which also hands out the trailer bytes.
- HeapChunks.Arena.FindFree: one arena; the list of arenas is overwritten by the code when it adds one.
- HeapChunks.Arena.Kmalloc: one arena; an allocation that does not fit fails where the code adds an arena.
- Slab.Cache.TakePage: pages come from the page allocator only.
- Reuse of slab pages between caches, zeroing of reused entries and destruction of a cache.
- String keys of the hash index.
- HashIndex.HashMap.Run: runs without removals; what a removal does to lookups is stated per removal (HashIndex.StillFoundIff).
- Pipes, wait queues, the VFS, ELF and multiboot parsing, ACPI, drivers, system calls and all i386 code.
