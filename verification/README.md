# Piko/RT, modelled and proved in Dafny

Piko/RT is a small real-time kernel for Cortex-M processors.  This project models the
parts of it whose correctness depends on long-lived invariants, and proves what those
parts are for.

* **Memory.**  The buddy page allocator, the slab allocator that draws its slabs from it,
  and the boundary-tag heap.  In every state that allocations and frees can lead to, the
  allocator's bitmaps (or block list) are the one fully merged description of what is not
  allocated; an allocation fails exactly when nothing fits; allocations never overlap;
  giving everything back restores the first state.
* **Threads.**  The two-level bitmap scheduler, mutexes with their user-space fast path of
  load- and store-exclusives, condition variables, exit and join, as one machine whose
  steps interleave freely.  Every thread is in exactly one place, mutexes exclude, hand-off
  and signalling are first come first served, `cond_wait` loses no signal, and in a run of
  ticks every ready thread gets its turn within twice as many ticks as there are threads.
* **Timers.**  The systick timer list, which its own expiry pass changes while walking it.
* **Primitives.**  Multi-word bitmaps, the circular linked list on the heap of nodes, and
  the number formatting of the C library.

## How it is laid out

| file | content |
|---|---|
| `Options.dfy`, `Sequences.dfy`, `Arithmetic.dfy` | small shared notions |
| `Bitops.dfy` | words as sets of bit numbers; find, set and clear |
| `Buddy.dfy` | canonical decompositions of a set of pages into aligned blocks |
| `PageAllocator.dfy` | the page allocator on its bitmaps |
| `Slab.dfy`, `SlabWorld.dfy`, `SlabRuns.dfy` | one slab cache; several caches and other users on one page allocator; all their runs |
| `Words.dfy`, `Tags.dfy`, `Heap.dfy` | numbers as 32-bit words; the packed tag word; the boundary-tag heap in memory |
| `ListRing.dfy` | the linked list, node by node |
| `RunQueue.dfy`, `Arrival.dfy`, `SchedImpl.dfy` | run queues as values; the order of election; the bitmap scheduler that realises them |
| `Machine.dfy` | kernel state, steps and runs |
| `Placement.dfy`, `MutexProtocol.dfy`, `Protocol.dfy` | the invariant of every run |
| `Guarantees.dfy`, `FastPaths.dfy`, `Conditions.dfy`, `Joins.dfy`, `Elections.dfy`, `Fairness.dfy` | what follows from it for users of mutexes, conditions and join, and about who runs |
| `KernelImpl.dfy` | the kernel on bitmap run queues, thread fields and wait lists, in the order of the C code; it takes the machine's steps |
| `TimerModel.dfy`, `TimerImpl.dfy` | the timers; their code |
| `Itoa.dfy` | `itoa_base` and `strrev` |

`dafny verify dfyconfig.toml` checks everything.

## Readings of the source

* A system call or an election is one step: SVCall and PendSV have the same priority
  (kernel/main.c:90-91).  The instructions of the mutex fast path are separate steps, a tick
  can come between any two of them, and a store-exclusive may fail for no reason.  Taking an
  exception clears the local monitor, as section A3.4 of the ARMv7-M Architecture Reference
  Manual says.
* `sys_pthread_cond_wait` sleeps inside its call of unlock, because the caller is already
  tagged BLOCKED; the lock that follows is a step of its own when the thread next runs.
* A thread unlocks, or waits with, only a mutex it holds, as IEEE Std 1003.1 requires of
  callers.
* The pool of the page allocator starts at a multiple of its largest page.
  `PageAllocation.MaskIsParent` shows that the masking in `free_pages` needs exactly this.
* The page allocator is stated for any number of orders and of largest pages; the kernel's
  own instance is `PageAllocation.BootAllocator`.
* libc/stdlib.c says that bit 31 of a tag is the free bit; its masks use bit 30, and so does
  the model.  Lengths must therefore be below 2^30 (`Tags.LengthField`).
* The comment at kernel/mm/page.c:15 reserves the last page for the early stack.  The map at
  line 21 withholds page 15 from the pool for good and lists the early stack's page 13 as
  free; runs are considered from a state after boot and free live blocks only.
* A timer is only given a time while it is disarmed, and nobody sleeps for zero
  milliseconds.  `TimerModel.SetKeepsExactly` and `TimerModel.SleepKeepsExactly` show that
  this is exactly what the timer list needs, and `TimerModel.MisuseBreaks` that both misuses
  can happen after boot.  The millisecond clock does not wrap.
* The comparison at kernel/mutex.c:55 is what keeps a thread that is on its way into
  `cond_wait` out of the run queues: `Conditions.BlockedTestNeeded`.
* `abs` of the least `int` is undefined, so that value is excluded in base 10.

## Model

| member | source | states |
|---|---|---|
| `Bitops.SetBit` | include/kernel/bitops.h:22-25 | of the 32 bits, exactly the given one becomes set |
| `Bitops.ClearBit` | include/kernel/bitops.h:17-20 | of the 32 bits, exactly the given one becomes clear |
| `Bitops.BitmapSetBit` | include/kernel/bitops.h:27-30 | adds exactly one element to the set a multi-word map denotes |
| `Bitops.BitmapClearBit` | include/kernel/bitops.h:32-35 | removes exactly that element |
| `Bitops.BitmapGetBit` | include/kernel/bitops.h:37-41 | 1 for a member of the denoted set, otherwise 0 |
| `Bitops.FindFirstBit` | include/kernel/bitops.h:43-52 | the least member below any limit, or the limit, for any number of words |
| `Bitops.FindFirstZeroBit` | include/kernel/bitops.h:54-63 | the least non-member below any limit, or the limit |
| `Bitops.BitsAfterUpdate` | include/kernel/bitops.h:27-35 | changing one bit of one word changes one element of the set, and no other word's |
| `Bitops.WordsDetermined` | include/kernel/bitops.h:27-41 | the words of a bitmap are determined by the set it denotes |
| `Buddy.BuddyOf` | kernel/mm/page.c:94-97 | the buddy is the other half of the same parent |
| `Buddy.BuddyInvolution` | kernel/mm/page.c:94-97 | the buddy of the buddy is the block itself, and different blocks have different buddies |
| `Buddy.RemoveCanonicalBlock` | kernel/mm/page.c:50-58 | taking a maximal block out of a page set removes that block, and only it, from the maximal decomposition |
| `Buddy.CanonicalTiles` | kernel/mm/page.c:9-21 | the maximal aligned blocks of a page set tile it: each page is in exactly one |
| `Buddy.WholeBlockIffCanonical` | kernel/mm/page.c:71-74 | a wholly free aligned block of an order exists iff some maximal block has that order or more |
| `Buddy.NoFreeBuddies` | kernel/mm/page.c:104-115 | two buddies below the top order are never both maximal |
| `Buddy.DecompositionUnique` | kernel/mm/page.c:18-21 | a page set has one maximal decomposition |
| `Buddy.SplitInHand` | kernel/mm/page.c:50-58 | a split keeps the bitmaps a decomposition of all but the block being cut |
| `Buddy.MergeMissing` | kernel/mm/page.c:105-110 | absorbing a free buddy leaves the decomposition short of exactly the parent |
| `Buddy.PlaceMissing` | kernel/mm/page.c:111-116 | with no free buddy, listing the block completes the maximal decomposition |
| `PageAllocation.SizeToPageOrder` | kernel/mm/page.c:25-37 | the least order whose pages hold the size, or none when even the largest do not |
| `PageAllocation.AddrIdxInverse` | kernel/mm/page.c:62-92 | index to address and back is the identity, for every order |
| `PageAllocation.IdxAddrInverse` | kernel/mm/page.c:62-92 | address to index and back is the identity exactly for the addresses of blocks of that order |
| `PageAllocation.MaskIsParent` | kernel/mm/page.c:109-110 | masking a block's address gives its parent's, for either half, exactly if the pool's base is aligned to the parent's size |
| `PageAllocation.PageAllocator.constructor` | kernel/mm/page.c:19-23 | the initial bitmaps denote exactly the largest pages of the given map and satisfy the invariant |
| `PageAllocation.PageAllocator.FindFirstFreePage` | kernel/mm/page.c:39-48 | the least free index of an order; -1 exactly if there is none |
| `PageAllocation.PageAllocator.SplitFirstFreePage` | kernel/mm/page.c:50-58 | replaces the first free page by its two halves one order below, and changes no other bit |
| `PageAllocation.PageAllocator.SkipEmptyOrders` | kernel/mm/page.c:71-72 | stops at the first order with a free page, all skipped ones being empty |
| `PageAllocation.PageAllocator.SplitDown` | kernel/mm/page.c:75-77 | splitting down leaves the lowest part in hand and only ever splits an order that has a page |
| `PageAllocation.PageAllocator.AllocPages` | kernel/mm/page.c:67-83 | fails exactly when no aligned block of the order (also an order beyond the largest) is wholly free; otherwise returns the first fit, aligned and apart from every live block; keeps the maximal decomposition |
| `PageAllocation.PageAllocator.FreePages` | kernel/mm/page.c:100-117 | gives back exactly the block's pages and leaves the bitmaps fully coalesced |
| `PageAllocation.PageAllocator.Coalesce` | kernel/mm/page.c:104-116 | the merge loop ends in the maximal decomposition of the pages now free |
| `PageAllocation.EveryPageCoveredOnce` | kernel/mm/page.c:18-21 | each minimum page is in one live block or under one free bit, never both, never twice |
| `PageAllocation.BytesOfBlock` | kernel/mm/page.c:62-65 | a byte is in a block's memory exactly when its page is one of the block's pages |
| `PageAllocation.LiveBlocksDisjoint` | kernel/mm/page.c:67-83 | the memory of two live blocks has no common byte |
| `PageAllocation.FullyCoalesced` | kernel/mm/page.c:104-115 | no two free bits below the top order are buddies |
| `PageAllocation.SameLiveSameBitmaps` | kernel/mm/page.c:67-117 | allocators with the same pages allocated have identical bitmaps, word for word, whatever led there |
| `PageAllocation.RunPages` | kernel/mm/page.c:67-117 | any run of allocations and frees keeps the invariant and the held blocks exactly live; with everything freed, in any order, every word of the bitmaps is back |
| `PageAllocation.BootAllocator` | kernel/mm/page.c:19-23 | the kernel's instance: 15 free pages of 2 KB, which are the 120 first minimum pages |
| `SlabAllocation.AddressRoundTrip` | kernel/mm/slab.c:29-38 | from an object's address alone, slab and bit are recovered, for every accepted size |
| `SlabAllocation.ObjectsFit` | kernel/mm/slab.c:48-61 | all objects of an accepted size lie inside the slab's page, and a slab has 2 to 30 of them |
| `SlabAllocation.ObjectsDisjointInSlab` | kernel/mm/slab.c:106-108 | objects of one slab do not overlap |
| `SlabAllocation.TakeLists` | kernel/mm/slab.c:100-111 | taking an object leaves each slab on exactly the list its count dictates, a moved one at the front |
| `SlabAllocation.GiveLists` | kernel/mm/slab.c:132-136 | giving one back does too, a slab with no other object being dropped |
| `SlabAllocation.KmemCache.Grow` | kernel/mm/slab.c:72-83 | fails exactly when no page is free; otherwise adds one new empty slab to the free list and takes one page |
| `SlabAllocation.KmemCache.PickSlab` | kernel/mm/slab.c:90-104 | the first partial slab, else the first free one, else a new one; fails exactly when there is none of these |
| `SlabAllocation.KmemCache.TakeBit` | kernel/mm/slab.c:106-111 | the first clear bit is set, count and lists follow |
| `SlabAllocation.KmemCache.Alloc` | kernel/mm/slab.c:85-114 | adds exactly one new object to the live ones, in the first partial or else the first free slab if there is one; fails exactly when no slab has room and no page is free; leaves other page blocks alone |
| `SlabAllocation.KmemCache.GiveBit` | kernel/mm/slab.c:131-136 | exactly one bit is cleared; the slab goes to its list or, when empty, away |
| `SlabAllocation.KmemCache.Free` | kernel/mm/slab.c:124-137 | removes exactly that object, returns an empty slab's page, and leaves other page blocks alone |
| `SlabWorld.CacheCreate` | kernel/mm/slab.c:40-70 | fails exactly for sizes below 8 or above 120, or when no slab of the cache of caches has room and no page is free; otherwise the new cache joins the others without disturbing them or any other page block |
| `SlabWorld.AllocFrom` | kernel/mm/slab.c:85-114 | allocating from one cache keeps all caches on the page allocator valid and without common slabs |
| `SlabWorld.FreeTo` | kernel/mm/slab.c:124-137 | so does freeing to one |
| `SlabWorld.TakePages` | kernel/mm/page.c:67-83 | a page allocation by somebody else keeps all caches valid and adds one block that is no slab |
| `SlabWorld.GivePages` | kernel/mm/page.c:100-117 | freeing such a block keeps all caches valid |
| `SlabWorld.ObjectInSlab` | kernel/mm/slab.c:106-108 | an object's bytes lie in its slab's page, past the header |
| `SlabWorld.ObjectInNoOtherBlock` | kernel/mm/slab.c:72-83 | they lie in no other live page block |
| `SlabWorld.ObjectsDisjoint` | kernel/mm/slab.c:85-114 | live objects of all caches are pairwise disjoint |
| `SlabWorld.NoObjectsNoSlabs` | kernel/mm/slab.c:132-134 | a cache without spare slabs and without live objects has no slab |
| `SlabWorld.RunCache` | kernel/mm/slab.c:85-137 | after any run of a cache that began without slabs, once all its objects are freed every word of the page bitmaps is what it was |
| `SlabRuns.KmemCacheInit` | kernel/mm/slab.c:139-143 | the cache of caches starts valid and empty, and takes nobody's pages |
| `SlabRuns.WorldIsApart` | kernel/mm/slab.c:85-137 | no byte is in two live objects, or in a live object and a page block of another user |
| `SlabRuns.RunWorld` | kernel/mm/slab.c:40-137 | after any mix of cache creations, object allocations and frees, and page allocations and frees by others, the caches are valid, what is held is exactly what is live, and nothing overlaps |
| `Words.RoundTrip` | libc/stdlib.c:16-16 | the value of the word of a number below 2^32 is the number |
| `Tags.FreeField` | libc/stdlib.c:38-49 | setting the free bit of any word sets it and keeps the length |
| `Tags.LengthField` | libc/stdlib.c:28-36 | a length is stored intact iff it leaves the free bit's place clear; then the free bit is kept, otherwise it is set |
| `Tags.TagReads` | libc/stdlib.c:28-41 | from the word of a length below 2^30 and a free bit, both are read back |
| `Tags.TagSetLength` | libc/stdlib.c:33-36 | setting the length of a tag gives the word of the new length with the old free bit |
| `Tags.TagSetFree` | libc/stdlib.c:43-49 | setting the free bit of a tag gives the word of the old length with the new free bit |
| `Tags.TagFromAny` | libc/stdlib.c:79-80 | the two writes of malloc at a new tag give the right word whatever was there |
| `Heap.RequestFits` | libc/stdlib.c:64-64 | in 32-bit arithmetic the rounded length has room for the request iff the request is at most 2^32 - 16 |
| `Heap.OneBlockPerByte` | libc/stdlib.c:59-91 | two blocks of the list, and hence two allocations, share no byte |
| `Heap.FreeRunIsBlock` | libc/stdlib.c:68-71 | a run of n free bytes exists iff one free block is that long |
| `Heap.LiveDetermines` | libc/stdlib.c:93-120 | the block list is determined by the live blocks |
| `Heap.AllFreeIsOneBlock` | libc/stdlib.c:93-120 | with nothing allocated, one free block of the original size remains |
| `Heap.HeapState.constructor` | libc/stdlib.c:51-57 | in memory that holds anything, one tag that stands for one free block, the whole heap |
| `Heap.HeapState.SetBlockLength` | libc/stdlib.c:33-36 | a tag's word is rewritten so that this block has the new length and all other tags still stand for their blocks |
| `Heap.HeapState.SetBlockFree` | libc/stdlib.c:43-49 | likewise for the free bit |
| `Heap.HeapState.AddBlock` | libc/stdlib.c:76-81 | a tag is made of whatever word is at a free address, and memory and list then stand for one more block |
| `Heap.HeapState.FindFit` | libc/stdlib.c:68-71 | the first free block that is long enough, or none |
| `Heap.FreeByteIff` | libc/stdlib.c:59-120 | every byte of the heap is in a free block or in an allocated one, and not in both |
| `Heap.CutFits` | libc/stdlib.c:72-86 | the first fit yields one new live block at its end, of exactly the rounded length if the fit exceeds that by more than a tag and at most a tag more otherwise; every other free byte stays free, and the list tiled and merged |
| `Heap.HeapState.Malloc` | libc/stdlib.c:59-91 | fails exactly when no contiguous free run holds the rounded size and tag; otherwise the one new live block lies at the end of the first fit, is long enough and at most a tag longer than the rounded length, and takes no other free byte; the data is 4-aligned exactly if the heap's size is a multiple of 4 or the first block is used whole; the tags in memory stand for a tiled and merged list |
| `Heap.HeapState.Free` | libc/stdlib.c:93-120 | frees exactly that block and its bytes; the tags in memory stand for a list that is tiled, in order and without adjacent free blocks |
| `Heap.HeapState.MergePrevious` | libc/stdlib.c:100-109 | merges backwards, so that the block before the result is not free |
| `Heap.HeapState.MergeNext` | libc/stdlib.c:111-119 | merges forwards, after which the whole list is merged |
| `Heap.RunHeap` | libc/stdlib.c:59-120 | any run keeps the heap tiled and merged, with exactly the data handed out and not yet freed live; when everything is freed the first block is back |
| `ListRing.InitListHead` | include/linux/list.h:30-34 | an empty ring |
| `ListRing.ListEmpty` | include/linux/list.h:180-183 | true exactly for a ring without entries |
| `ListRing.Insert` | include/linux/list.h:42-50 | the new node comes between two neighbours of the ring, both ways |
| `ListRing.ListAdd` | include/linux/list.h:60-63 | the new entry comes first; only the node and its neighbours are written |
| `ListRing.ListAddTail` | include/linux/list.h:74-77 | the new entry comes last |
| `ListRing.Unlink` | include/linux/list.h:86-101 | the ring closes over the entry |
| `ListRing.ListDel` | include/linux/list.h:103-108 | likewise, and the entry is poisoned |
| `ListRing.ListMove` | include/linux/list.h:147-151 | the entry leaves its ring and comes first in another one, or in the same one |
| `ListRing.ListRotateLeft` | include/linux/list.h:208-216 | the first entry becomes the last |
| `ListRing.ListIsSingular` | include/linux/list.h:222-225 | true exactly for a ring with one entry |
| `ListRing.CutAt` | include/linux/list.h:227-238 | both parts are rings, the entries in their old order |
| `ListRing.ListCutPosition` | include/linux/list.h:254-266 | all branches: nothing for an empty ring or a foreign entry, an empty list for the head, the two parts otherwise |
| `ListRing.SpliceBetween` | include/linux/list.h:268-280 | the entries of one ring come between two neighbours of another |
| `ListRing.ListSpliceInit` | include/linux/list.h:313-320 | all entries move to the front, and the source is an empty ring |
| `ListRing.ListSpliceTailInit` | include/linux/list.h:330-337 | all entries move to the back |
| `ListRing.CutThenSplice` | include/linux/list.h:254-320 | cutting anywhere into an empty list and splicing back restores every pointer |
| `ListRing.Entries` | include/linux/list.h:400-401 | the forward walk meets every entry once, in order, and ends |
| `ListRing.RemoveSafely` | include/linux/list.h:417-419 | the safe walk visits every entry although its body unlinks some, and leaves the ring of the others |
| `ListRing.RingUnique` | include/linux/list.h:400-401 | the pointers determine the sequence: one head, one ring |
| `RunQueue.FlatPop` | kernel/sched/bitmap.c:29-38 | election takes the first thread of the flattened queues and leaves the others in order |
| `Arrival.EnqueuedArrives` | include/kernel/bitmap.h:19-40 | a thread that becomes ready comes behind all active threads of its own or a smaller priority number and before all others |
| `Arrival.ElectionOrder` | kernel/sched/bitmap.c:76-112 | an election takes the first active thread, or the first expired one if none is active, and keeps the others' order; on a tick the preempted thread comes behind all expired ones of its own or a smaller priority number |
| `RunQueue.HeadIdle` | kernel/sched/bitmap.c:29-38 | the idle thread is selected exactly when nothing is queued |
| `RunQueue.ElectedBag` | kernel/sched/bitmap.c:76-112 | a tick conserves the ready and running threads; another election leaves out exactly the caller |
| `SchedImpl.BitmapStruct.Enqueue` | include/kernel/bitmap.h:35-40 | the thread becomes the last of its queue, the other queues stay, and the map bits equal non-emptiness |
| `SchedImpl.BitmapStruct.FindNextThread` | kernel/sched/bitmap.c:29-38 | the first thread of the first non-empty queue, found through the map word |
| `SchedImpl.BitmapStruct.QueueDel` | include/kernel/bitmap.h:65-72 | removes any entry of any queue, clearing the map bit exactly when the queue becomes empty |
| `SchedImpl.BitmapSched.Enqueue` | kernel/sched/bitmap.c:40-50 | refines enqueueing on the abstract run queues |
| `SchedImpl.BitmapSched.SelectNext` | kernel/sched/bitmap.c:81-90 | swaps the queue pointers exactly when only the expired queues have threads |
| `SchedImpl.BitmapSched.Elect` | kernel/sched/bitmap.c:76-112 | refines the abstract election, with maps and queues in agreement throughout |
| `Placement.ExactlyOnePlace` | include/kernel/thread.h:36-36 | each thread is exactly once in running, active, expired, mutex list, condition list, joining or exited |
| `Placement.IdleNeverQueued` | kernel/main.c:139-142 | idle is on no queue and no list |
| `Placement.ElectInv` | kernel/sched.c:60-71 | an election keeps every thread in one place, also when the caller has just left the run queues |
| `Placement.ExitInv` | kernel/thread.c:118-140 | exit does, whether or not somebody is joining |
| `Placement.JoinInv` | kernel/thread.c:164-188 | join does, on each of its branches |
| `Joins.JoinOutcome` | kernel/thread.c:164-188 | if the other thread lives and nobody joins it, the caller waits, neither running nor ready; otherwise it goes on at once, with success exactly if the other one is dead and joinable |
| `Joins.JoinWaits` | kernel/thread.c:174-182 | along any run, until the other thread exits, the caller of join neither runs nor is ready |
| `Joins.JoinEnds` | kernel/thread.c:128-131 | the exit of the other thread makes the caller runnable, once |
| `Joins.JoinReturns` | kernel/thread.c:164-188 | a join that is over waited for the exit of the other thread, which is dead for good |
| `Protocol.SysUnlockPlace` | kernel/mutex.c:39-63 | unlock does, for a running caller and for one already on a condition list |
| `Protocol.SysUnlockSync` | kernel/mutex.c:39-63 | when the holder unlocks, a positive word means that a waiter is found, and words, holders and lists stay in agreement |
| `Protocol.FastPathSync` | libc/v7m-pthread.S:15-61 | no load or store of a fast path, failing or not, breaks that agreement |
| `FastPaths.LockTakesFree` | libc/v7m-pthread.S:15-28 | from the call on, lock of a free mutex ends with its caller the holder and running, without a system call, if its store takes place |
| `FastPaths.TryTakesFree` | libc/v7m-pthread.S:32-43 | trylock of a free mutex does too, with result 0 |
| `FastPaths.LockWaits` | libc/v7m-pthread.S:15-28 | from the call on, lock of a held mutex ends with its caller the last waiter, neither running nor ready |
| `FastPaths.TryFails` | libc/v7m-pthread.S:32-43 | trylock of a held mutex returns -1 after its load and changes nothing |
| `FastPaths.TryResultExact` | libc/v7m-pthread.S:32-43 | the result of trylock is 0 exactly if its caller has become the holder, and -1 exactly if it returns with word and holders unchanged |
| `FastPaths.StoreLost` | libc/v7m-pthread.S:20-22 | after a store that does not take place lock and unlock start again, with nothing changed |
| `FastPaths.UnlockFrees` | libc/v7m-pthread.S:47-60 | from the call on, unlock with nobody waiting frees the mutex without a system call |
| `FastPaths.UnlockHandsOver` | libc/v7m-pthread.S:47-60 | with waiters, it makes the first of them the holder |
| `FastPaths.RelockContends` | kernel/cond.c:32-33 | a signalled thread, when it runs, returns with the mutex if that is free, and else is its last waiter |
| `Protocol.StepKeeps` | kernel/mutex.c:12-63 | every step of any thread keeps the whole invariant |
| `Protocol.ReachableInv` | kernel/main.c:150-163 | it holds in every state of every run since boot |
| `Guarantees.MutualExclusion` | libc/v7m-pthread.S:7-7 | word + 1 is holders plus waiters, and there is at most one holder, exactly one if anybody waits |
| `Guarantees.UnlockFindsWaiter` | kernel/mutex.c:44-50 | a holder never reaches "No blocking threads"; the first waiter of this mutex is found on the common list |
| `Guarantees.LockOutcome` | kernel/mutex.c:12-24 | the caller of lock goes on with the mutex if it was free, or else is its last waiter, is neither running nor ready, and the holder stays |
| `FastPaths.StoreIsCompareAndSwap` | libc/v7m-pthread.S:15-61 | a store-exclusive that takes place locks a mutex that is free, or unlocks one that its caller holds and nobody waits for; one that does not changes neither word nor holder |
| `Guarantees.StepHandsOn` | kernel/mutex.c:39-53 | each step changes a mutex's waiters and holders in one of the allowed ways only |
| `Guarantees.MutexFifo` | kernel/mutex.c:14-53 | along every run the waiters of a mutex are served first come first served |
| `Guarantees.FifoPosition` | kernel/mutex.c:26-37 | after r services a waiter with k ahead has k - r ahead |
| `Guarantees.OwnsAfterReleases` | kernel/mutex.c:39-53 | a waiter with k ahead waits until, and owns the mutex at, the release number k + 1 |
| `Guarantees.NoBarging` | libc/v7m-pthread.S:15-43 | while somebody waits, no fast path, trylock or call makes anybody a holder without a release |
| `Conditions.StepAdvances` | kernel/cond.c:38-55 | only a signal on a condition takes from its waiters, and it takes the first |
| `Conditions.CondWaitAtomic` | kernel/cond.c:24-30 | one step both releases the mutex and puts the caller last on its condition |
| `Conditions.BlockedTestNeeded` | kernel/mutex.c:54-60 | without the BLOCKED test a caller on a condition list would end in two places, ready if there is a waiter of the same or a numerically larger priority and running otherwise; with it, in one |
| `Conditions.BlockedTestHarmless` | kernel/mutex.c:54-60 | for any other caller the test makes no difference |
| `Conditions.CondWaitReachesTest` | kernel/cond.c:24-30 | every wait reaches the test with its caller on the list |
| `Conditions.SignalWakesFirst` | kernel/cond.c:38-47 | a signal moves the first waiter of its condition on to contend for the mutex |
| `Conditions.NoSignalNoWakeup` | kernel/cond.c:38-45 | without a signal on its condition a thread stays in its wait, along any run |
| `Conditions.CondWaitReturns` | kernel/cond.c:24-36 | a wait ends only with the mutex held and after a signal on that condition |
| `Conditions.CondFifo` | kernel/cond.c:11-55 | along every run signals serve the waiters of a condition in order; other signals do not disturb it |
| `Conditions.WokenBySignal` | kernel/cond.c:38-47 | the signal after k others wakes the waiter that had k ahead |
| `Elections.YieldOutcome` | kernel/thread.c:102-109 | a yield gives way to the first active thread exactly if that is as urgent as the caller, which then waits behind all that are |
| `Elections.UnlockElects` | kernel/mutex.c:54-60 | after an unlock the caller goes on if nobody waits or the new owner's priority number is smaller; otherwise the most urgent of the active threads, the new owner and the caller runs, in this order among equals |
| `Elections.SignalElects` | kernel/cond.c:45-53 | likewise after a signal |
| `Elections.CreateArrives` | kernel/thread.c:222-246 | a new thread has the priority asked for, arrives by it, and nobody else is affected |
| `Fairness.TicksConserve` | kernel/sched/bitmap.c:76-112 | a run of ticks neither loses nor doubles a thread |
| `Fairness.IdleOnlyWhenEmpty` | kernel/sched/bitmap.c:81-90 | idle is elected exactly when both sets of queues are empty |
| `Fairness.Round` | kernel/sched/bitmap.c:76-112 | the active threads are elected one after the other in the order in which they stand |
| `Fairness.ExpiredInTurn` | kernel/sched/bitmap.c:85-90 | from a swap on, the threads that had expired are elected by successive ticks in the order in which they stand |
| `Fairness.OncePerRound` | kernel/sched/bitmap.c:76-112 | each of them, the one elected by the swapping tick included, is elected exactly once before the next swap |
| `Fairness.FirstExpiredFirstElected` | kernel/sched/bitmap.c:100-106 | of two threads of one priority that are preempted in one round, the first is elected first in the next |
| `Fairness.ElectedWithin` | kernel/sched/bitmap.c:76-112 | every queued thread is elected within 2n ticks, n being the number of threads that can run |
| `Fairness.EveryReadyThreadRuns` | kernel/sched/bitmap.c:76-112 | the same for runs of the whole machine |
| `KernelImpl.KernelState.FindFirst` | kernel/mutex.c:26-37 | the search loop finds the first thread of the list waiting on that address, or none |
| `KernelImpl.KernelState.MutexUnlock` | kernel/mutex.c:39-63 | on bitmap queues, thread fields and the wait list, takes the machine's unlock; -1 exactly when the word says there is a waiter and the list has none |
| `KernelImpl.KernelState.FindThreadById` | kernel/thread.c:150-162 | the walk over the task's list finds exactly its threads |
| `KernelImpl.KernelState.Step` | kernel/main.c:90-91 | whatever any thread does next, the code on bitmaps, fields and lists ends in a state that stands for the machine's next one |
| `KernelImpl.ValidMapsAgree` | kernel/sched/bitmap.c:94-96 | in both sets of run queues, bit p of the map word is set exactly when queue p is not empty |
| `KernelImpl.RunKernel` | kernel/main.c:150-180 | along every run from boot, over every interleaving, the code goes through the machine's states and the map words agree with the queues |
| `TimerModel.SetKeeps` | kernel/time.c:113-156 | settime on a disarmed timer, or to zero, keeps listed equal to not disarmed |
| `TimerModel.SetKeepsExactly` | drivers/timer/systick.c:49-56 | it keeps the list free of double entries iff the timer was disarmed or is being disarmed |
| `TimerModel.SleepKeepsExactly` | kernel/time.c:26-39 | sleeping keeps the list iff the time is not zero |
| `TimerModel.MisuseBreaks` | drivers/timer/systick.c:49-56 | after boot a state is reached in which arming an armed timer, and sleeping for no time, break the list |
| `TimerModel.PassKeeps` | drivers/timer/systick.c:80-94 | so does an expiry pass |
| `TimerModel.ReachableListed` | kernel/time.c:19-156 | after any run since boot a timer is listed, once, exactly when it is not disarmed |
| `TimerModel.PassFires` | drivers/timer/systick.c:84-93 | a pass fires each armed timer whose time is over once, and no other |
| `TimerModel.NotEarly` | drivers/timer/systick.c:51-54 | by the tick count, no timer fires before the nanoseconds asked for, although they are cut to milliseconds |
| `TimerModel.SetTimeNotEarly` | kernel/time.c:113-156 | along any run, no firing comes before the initial time given to settime |
| `TimerModel.SetTimeFirings` | kernel/time.c:113-156 | with punctual passes, the number of firings after n ticks in terms of the times given to settime, on all its branches: none until the initial time and a tick, then one, then one every interval and a tick if there is an interval |
| `TimerModel.SetToZeroStops` | kernel/time.c:126-133 | a timer set to zero does not fire again |
| `TimerModel.SleepFirings` | kernel/time.c:26-45 | a sleeper is woken once, when the milliseconds asked for and a tick have passed |
| `TimerModel.FirstFiring` | drivers/timer/systick.c:85-86 | with punctual passes a timer has fired exactly when the tick after its whole milliseconds has come |
| `TimerModel.WallClock` | drivers/timer/systick.c:51-54 | over all states, runs and instants of arming, no firing is early by the wall clock iff the part of the time below a millisecond is at most one nanosecond |
| `TimerModel.OneShotFiresOnce` | kernel/time.c:77-82 | along any run a one-shot timer left alone fires at most once, exactly if it ends disarmed; a disarmed one never |
| `TimerModel.PunctualFirings` | kernel/time.c:77-90 | when every tick is followed by its pass, the number of firings after n ticks is given in closed form: the first after the request and a tick, then every interval and a tick |
| `TimerImpl.TimerState.Expire` | drivers/timer/systick.c:86-91 | unlinks the timer and, exactly if it is periodic or to become so, links it again at the head |
| `TimerImpl.TimerState.Walk` | drivers/timer/systick.c:83-93 | the walk over the changing list ends, visits each timer that was listed once, and leaves the re-armed ones, last first, before those not due, in order |
| `TimerImpl.TimerState.SystickBottomHalf` | drivers/timer/systick.c:80-94 | is the pass of the model, and reports the timers fired in list order |
| `TimerImpl.TimerState.FindTimerById` | kernel/time.c:51-62 | finds the timer exactly for the ids handed out |
| `TimerImpl.TimerState.SysTimerCreate` | kernel/time.c:92-111 | a new disarmed timer under the least unused id, or EAGAIN exactly when all 32 are used |
| `TimerImpl.TimerState.SysTimerSettime` | kernel/time.c:113-156 | is the model's settime on all branches; EINVAL exactly for an unknown id; the old value is returned |
| `TimerImpl.TimerState.MsleepArm` | kernel/time.c:26-39 | arms a one-shot for exactly the milliseconds asked for |
| `TimerImpl.TimerState.MsleepFree` | kernel/time.c:41-44 | frees the sleeper's timer, which is then on no list |
| `Itoa.NumeralParses` | libc/utils.c:48-51 | the digits made by repeated division read back as the value, without a leading zero |
| `Itoa.NumeralUnique` | libc/utils.c:48-51 | no other digit string without leading zeros does |
| `Itoa.NumeralLength` | libc/utils.c:48-51 | at most n digits iff the value is below the n-th power of the base |
| `Itoa.TextParses` | libc/utils.c:33-58 | the text reads back as the value, signed in base 10 and as unsigned 32-bit otherwise |
| `Itoa.TextInjective` | libc/utils.c:33-58 | different values have different texts |
| `Itoa.FitsSixteen` | libc/stdio.c:9-9 | all texts of a base fit a 16-byte buffer iff the base is at least 5 |
| `Itoa.PrintfLengths` | libc/stdio.c:45-51 | at most 11 characters in base 10 and 8 in base 16 |
| `Itoa.StrRev` | libc/utils.c:4-24 | the characters before the terminator are reversed in place, everything else is kept |
| `Itoa.WriteDigits` | libc/utils.c:48-51 | the loop writes the digits, least significant first, and nothing else |
| `Itoa.ItoaBase` | libc/utils.c:33-58 | NULL for a null buffer or a base above 36, with the buffer unchanged; otherwise the terminated text, and nothing behind it is written |

## Left out

- Itoa.ItoaBase: bases below 2 are excluded, because base 0 divides by zero, base 1 does not end except for the value 0, and negative bases read outside the digit table; the least int is excluded in base 10 because `abs` is undefined there.
- Heap.HeapState.Malloc: requests above 2^32 - 16, whose rounded length wraps around to less than was asked for; `Heap.RequestFits` proves that these are exactly the ones.
- Heap.HeapState.constructor: heaps of at least one tag and below 2^30 bytes only; a longer one would overwrite its own free bit (`Tags.LengthField`).
- The data bytes of the heap, and the list nodes inside the tags: the list is a sequence of tag addresses.
- PageAllocation.PageAllocator.FreePages: frees of live blocks only; the source cannot tell others apart.
- KernelImpl.KernelState.ThreadJoin: detached threads and return values; all user threads are of one task.
- KernelImpl.KernelState.Create: failing creation, and stack memory.
- The tags READY1 and READY2 are one tag: sched.c and bitmap.c have separate copies of the table that says which is which (include/kernel/thread.h:101-108), and the only readers dequeue the running thread, which is on no queue.
- The wait lists and run queues of the kernel are sequences; that the intrusive list behaves like one is `ListRing`.
- `thread_set_priority`: a thread's priority is fixed when it is created, because a queued thread must not change it (kernel/sched/bitmap.c:94-96).
- Immediate preemption by a waiter of higher priority: the comparisons at kernel/mutex.c:57 and kernel/cond.c:49 yield to waiters of the same or a numerically larger priority, and the model does the same; nothing more is claimed.
- Timers: signal delivery, failing allocation, `sys_timer_gettime`, negative times and clock wrap-around; the sleeping thread's own place is not tied to the thread machine.
- Context switches, exception entry and system call assembly: registers and stacks.
- Signals, the serial driver, tasklets and the round-robin class.
- File systems, memory technology devices, `mmap` and the shell.
- `vsnprintf` and `strpad`: padding with unchecked counts.
- `list_replace`, `list_del_init` and the hash lists: easy variants of what is proved.
