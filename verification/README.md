# Mooncake: a verified model of its core

Mooncake keeps the KV cache of language models in a pool of memory segments
spread over many machines. A master hands out buffers, tracks the replicas of
every object, grants leases to readers, evicts objects and drops segments of
clients that are gone; clients write and read replicas directly. This project
models the parts of it that carry the hard promises and proves those promises
for all inputs, all runs and all interleavings.

`dafny verify dfyconfig.toml` checks everything.

## How it is built

- **Offset allocator.** `SmallFloat` and `Bits` are the pure arithmetic: size
  classes in a small floating-point format, and masks as numbers with binary
  digits. `HeapModel` is what the allocator computes, on values: an
  address-ordered sequence of blocks, bin lists, a stack of node slots, and the
  invariant `Inv`. `HeapTheorems` holds what every run promises. `NodeLinks` and
  `NodeAllocator` are the allocator in its own form, arrays with index links and
  a two-level bitmap, each operation proved to do exactly what `HeapModel` does.
  `OffsetUnits` is the arithmetic of 64-bit sizes in units, `AllocationLedger`
  the history of all grants and returns of one allocator. `OffsetAllocator` is
  the outer allocator around an inner `NodeAllocator.Allocator`, with the handles
  that own allocations, and `HandleRuns` says what any run of their methods, over
  any number of handles and allocators, promises. There every handle can go at any
  time, and frees what it refers to whether or not that is still live, so a double
  free is a run like any other and is proved not to happen.
- **Placement.** `Placement` is the random allocation strategy over segments
  with offset allocators. The shuffle is any permutation, chosen afresh per call.
- **Eviction.** The two-pass batch eviction, run on its own. `ObjectMetadata`,
  `Eviction` and `EvictionCounts` are its pieces, `EvictionSpec` what a whole
  eviction does as a function of the shards in the order of its visits,
  `EvictionTheorems` what that function promises, `EvictionMisses` a case in which
  it falls short, and `BatchEvict` the code, which is proved to compute it.
- **Protocols.** `LeaseProtocol` and `WriteProtocol` are one step system of puts,
  reads, removals and the eviction thread; `UnmountProtocol` is unmounting
  against concurrent puts; `ClientMonitor` is the liveness monitor. Each event is
  one critical section, so a run is any interleaving of the threads. Events are
  functions on values; a refused request changes nothing and is no event.
- **Collectives.** `Collective` is the state machine of the expert-parallel
  worker over any number of ranks and operations, down to the bytes of its buffers.
- **Batch put and managed buffers.** `BatchPut` is the client's put pipeline,
  `BuddyAllocator` the slab allocator behind the transfer engine's Python binding.

Invariants that would be costly to look into at every use are passed on closed:
a guard such as `Opened(k)` is always true, and `forall k :: Opened(k) ==> I`
says I. Facts that meet in one proof and should not open each other have
different guards.

Some promises turned out false of the code as it is, and are stated with the
exact condition under which they hold:

- A put's replicas become complete only after they are written, except that
  `RemoveAll` looks at the lease only and may delete an object that is being
  written; a later end of that put then completes the replicas of another put
  (`WriteProtocol.RemoveAllCounterexample`). A step keeps the promise if and only
  if it is not a `RemoveAll` on an object with an incomplete replica
  (`WriteProtocol.PromiseStep`), and every such `RemoveAll`, in every run, can be
  followed by steps to a complete replica that nobody wrote
  (`WriteProtocol.CarelessCompletes`).
- A batch eviction takes as many objects as its lower bound asks for and as there
  are. The scan also lists objects that are on disk only, which no pass evicts, so
  their timeouts can set a threshold that is too early
  (`EvictionMisses.DiskOnlyMisses`). The count is reached if and only if, of the
  candidates up to the threshold, no more are on disk only than the candidates
  exceed what is missing after the first pass (`EvictionTheorems.EvictCount`), and
  always if no eligible object is on disk only (`EvictionTheorems.EvictReaches`).
- A revoked put has no transfer under way, except when its first memory replica
  was submitted and a later one could not be (`BatchPut.AbandonedWhen`,
  `BatchPut.BatchPut`).
- The replicas that `PutStart` returns are stored if and only if there was no
  entry under the key; an entry whose replicas are all stale is emptied and kept,
  and the insertion does nothing (`UnmountProtocol.PutStores`,
  `UnmountProtocol.StaleKeyCounterexample`).
- Managed slabs tile the raw pools if and only if no pool that was needed failed
  to be allocated; the result of the raw allocation is not looked at
  (`BuddyAllocator.TransferEnginePy.AllocateManagedBuffer`).

## Model

| member | source | states |
|---|---|---|
| SmallFloat.FloatToUintIncreasing | mooncake-store/src/offset_allocator.cpp:52-117 | the size a bin stands for is strictly increasing over all bins that are used |
| SmallFloat.RoundDownGalois | mooncake-store/src/offset_allocator.cpp:87-105 | rounding down finds the greatest bin whose size does not exceed the request |
| SmallFloat.RoundUpGalois | mooncake-store/src/offset_allocator.cpp:61-85 | rounding up finds the least bin whose size covers the request, mantissa carry into the exponent included |
| SmallFloat.RoundUpWaste | mooncake-store/src/offset_allocator.cpp:61-85 | what rounding up adds is less than an eighth of the request |
| SmallFloat.NoTruncation | mooncake-store/src/offset_allocator.cpp:107-116 | for every bin that is used the 32-bit shift loses nothing |
| SmallFloat.BinRange | mooncake-store/src/offset_allocator.cpp:61-105 | every 32-bit size rounds down to one of the 240 used bins, and rounds up to one if and only if it does not exceed the largest bin size |
| Bits.FindLowestSetBitAfter | mooncake-store/src/offset_allocator.cpp:120-126 | the lowest set bit at or after an index, or no space if there is none |
| HeapModel.InitInv | mooncake-store/src/offset_allocator.cpp:161-184 | a reset allocator is one free block in its bin with all other slots on the stack, and satisfies the invariant |
| HeapModel.AllocateInv | mooncake-store/src/offset_allocator.cpp:191-288 | any request keeps the invariant: blocks tile the storage, no two free neighbours, bins hold exactly the free blocks of their size class, slots and nodes partition the capacity |
| HeapModel.FreeInv | mooncake-store/src/offset_allocator.cpp:290-354 | freeing a used block, joined with its free neighbours, keeps the invariant |
| HeapTheorems.RunSafety | mooncake-store/src/offset_allocator.cpp:191-439 | after any sequence of requests and frees of live allocations the invariant holds, live allocations are pairwise disjoint and inside the storage, free and used bytes add up |
| HeapTheorems.GrantExact | mooncake-store/src/offset_allocator.cpp:191-234 | a request is granted if and only if a node slot is left and some free block's bin floor covers it |
| HeapTheorems.LargestExact | mooncake-store/src/offset_allocator.cpp:448-466 | a request of at least one unit is granted if and only if it does not exceed the reported largest free region |
| HeapTheorems.GrantEffect | mooncake-store/src/offset_allocator.cpp:236-285 | a grant adds exactly one used block of the rounded size, wastes less than an eighth, and touches nothing in use |
| HeapTheorems.RefusalEffect | mooncake-store/src/offset_allocator.cpp:191-234 | a refused request changes no block and no bin |
| HeapTheorems.ReleaseEffect | mooncake-store/src/offset_allocator.cpp:290-354 | a free removes exactly the freed block from the used ones and gives its bytes back |
| HeapTheorems.FreeAll | mooncake-store/src/offset_allocator.cpp:290-354 | freeing all live allocations, in any order, leaves one free block over the whole storage |
| HeapTheorems.ReuseAfterFree | mooncake-store/src/offset_allocator.cpp:240-249 | after freeing the block of a request, the same request is granted if and only if a node slot is left |
| NodeLinks.InsertLinks | mooncake-store/src/offset_allocator.cpp:356-390 | linking a node in front of its bin keeps every bin a well-formed doubly linked list |
| NodeLinks.RemoveLinks | mooncake-store/src/offset_allocator.cpp:392-431 | bypassing a node keeps every bin a well-formed doubly linked list |
| NodeLinks.MarkBitmap | mooncake-store/src/offset_allocator.cpp:356-368 | setting leaf and top bit makes both levels say exactly which bins are non-empty |
| NodeLinks.UnmarkBitmap | mooncake-store/src/offset_allocator.cpp:408-425 | clearing the leaf bit, and the top bit when the leaf mask is zero, keeps both levels exact |
| NodeAllocator.Allocator.constructor | mooncake-store/src/offset_allocator.cpp:128-184 | arrays and bitmap of a reset allocator represent the initial heap |
| NodeAllocator.Allocator.InsertNodeIntoBin | mooncake-store/src/offset_allocator.cpp:356-390 | a free node goes from the slot stack to the front of the bin of its rounded-down size |
| NodeAllocator.Allocator.RemoveNodeFromBin | mooncake-store/src/offset_allocator.cpp:392-439 | a node leaves its bin and returns to the slot stack, bitmap and free storage updated |
| NodeAllocator.Allocator.FindBin | mooncake-store/src/offset_allocator.cpp:198-234 | the two-level search finds the first non-empty bin from the rounded-up size on, or none |
| NodeAllocator.Allocator.StorageReport | mooncake-store/src/offset_allocator.cpp:448-466 | the report read off the bitmap is the size of the last non-empty bin, 0 without a free slot |
| NodeAllocator.Allocator.Allocate | mooncake-store/src/offset_allocator.cpp:191-288 | the linked-array allocator grants and changes exactly what the heap model does, and stays well formed |
| NodeAllocator.Allocator.Free | mooncake-store/src/offset_allocator.cpp:290-354 | freeing on the linked arrays is freeing on the heap model, and keeps them well formed |
| OffsetUnits.CalculateMultiplier | mooncake-store/src/offset_allocator.cpp:536-542 | the least power of two that brings the size in units to at most the largest bin size |
| OffsetUnits.BytesExact | mooncake-store/src/offset_allocator.cpp:563-611 | through the unit, too, a request is granted if and only if it does not exceed the reported largest free region |
| OffsetUnits.GrantedBytes | mooncake-store/src/offset_allocator.cpp:563-601 | the block handed out is in use at the granted offset and holds the request |
| OffsetUnits.AllocateKept | mooncake-store/src/offset_allocator.cpp:563-601 | a grant adds one id in use and no live allocation moves; a refusal changes no block |
| OffsetUnits.FreeKept | mooncake-store/src/offset_allocator.cpp:650-659 | a free takes exactly its id out of use and no other allocation moves |
| AllocationLedger.RequestsOk | mooncake-store/src/offset_allocator.cpp:563-601 | a request keeps the books in order: counters equal number and requested bytes of the live allocations, each of which lies in a used block that holds it, and every grant ever made is outstanding or was returned exactly once |
| AllocationLedger.GivesBackOk | mooncake-store/src/offset_allocator.cpp:650-659 | so does a free, which returns one outstanding grant |
| AllocationLedger.LiveApart | mooncake-store/src/offset_allocator.cpp:563-601 | the bytes of two live allocations do not overlap and lie in the storage |
| OffsetAllocator.OffsetAllocator.constructor | mooncake-store/src/offset_allocator.cpp:544-561 | a new allocator is an empty inner allocator over the size in units, with blank books |
| OffsetAllocator.OffsetAllocator.Allocate | mooncake-store/src/offset_allocator.cpp:563-601 | the inner allocator is asked for the size in units; a grant is entered in the books and owned by the new handle, whose address is the base plus the offset in bytes; a refusal enters nothing |
| OffsetAllocator.OffsetAllocator.FreeAllocation | mooncake-store/src/offset_allocator.cpp:650-659 | the allocation is freed in the inner allocator, leaves both counters and is returned in the books |
| OffsetAllocator.OffsetAllocator.LargestFreeRegion | mooncake-store/src/offset_allocator.cpp:603-611 | the reported region is that of the heap the books describe, in bytes |
| OffsetAllocator.OffsetAllocationHandle.Move | mooncake-store/src/offset_allocator.cpp:492-502 | the new handle owns what the other one did, which owns nothing any more; nothing is freed, and allocator, books and liveness are as before |
| OffsetAllocator.OffsetAllocationHandle.MoveAssign | mooncake-store/src/offset_allocator.cpp:504-526 | what the target held is freed, once and only if its allocator is alive, and it owns what the source did; the exact books and owners after it, with one allocator or two; self-assignment changes nothing |
| OffsetAllocator.OffsetAllocationHandle.Release | mooncake-store/src/offset_allocator.cpp:528-533 | a valid handle's allocation is freed and leaves the books if the allocator is alive; otherwise, and for a moved-from handle, nothing changes |
| HandleRuns.StepOk | mooncake-store/src/offset_allocator.cpp:492-601 | allocating, moving, assigning, destroying and losing an allocator keep every live allocation owned by exactly one handle |
| HandleRuns.FreedOnce | mooncake-store/src/offset_allocator.cpp:492-659 | in every run over any handles and allocators, in which any handle may be destroyed or assigned to at any time, every handle that finds its allocator is the one owner of a live allocation, no grant is returned twice, and each is outstanding or returned |
| HandleRuns.AllReturned | mooncake-store/src/offset_allocator.cpp:528-533 | in every run, once no handle refers to an allocator that is alive, every grant it ever made was returned exactly once |
| HandleRuns.GoneReturns | mooncake-store/src/offset_allocator.cpp:504-533 | in every run, destroying a handle or assigning to it returns its own grant, which was outstanding, if its allocator is alive, and no other grant |
| HandleRuns.AllocateIsStep | mooncake-store/src/offset_allocator.cpp:563-601 | what Allocate promises of books, owners and handle is the step of the runs |
| HandleRuns.ReleaseIsStep | mooncake-store/src/offset_allocator.cpp:528-533 | what Release promises is the step of the runs |
| HandleRuns.MoveIsStep | mooncake-store/src/offset_allocator.cpp:492-502 | what Move promises is the step of the runs |
| HandleRuns.AssignIsStep | mooncake-store/src/offset_allocator.cpp:504-526 | what MoveAssign promises, with one allocator or two, is the step of the runs |
| HandleRuns.HandlesApart | mooncake-store/src/offset_allocator.cpp:563-601 | in every run the byte ranges of two handles on one allocator are disjoint and lie in its buffer |
| Placement.AllocateInOk | mooncake-store/src/allocator.cpp:185-217 | a segment grants a buffer if and only if its largest free region fits it; exactly one block that holds the buffer comes into use, and the size gauge stays the sum of the live buffers |
| Placement.DeallocateInOk | mooncake-store/src/allocator.cpp:224-239 | giving a buffer back takes exactly its block out of use and keeps the size gauge the sum of the live buffers |
| Placement.Shuffle | mooncake-store/include/allocation_strategy.h:243-244 | the order of the tries is any permutation of the eligible segments |
| Placement.RandomAllocationStrategy.TryRandomAllocate | mooncake-store/include/allocation_strategy.h:226-257 | a buffer is found, in whatever shuffled order, if and only if some segment outside the excluded names fits it |
| Placement.RandomAllocationStrategy.AllocateSingleBuffer | mooncake-store/include/allocation_strategy.h:198-220 | a preferred segment that fits is used, and a buffer is found if and only if some segment outside the excluded names fits it |
| Placement.RandomAllocationStrategy.AllocateSlice | mooncake-store/include/allocation_strategy.h:158-193 | a slice gets exactly the lesser of the wanted number and the number of distinct segment names that fit it, one buffer per name, the first in the preferred segment if that fits; segments stay and live buffers keep their place |
| Placement.RandomAllocationStrategy.AllocateColumn | mooncake-store/include/allocation_strategy.h:105-132 | replicas that a slice cannot serve are dropped and all their buffers given back; the others keep theirs and get one more |
| Placement.RandomAllocationStrategy.Allocate | mooncake-store/include/allocation_strategy.h:85-143 | slice after slice, from the segments as they were to the segments and replicas as they are after it, each state is the outcome of the allocators' own answers to some tries and of the buffers given back; the number of replicas is exactly the least of the wanted number and the room each slice finds in its state, and the request is refused if and only if that is none; one buffer per slice of its size, different segments within a slice, the preferred one first; segments stay, live buffers keep their place, and after a failure everything is given back |
| Eviction.EvictFrom | mooncake-store/src/master_service.cpp:820-844 | the in-place loop of a second pass evicts the first picked objects up to the limit, and nothing else |
| Eviction.NthSmallest | mooncake-store/src/master_service.cpp:749-752 | the threshold is the n-th smallest lease timeout of the candidates |
| EvictionCounts.SweepCount | mooncake-store/src/master_service.cpp:753-785 | every eviction takes one object out of its class, and an evicted object is never picked again |
| EvictionCounts.SweepOnly | mooncake-store/src/master_service.cpp:753-785 | eviction leaves every object outside its class as it was and only strips memory replicas |
| EvictionCounts.UnpinnedUpTo | mooncake-store/src/master_service.cpp:806-829 | pass A, which does not look at expiry, picks exactly the expired unpinned objects up to its threshold, as the threshold is not after now |
| EvictionTheorems.FirstShardExact | mooncake-store/src/master_service.cpp:706-787 | with a quota a shard loses all and only the unpinned objects in memory whose timeout is at most that of the quota-th candidate, without one it loses nothing |
| EvictionTheorems.FirstAllOk | mooncake-store/src/master_service.cpp:704-788 | the first pass evicts unpinned objects only, counts them, and lists at least what it leaves |
| EvictionTheorems.FirstAt | mooncake-store/src/master_service.cpp:704-788 | each shard's quota is what the target asks of the objects seen so far less what earlier shards gave |
| EvictionTheorems.SweepAllOk | mooncake-store/src/master_service.cpp:814-844 | a second pass evicts the lesser of its limit and what its filter picks, and nothing its filter does not pick |
| EvictionTheorems.EvictOnly | mooncake-store/src/master_service.cpp:683-925 | nothing but evictable objects goes, each eviction takes one of them, and no soft-pinned object goes when the unpinned candidates suffice |
| EvictionTheorems.FirstSplits | mooncake-store/src/master_service.cpp:720-788 | the candidate lists hold exactly the timeouts of what is left in memory and of the objects on disk only in shards without a quota |
| EvictionTheorems.EvictCount | mooncake-store/src/master_service.cpp:683-925 | the count never exceeds the greater of the first-pass count and the lesser of the lower bound and what is evictable, and equals it if and only if, of the candidates up to the threshold, no more are on disk only than the candidates exceed what is missing |
| EvictionTheorems.EvictReaches | mooncake-store/src/master_service.cpp:683-925 | the count is reached whenever no eligible object is on disk only |
| EvictionMisses.EvictFilled | mooncake-store/src/master_service.cpp:683-925 | empty shards, wherever they are, do not change what an eviction counts |
| EvictionMisses.DiskOnlyMisses | mooncake-store/src/master_service.cpp:720-844 | six objects under any keys in three shards among any number of empty ones, of which two go where three should and could |
| BatchEvict.Scan | mooncake-store/src/master_service.cpp:720-744 | the scan lists exactly the expired objects without a memory replica in progress, apart by soft pin, in memory or not |
| BatchEvict.EvictUpTo | mooncake-store/src/master_service.cpp:753-785 | the first-pass loop evicts exactly the eligible unpinned objects up to the threshold and hands on the later ones |
| BatchEvict.FirstPassShard | mooncake-store/src/master_service.cpp:706-787 | the shard, the count and the lists after its first pass are exactly the specified ones |
| BatchEvict.MasterService.FirstPass | mooncake-store/src/master_service.cpp:704-788 | over all shards, in rotated order, the shards, counts and lists are exactly the specified ones |
| BatchEvict.MasterService.SecondPass | mooncake-store/src/master_service.cpp:814-844 | in rotated order the objects the filter picks go, up to the limit, and the pass stops there |
| BatchEvict.MasterService.TakeSecond | mooncake-store/src/master_service.cpp:789-910 | pass A up to the timeout of the last unpinned candidate asked for, or pass B likewise for the soft-pinned ones; the error branch is unreachable |
| BatchEvict.MasterService.BatchEvict | mooncake-store/src/master_service.cpp:683-925 | the shards and the count after it are exactly those of the specified eviction of the shards in rotated order; only evictable objects go, one per eviction; the flag that asks for eviction is cleared if something went or nothing is stored |
| LeaseProtocol.LeaseStep | mooncake-store/src/master_service.cpp:313-599 | every step of every party keeps each reader's object leased and complete until the reader's deadline |
| LeaseProtocol.EvictionSafe | mooncake-store/src/master_service.cpp:746-893 | what the eviction thread evicts between other requests has no lease, no memory replica in progress and no soft pin unless allowed, pass A included |
| LeaseProtocol.LeasedReadSafe | mooncake-store/src/client.cpp:473-551 | in every run, replicas of a read that ends before its deadline were not freed by then by eviction, removal or revoke |
| LeaseProtocol.EvictionRunSafe | mooncake-store/src/master_service.cpp:683-897 | in every run, every eviction hits an expired, written object on which no reader's deadline is still open |
| LeaseProtocol.GrantLeaseInv | mooncake-store/include/master_service.h:308-320 | a lease is only ever extended and reaches at least now plus the granted time |
| LeaseProtocol.RevokeLease | mooncake-store/src/master_service.cpp:451-472 | a revoke never takes a complete replica from a reader |
| WriteProtocol.EndWrite | mooncake-store/src/master_service.cpp:430-449 | ending a put completes its own written replicas and no others |
| WriteProtocol.EraseWrite | mooncake-store/src/master_service.cpp:451-472 | dropping the replicas of one type leaves a put of the other type and of other objects intact |
| WriteProtocol.DeleteWrite | mooncake-store/src/master_service.cpp:494-517 | deleting an object is harmless to puts if and only if all its replicas are complete |
| WriteProtocol.WriteStep | mooncake-store/src/master_service.cpp:343-599 | a step keeps the put protocol's invariant if and only if it is not a RemoveAll on an object that is being written |
| WriteProtocol.PromiseStep | mooncake-store/src/master_service.cpp:343-599 | the same of the promise itself: complete replicas and those told to readers are written, and no replica of a pending put is freed |
| WriteProtocol.WrittenBeforeComplete | mooncake-store/src/client.cpp:753-831 | every run without such a RemoveAll keeps the promise, and one more step keeps it if and only if it is no such RemoveAll |
| WriteProtocol.PendingStep | mooncake-store/src/master_service.cpp:343-599 | in any run, replicas of one type are complete together, and until then some put is still to end or revoke them |
| WriteProtocol.CarelessCompletes | mooncake-store/src/master_service.cpp:568-599 | from every state of every run of a master, with disk replicas or without, such a RemoveAll has a continuation to a complete replica that was never written |
| WriteProtocol.RemoveAllCounterexample | mooncake-store/src/master_service.cpp:568-599 | for every configuration and key, a run with RemoveAll that ends with a complete replica nobody wrote |
| UnmountProtocol.SegmentStep | mooncake-store/src/segment.cpp:118-210 | exactly the allocators of segments with status OK can be allocated from, and no allocator comes back |
| UnmountProtocol.ClearStep | mooncake-store/src/master_service.cpp:154-167 | clearing one more shard leaves no handle into the dropped allocator there, since no put can be under way in it |
| UnmountProtocol.AwayStep | mooncake-store/src/master_service.cpp:372-427 | no step brings a handle into a dropped allocator back into a cleared shard |
| UnmountProtocol.CommittedHasNoHandles | mooncake-store/src/master_service.cpp:169-201 | once an unmount has committed, no stored object holds, and no put is about to store, a handle into the segment, for every interleaving |
| UnmountProtocol.PutStores | mooncake-store/src/master_service.cpp:372-427 | the replicas PutStart returns are stored if and only if its check found no entry under the key |
| UnmountProtocol.StaleKeyCounterexample | mooncake-store/src/master_service.cpp:376-427 | a run in which PutStart succeeds on a stale key and stores nothing |
| ClientMonitor.StepInv | mooncake-store/src/master_service.cpp:73-152 | mounts, remounts, pings, unmounts and monitor steps keep every live client watched |
| ClientMonitor.PrepareInv | mooncake-store/src/master_service.cpp:963-996 | after the prepare phase no client of the expired batch is OK or owns a usable segment |
| ClientMonitor.NobodyEscapes | mooncake-store/src/master_service.cpp:927-1013 | in every reachable state each OK client and each owner of a usable segment is in the queue, the deadline table or the expired batch, and the gauge equals the number of OK clients |
| ClientMonitor.ExpiredLoseAll | mooncake-store/src/master_service.cpp:955-995 | in every run a prepared batch of expired clients has lost its status and all usable segments |
| ClientMonitor.DrainedHaveDeadlines | mooncake-store/src/master_service.cpp:927-962 | in every run, once the queue is drained every active client has a deadline and is taken if and only if that has passed |
| ClientMonitor.SilentLoseAll | mooncake-store/src/master_service.cpp:927-1013 | an active client whose deadline has passed loses its status and all usable segments, whatever other threads do meanwhile |
| ClientMonitor.PingKeepsAlive | mooncake-store/src/master_service.cpp:934-953 | in every run a client whose ping was drained keeps its status through all monitor loops that begin within the time to live |
| Collective.FinishSignals | mooncake-ep/src/mooncake_worker_thread.cpp:163-200 | resetting a slot to 0 loses no signal of another operation |
| Collective.ChunksFit | mooncake-ep/src/mooncake_worker.cu:217-239 | every byte of every rank's chunk lies in the slot's buffer |
| Collective.NoClash | mooncake-ep/src/mooncake_worker_thread.cpp:34-92 | what is delivered into a slot and what is still to be collected from it belong to one operation, whatever the sizes of the operations |
| Collective.DeliverRecv | mooncake-ep/src/mooncake_worker_thread.cpp:34-92 | a data write puts its chunk's bytes in place and changes no byte of a chunk that is still to be collected |
| Collective.CollectExact | mooncake-ep/src/mooncake_worker_thread.cpp:163-200 | a rank that is done holds every peer's chunk at the peer's place |
| Collective.CollectivesExact | mooncake-ep/src/mooncake_worker_thread.cpp:34-200 | for every number of ranks, program, chunk sizes and interleaving: gathered, transposed and broadcast results are exactly the peers' contributions |
| Collective.NoDeadlock | mooncake-ep/src/mooncake_worker_thread.cpp:94-200 | as long as some rank has operations left, some step is possible |
| BatchPut.StartBatchPut | mooncake-store/src/client.cpp:907-953 | an operation has the replicas the master gave it, or has failed for the master's reason without any |
| BatchPut.SubmitTransfers | mooncake-store/src/client.cpp:955-1024 | an operation stays pending only with a transfer for every memory replica, else has failed for the first reason that applies; submitted transfers are forgotten exactly for operations with a later submission that failed |
| BatchPut.WaitForTransfers | mooncake-store/src/client.cpp:1026-1070 | an operation is unresolved if and only if all its memory replicas are written, else it has failed with the first transfer's error |
| BatchPut.FinalizeBatchPut | mooncake-store/src/client.cpp:1072-1182 | written operations are ended, the others with replicas revoked, and every operation is resolved |
| BatchPut.CollectResults | mooncake-store/src/client.cpp:1184-1221 | one result per operation, in order, an existing object counting as success |
| BatchPut.BatchPut | mooncake-store/src/client.cpp:1314-1343 | for every pattern of outcomes, each operation with replicas is in exactly one of the end and revoke requests, in the end request if and only if all its memory replicas are written; every result is the answer to its end or the cause of its failure, an existing object counting as success; transfers still under way belong to revoked operations |
| BatchPut.SuccessMeans | mooncake-store/src/client.cpp:1184-1221 | a key is reported as put only if it was ended successfully or exists already |
| BatchPut.AbandonedWhen | mooncake-store/src/client.cpp:992-1018 | an operation is revoked with a transfer under way if and only if its first memory replica was submitted and a later one could not be |
| BuddyAllocator.FindClassId | mooncake-integration/transfer_engine/transfer_engine_py.cpp:153-158 | the smallest slab class that fits, or none beyond the largest |
| BuddyAllocator.SplitTiled | mooncake-integration/transfer_engine/transfer_engine_py.cpp:169-178 | halving a slab keeps the slabs a tiling of the pools |
| BuddyAllocator.PoolTiled | mooncake-integration/transfer_engine/transfer_engine_py.cpp:161-168 | a new pool cut into largest slabs extends the tiling |
| BuddyAllocator.TransferEnginePy.DoBuddyAllocate | mooncake-integration/transfer_engine/transfer_engine_py.cpp:160-179 | splitting terminates and leaves the wanted class non-empty, tiling kept unless a needed pool failed |
| BuddyAllocator.TransferEnginePy.AllocateManagedBuffer | mooncake-integration/transfer_engine/transfer_engine_py.cpp:181-196 | a block of the smallest class that fits is handed out, disjoint from all others; a pool is added, and listed for the destructor, exactly when the class and all larger ones are empty; the tiling holds if and only if no needed pool failed |
| BuddyAllocator.TransferEnginePy.FreeManagedBuffer | mooncake-integration/transfer_engine/transfer_engine_py.cpp:198-209 | a matching free puts the block back on the list of its class and keeps the tiling |

## Left out

- CacheLib allocators: their slab logic is in a library outside the repository.
- RPC, etcd, leader election, HTTP and metric formatting: behaviour of foreign services.
- Transfer engine, RDMA and CUDA code: a transfer is an atomic copy that succeeds or fails.
- Wrap-around of the 64-bit addition when an outer request is rounded up to units: sizes are natural numbers.
- Floating-point rounding of the eviction ratios: they are exact reals with an exact ceiling.
- `EvictionThreadFunc`: the ratios it computes are parameters of `BatchEvict`.
- Regular-expression variants of lookup and removal: they repeat the modelled operations on the matching keys.
- The retry counter of the random strategy: with exact reports the first try on an eligible segment succeeds, so it never counts.
- `BatchGetWhenPreferSameNode` and `BatchPutWhenPreferSameNode`: no lease check and no transfers of their own.
- Disk replicas beyond their status: the file writer that ends or revokes them is not modelled.
- A handle stays formally valid while another thread holds a temporary reference to its allocator; the model takes it as invalid from the prepare phase on.
- Clocks of client and master: one steady clock is used; only durations cross the wire.
- Runs of handle objects on the heap: `HandleRuns` is about the values that the methods leave, and one lemma per method says that its promise is the step.
- Failures of ranks in collectives: after a peer is marked broken the status index no longer matches the submitted entries.
- Metrics of freed bytes and the eviction gauges: plain sums.
- Serialisation, slice splitting, proxies, benchmarks, `eviction_strategy.h`, `BucketStorageBackend`: easy members or plumbing.
