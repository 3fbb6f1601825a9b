# Verified model of the syscall throttling module

A Dafny model of `syscall_throttling`, a Linux kernel module that hooks chosen system calls,
lets registered users and programs make at most a configured number of them per epoch, and
parks the rest in a FIFO queue. The model covers the four parts in which the module's
correctness is not visible from any one function:

1. **The throttling protocol** (`Queue`, `WaitQueue`, `Protocol`, `Memory`,
   `ProtocolInvariant`, `ProtocolTheorems`, `Overtaking`, `TurnOff`, `Progress`, `Verdicts`,
   `Ticking`, `Witnesses`). Any number of
   threads run `stub` while the epoch timer and turn-on/turn-off run beside them. An access to
   shared memory is a step, a run is any sequence of steps, and the theorems hold for every run:
   the quota, distinct grants, memory safety of queue elements, FIFO order and its limits,
   bounded waiting, the return of granted and signalled calls, the ticking of the timer, the
   cause of every outcome, conservation of calls, termination of turn-off and its exact residue. Inside
   the critical sections of the queue locks some accesses are merged into one step; the head of
   `Protocol.dfy` says which and why the others commute with them.
2. **The store** (`Cuckoo`, `CuckooPath`, `StoreModel`, `Room`, `Store`, `RcuHeap`, `Rcu`,
   `RcuSafety`, `RcuRefinement`, `RcuProgress`). The cuckoo table with its eviction loop and the
   exact condition for its failure, the copy-on-write operations as
   methods over slot arrays and an allocator, and the concurrent store as a transition system
   with readers, writers and grace periods over one shared heap of maps and items.
3. **The statistics** (`StatLog`, `Stats`, `StatRuns`). The per-syscall entries with a ring of
   twenty epochs, proved against the complete log of events.
4. **The hook** (`CallRel32`, `Trampoline`, `HookTable`). The CALL rel32 encoding, the trampoline
   instruction by instruction on a small processor model, and the bitmap of installed hooks.

`Lists` and `Words` hold what several parts share. `dafny verify dfyconfig.toml` checks
everything.

## Assumptions

- Memory is sequentially consistent; locks, atomics and a single word access are atomic steps.
- Turn-on and turn-off are called one at a time; the ioctls that reach them are serialized
  (Readme.md:239).
- `max_syscalls_for_epoch` is not negative and does not change after module load
  (sysThrot.c:548); `current_epoch_tokens` does not underflow 32 bits within one epoch.
- A grace period ends only when every read-side section open at its start has closed; any
  allocation may fail.
- The stub obeys the register and stack rules of section 3.2 of the System V AMD64 psABI.
- The bitmap has a bit for every supported system call (`SUPPORTED_SYSCALLS` is generated by the
  build and is a parameter here).

## Where the code differs from its documentation

- Readme.md:126-132 says that `stub` returning 0 lets the system call run and that an error is
  returned to user space. `stub` returns an `int` and the trampoline tests and returns all 64
  bits of rax, of which the calling convention fixes only the low half. `HighHalfDecides` gives
  the exact condition; `ZeroExtendedErrorIsPositive` is the run in which -EAGAIN arrives as
  4294967285, `GarbageSkipsTheCall` the one in which 0 skips the system call.
- Readme.md:149 says that unhooking writes `0F 1F 44 00 00`; the code writes `0F 00 44 00 00`
  (sysThrot.c:450-454), and so does the model.
- sysThrot_queue.c:114 expects every thread to be outside the module when the cache is destroyed.
  A thread that tested `working` before turn-off may be counted only afterwards.
  `LateThreadPutsCacheAtRisk` reaches such a state and `CacheFaultIff` says exactly when it
  matters.
- Readme.md:252-253 says that granted waiters are freed once they set their exited flag. A waiter
  that leaves because the monitor was turned off never sets it, and its element is never freed:
  `TurnOffLeavesResidue` is such a run, `ResidueIsExact` says which elements remain.
- Readme.md:251 says that the oldest waiters are served first. That holds among waiters; a call
  that finds a token left does not queue at all. `TokensPassOnlyLateWaiters` says whom it can pass,
  `LaterCallOvertakes` is such a run.
- Readme.md:225 says that the callback re-arms itself while throttling is on. Turn-on arms the timer
  before it sets `working`; a first callback that runs in between does not re-arm, and the monitor
  is on without a tick to come. `TimerCanStall` is such a run and `TurnOnTicksIff` the exact
  condition. The model has no clock; with the module's delay of a second the window is narrow.

## Model

| member | source | states |
|---|---|---|
| QueueModel.UnqueueLoopGrants | sysThrot_queue.c:50-74 | for any queue and any `n`, `unqueue` moves a prefix to the junk list in order, flags exactly its non-exited members, they number min(max(n, 0), live waiters), and it stops only at an empty queue or a live head with no grant left |
| QueueModel.FreeJunkExact | sysThrot_queue.c:76-86 | `free_junk` frees exactly the exited elements of the junk list and keeps the others in order |
| QueueModel.WakeExact | sysThrot_queue.c:100-103 | the wake-up loop flags exactly the waiting elements and changes nothing else |
| Protocol.ClearCommutes | sysThrot_queue.c:36-45 | turn-off clearing `working` between the read of it under the queue lock and the append gives the same state as after both |
| QueueModel.MarkCommutes | sysThrot_queue.c:56-69 | a waiter's exit mark that falls between the loop's read of the mark, its store of the flag and its move of the node gives the same queue as after the iteration |
| WaitQueues.WaitQueue.AddToQueue | sysThrot_queue.c:28-48 | the three outcomes of `add_to_queue`, each exactly for the allocator's answer and `working` that cause it: no memory leaves the queue alone, monitor off frees the new element, otherwise a fresh element is at the tail |
| WaitQueues.WaitQueue.UnqueueUpTo | sysThrot_queue.c:50-74 | the loop in place computes `unqueue` and meets the prefix specification, with the queue well formed before and after |
| WaitQueues.WaitQueue.FreeJunk | sysThrot_queue.c:76-86 | the loop in place frees exactly the exited junk |
| WaitQueues.WaitQueue.MarkExited | sysThrot_queue.c:88-91 | marks one allocated element and nothing else |
| WaitQueues.WaitQueue.WakeUpQueue | sysThrot_queue.c:93-110 | every waiter is flagged and appended to the junk list, the queue is empty, the count is the number of waiters |
| WaitQueues.UnqueueKeepsWellFormed | sysThrot_queue.c:54-73 | although `current_in_queue` is adjusted partly inside and partly after the loop, it is the queue length again at the end |
| Memory.ActKeepsOwnership | sysThrot_queue.c:28-91 | every memory action of a thread, the timer or turn-off keeps the ownership discipline: each live element is on one list or private to one thread, and whoever may still touch it holds it |
| ProtocolInvariant.InvStep | sysThrot.c:270-324 | every step of every actor keeps the whole protocol invariant |
| ProtocolInvariant.InvAlways | sysThrot.c:270-324 | the protocol invariant holds in every state of every run with any number of threads |
| ProtocolTheorems.QuotaHolds | sysThrot.c:515-527 | in every epoch admissions by token, tokens left and waiters granted add up to the maximum, and over any run calls admitted by token or grant are at most maximum times ticks begun |
| ProtocolTheorems.BlockedCallsUseDistinctGrants | sysThrot.c:295-323 | a blocked call that passes the second test of `working` with result 0 was granted by a tick and not by the turn-off wake-up, distinct calls use distinct grants, and blocked calls recorded are at most maximum times ticks |
| ProtocolTheorems.MemoryIsSafe | sysThrot.c:294-302 | in every reachable state no freed element was ever accessed, no element is on both lists or listed twice, and what a waiter may still read or mark is allocated, listed, unmarked and its own |
| ProtocolTheorems.FreedForever | sysThrot_queue.c:76-86 | once freed, an element is never live again in any continuation |
| ProtocolTheorems.InQueueIsLength | sysThrot_queue.c:36-73 | `current_in_queue` is the queue length in every reachable state with the queue lock free |
| ProtocolTheorems.StrictFifo | sysThrot_queue.c:43-74 | the queue is always a contiguous run of tickets ending at the newest, grants are strictly increasing in tickets, and nobody is granted while an earlier waiter is queued |
| ProtocolTheorems.RunProgress | sysThrot_queue.c:55-70 | while a ticket is not reached, every grant offered in any continuation removes a waiter ahead of it |
| ProtocolTheorems.BoundedWaiting | sysThrot.c:515-527 | from any reachable state, the waiter at index p drops by at least the maximum per complete pass, whatever arrives or aborts, and is out after p / maximum + 1 passes |
| Progress.OffTheQueueIsFlagged | sysThrot_queue.c:55-70 | in every run a waiter whose element is off the queue has its flag set, and `epoch` is the number of refills begun |
| Progress.GrantedCallReturns | sysThrot.c:296-323 | from every reachable state with a waiter's flag set, in every continuation with the monitor on, its call has returned as granted, with its element marked and its grant used, once its thread has taken six steps |
| Progress.SignalledCallReturns | sysThrot.c:296-316 | a signal that meets a clear flag is followed by -EAGAIN within four more steps of the thread, in every continuation with the monitor on |
| Verdicts.OutcomesHaveCauses | sysThrot.c:270-324 | in every run a call's outcome is the one that its observations call for: unregistered, a token left, no memory, monitor off when queueing or after the wait, a signal, or a grant |
| Verdicts.UnregisteredPassesBy | sysThrot.c:275-278 | a call whose membership test fails takes no token and no element |
| Ticking.ComingForever | sysThrot.c:525 | in every continuation with the monitor on, a timer that ticks goes on ticking and one that does not never begins another pass |
| Ticking.PassCanComeIff | sysThrot.c:515-527 | with the monitor on another pass can end if and only if a callback is armed or has not yet passed its test of `working` |
| Ticking.TurnOnTicksIff | sysThrot.c:564-578 | turn-on ends with a ticking timer if and only if its first callback has not passed that test before `working` is set |
| Ticking.PassesCome | sysThrot.c:515-527 | from such a state the timer alone completes any number of passes |
| Ticking.WaiterIsServed | sysThrot.c:515-527 | with a positive maximum every waiter of every reachable ticking state is granted by some number of ticks, and then six steps of its own let its call return 0 |
| Witnesses.TimerCanStall | sysThrot.c:564-578 | the other case exists: a run of turn-on after which the monitor is on and no continuation with it on completes another pass |
| Overtaking.TokensPassOnlyLateWaiters | sysThrot.c:515-527 | in every run, while a token is left every queued ticket was issued after the pass of the last refill had ended, so a call can only pass by waiters that came after that pass |
| Witnesses.LaterCallOvertakes | sysThrot.c:518-524 | such waiters exist: a run in which a thread queues between the pass and the refill and the next call takes the token |
| TurnOff.CallsAreConserved | sysThrot.c:270-324 | in every state `threads_in_module` is the number of threads between increment and decrement; ended calls split exactly into five outcomes; tokens, grants used, abort and blocked reports are those of ended calls plus the threads on their way out |
| TurnOff.CallsAreSettled | sysThrot.c:270-324 | with nobody inside: one abort report per -EAGAIN and one blocked report per granted call |
| TurnOff.StubRankDrops | sysThrot.c:270-324 | with the monitor off a thread in `stub` lowers its rank with every step, unless it waits for the queue lock, and nobody gets past the first test |
| TurnOff.TurnOffStep | sysThrot.c:581-593 | every step of any actor during turn-off changes nothing, lowers the rank of threads, timer and controller together, or leaves the drain loop with a zero counter |
| TurnOff.TurnOffIsBounded | sysThrot.c:581-593 | from the clearing of `working` on, in any schedule with polls, timer callbacks and the wake loop, the steps that change anything number at most the rank at the start |
| TurnOff.TurnOffCanGoOn | sysThrot.c:581-593 | until the drain can end somebody has a step that lowers the rank, so no thread is stuck |
| TurnOff.DrainEnds | sysThrot.c:587-593 | the drain loop is left exactly when the counter is zero, which is exactly when no thread is inside |
| TurnOff.QueueStaysEmptyWhileOff | sysThrot.c:581-596 | from the end of the wake-up until turn-on the queue is empty, and after the drain nobody waits |
| TurnOff.ResidueIsExact | sysThrot_queue.c:112-117 | after `destroy_queue` has run `free_junk`, the elements ever queued and not reclaimed are exactly those whose waiters left by the monitor-off path in this or an earlier cycle |
| TurnOff.ResidueIsForever | sysThrot.c:297-302 | such an element is never marked or freed in any continuation |
| Witnesses.TurnOffLeavesResidue | sysThrot.c:297-302 | the residue can be non-empty: a run in which turn-off leaves the element of its only waiter allocated |
| TurnOff.NoRiskNoFault | sysThrot.c:270-289 | without risk, no continuation before the next turn-on touches the destroyed cache |
| TurnOff.RiskIsReal | sysThrot.c:270-289 | with risk, a concrete continuation touches the destroyed cache |
| TurnOff.CacheFaultIff | sysThrot.c:270-289 | with the cache destroyed, some continuation uses it if and only if a thread is already on its way to it or the threads past the first test outnumber the tokens |
| Witnesses.LateThreadPutsCacheAtRisk | sysThrot.c:271-274 | the state with that risk is reachable: one thread between its test of `working` and its increment |
| TurnOff.PassIsUnqueue | sysThrot.c:515-518 | the timer steps of one uninterrupted pass compute exactly the queue's `unqueue` |
| TurnOff.ReclaimIsFreeJunk | sysThrot.c:526 | the steps of the timer, and of destroy_queue, compute exactly the queue's `free_junk` |
| TurnOff.WakingIsWakeUpQueue | sysThrot.c:586 | the steps of turn-off compute exactly the queue's `wake_up_queue` |
| CuckooHash.Hash1 | sysThrot_store.c:131-137 | the first hash lies within the table for every key |
| CuckooHash.Hash2 | sysThrot_store.c:139-145 | the second hash lies within the table for every key |
| CuckooTable.TwoProbesSuffice | sysThrot_store.c:147-155 | with every entry in a slot of its own hash, an entry is in the table if and only if one of its two slots holds it |
| CuckooTable.KickConserves | sysThrot_store.c:164-193 | one kick conserves the multiset of table entries plus the entry in hand and the placement of entries |
| CuckooTable.InsertConserves | sysThrot_store.c:164-195 | the same for the whole eviction loop at any kick limit, so success adds exactly the new entry |
| CuckooPath.LoopFollowsPath | sysThrot_store.c:164-195 | the loop goes the path of evictions, which is defined without it, puts every hand into its slot, and ends at the first free slot or after two slots per kick |
| CuckooPath.FailsIff | sysThrot_store.c:164-196 | the loop fails if and only if the first two slots per kick of the path are all used |
| CuckooPath.PathSlotsAreUsed | sysThrot_store.c:164-196 | those slots are used in the table as it was before the insertion |
| Room.InsertionFailsIff | sysThrot_store.c:157-197 | `insert` of an absent value ends in -ENOSPC if and only if the 128 slots of its key's path are all used, else in 0 |
| Room.CloneHasSameRoom | sysThrot_store.c:99-123 | that can be told from the published map: its clone has room for the same keys |
| Room.OneMemberLeavesRoom | sysThrot_store.c:164-196 | a store with at most one member has room for every key |
| Room.UsersCollide | sysThrot_store.c:131-145 | the hash values of users 1010 and 1022, which share their first slot and not their second |
| CuckooTable.ClearRemoves | sysThrot_store.c:199-218 | clearing a slot removes exactly its entry |
| StoreModel.LookupIsMembership | sysThrot_store.c:147-155 | `contains` on an owned map answers membership in the registered set |
| StoreModel.InsertRefinesSet | sysThrot_store.c:157-197 | eviction of an absent value either adds exactly it, or leaves in hand one item (perhaps another one) whose release keeps ownership exact |
| StoreModel.RemovalRefinesSet | sysThrot_store.c:199-218 | clearing a slot and freeing its item removes exactly that value and that item |
| StoreModel.SlotsShareNothing | sysThrot_store.c:81-95 | two different slots never hold the same item pointer |
| StoreModel.CloneIsEqual | sysThrot_store.c:99-123 | a slot-by-slot copy with items of its own holds the same set |
| StoreModel.InsertionMeans | sysThrot_store.c:157-197 | `insert` of an absent value ends in 0 with exactly that value and item added, or in -ENOSPC with exactly one item out of the map and freed |
| StoreModel.RemovalMeans | sysThrot_store.c:199-218 | `remove` succeeds if and only if the value is present, and then exactly it and its item are gone |
| StoreModel.OwnsElsewhere | sysThrot_store.c:339-344 | a map keeps its meaning in any heap that agrees on its own items, so freeing the replaced map cannot affect it |
| StoreModel.ListingIsExact | sysThrot_store.c:480-487 | the first i rounds of a listing write the values of the visited slots, each once |
| StoreModel.FullListing | sysThrot_store.c:474-492 | the whole listing is the registered set without repetition and of its size |
| Stores.Kmem.AllocMap | sysThrot_store.c:63-78 | a new map has only free slots; a failed allocation changes nothing |
| Stores.Contains | sysThrot_store.c:147-155 | the two probes in place |
| Stores.Evict | sysThrot_store.c:162-193 | the eviction loop in place over the two slot arrays computes the recursive loop |
| Stores.Insert | sysThrot_store.c:157-197 | -EEXIST if and only if present, else -ENOSPC if and only if there is no room; success adds exactly the value and the item; -ENOSPC frees exactly one item of the old ones and the new one |
| Stores.Remove | sysThrot_store.c:199-218 | succeeds if and only if present and then removes exactly the value and one item |
| Stores.Destroy | sysThrot_store.c:81-95 | every item of the map is freed once, then the map itself, and nothing else |
| Stores.CopySlot | sysThrot_store.c:107-120 | copies one slot into a fresh item, or fails with everything as it was |
| Stores.CopyRow | sysThrot_store.c:106-121 | one turn of the loop copies both slots of a row, or stops at the first refused request |
| Stores.Undo | sysThrot_store.c:125-127 | the failure exit gives back exactly what the clone had allocated |
| Stores.Clone | sysThrot_store.c:99-128 | succeeds if and only if the requests for the map and for one item per member are granted; a clone holds the same set in items disjoint from all earlier ones; on failure the heap is as before |
| Stores.Init | sysThrot_store.c:220-243 | 0 with two empty stores if and only if all three requests are granted, else -ENOMEM with nothing left allocated |
| Stores.Store.Find | sysThrot_store.c:378-390 | found if and only if registered |
| Stores.Store.Add | sysThrot_store.c:308-344 | the code for every case: -EEXIST, else -ENOMEM, else -ENOSPC, else 0, by membership, the allocator's answers to the requests it makes and the room in the published map; success adds exactly the value, the new map shares no item with the old heap, the old map and its items are freed; every failure leaves map, set and heap unchanged |
| Stores.Store.TryInsert | sysThrot_store.c:326-337 | the part on the clone: -ENOMEM, -ENOSPC or 0 by the allocator's answer and the room, with the clone given back on every error |
| Stores.Store.Delete | sysThrot_store.c:346-376 | -EINVAL if and only if not registered, else -ENOMEM if and only if a request is refused, else 0; success removes exactly the value with the same ownership; every failure changes nothing |
| Stores.Store.ListAll | sysThrot_store.c:474-492 | lists the registered users exactly once each, never beyond 256 slots, and leaves the rest of the array alone |
| Stores.WriteValue | sysThrot_store.c:482-487 | one slot adds its value to the output or nothing |
| Stores.ListPrograms | sysThrot_store.c:493-512 | lists min(64, size) distinct registered names, none truncated |
| RcuHeap.WriteKeepsSound | sysThrot_store.c:81-128 | in a heap where every map owns its items alone, a change of one map and of its own items keeps that and every other map's set |
| RcuHeap.CloneKeepsSound | sysThrot_store.c:99-128 | a clone in fresh items leaves the heap sound and holds the set of the map it copies |
| RcuHeap.ChangeKeepsSound | sysThrot_store.c:157-218 | `insert` or `remove` on a map leaves the heap sound and gives exactly the updated set, or -ENOSPC |
| RcuHeap.DropKeepsSound | sysThrot_store.c:81-95 | destroying a map frees only live memory, each item once, and no item of another map |
| RcuSafety.ProbesDecide | sysThrot_store.c:147-155 | on any allocated map the two probes touch no freed item and decide membership |
| RcuSafety.WriterMoves | sysThrot_store.c:308-344 | a writer that changes only a map nobody else can reach, and that map's items, disturbs no reader and no other writer |
| RcuSafety.GraceKeepsInv | sysThrot_store.c:339-343 | dropping the lock before the grace period keeps every reader's map protected until its section closes |
| RcuSafety.ReclaimKeepsInv | sysThrot_store.c:342-343 | when a map is freed no reader and no writer can reach it or any of its items |
| RcuSafety.InvAlways | sysThrot_store.c:308-390 | the store invariant holds in every run of any number of readers and writers over the shared heap |
| RcuSafety.RcuIsSafe | sysThrot_store.c:339-390 | no run uses or frees a freed map or item, and a reader's map is allocated with every item in it |
| RcuSafety.ItemsHaveOneOwner | sysThrot_store.c:81-128 | in every run published, half-made and retired maps share no item, and the allocated items are exactly those the maps hold |
| RcuSafety.NothingLeaks | sysThrot_store.c:326-343 | with no update in progress only the published map and its items are allocated, so each replaced map and item was freed |
| RcuSafety.LookupsAnswerForLoadedSet | sysThrot_store.c:378-390 | each lookup answers membership in the set published when it loaded the pointer, which is the replay of the updates finished by then |
| RcuSafety.UpdatesAreLinearizable | sysThrot_store.c:308-376 | finished updates in the order they took effect are a legal history of a plain set, error codes included, and the published map is its result |
| RcuSafety.LockIsFreeForTheNext | sysThrot_store.c:313-340 | in every run the write lock is held exactly while a writer is between its lock and its unlock, so with nobody there every update asked for begins |
| RcuProgress.LookupEnds | sysThrot_store.c:378-390 | a lookup is over after four steps of its reader, whatever the others do |
| RcuProgress.OnlyAnswersLeave | sysThrot_store.c:384-389 | a section ends only with an answer |
| RcuProgress.GraceEnds | sysThrot_store.c:342 | once every reader has taken four steps since a grace period began the writer can go on, however many sections have been opened meanwhile |
| RcuProgress.GraceLeadsToFree | sysThrot_store.c:342-343 | then two steps free the replaced map and the writer |
| RcuRefinement.UpdateIsRun | sysThrot_store.c:308-376 | an update with any course and code is a run of one writer from every state with the lock free and no section open, to the same map, items and code with the lock free again |
| RcuRefinement.Perform | sysThrot_store.c:308-376 | what the store's methods do to map and allocator is what such a run of the concurrent store does |
| RcuRefinement.CloneExists | sysThrot_store.c:99-123 | a clone that the concurrent store accepts exists for every map |
| RcuRefinement.UpdateCanFinish | sysThrot_store.c:308-376 | every update can run to its end and, with memory granted, ends in the code that membership and room call for |
| StatLog.RingIndexIsEpoch | sysThrot_statmonitor.c:59-67 | although `history_head - history_count` wraps in 32 bits, the index is that of the i-th oldest epoch kept |
| StatLog.PushHolds | sysThrot_statmonitor.c:263-267 | writing at the head keeps every epoch of the window in its slot |
| StatLog.RingIsLastEpochs | sysThrot_statmonitor.c:59-67 | read through the index expression, the ring is the last min(20, k) epochs in order |
| StatLog.FiguresAddUp | sysThrot_statmonitor.c:252-259 | the per-epoch figures add up to the number of events modulo 2^32, and exactly if no epoch overflows |
| StatLog.TotalsAreConserved | sysThrot_statmonitor.c:252-259 | total plus running epoch is the number of events in the log modulo 2^32; below 2^63 events it is exact if and only if no epoch has 2^31 of them |
| StatLog.WindowIsExact | sysThrot_statmonitor.c:146-152 | the sums over the window are the true sums of its events and delays |
| StatLog.PeakOfAppend | sysThrot_statmonitor.c:210-215 | a strictly longer delay becomes the peak, an equal one does not replace the first process that suffered it |
| StatLog.MaxFigureOfAppend | sysThrot_statmonitor.c:260 | the peak over completed epochs after one more epoch |
| Stats.NotedAgrees | sysThrot_statmonitor.c:207-215 | the record after an event agrees in every field with the log that has the event |
| Stats.ClosedAgrees | sysThrot_statmonitor.c:252-260 | the record after an epoch agrees in every field with the log that has the epoch closed |
| Stats.Entry.constructor | sysThrot_statmonitor.c:44-55 | a new entry agrees with the empty log |
| Stats.Entry.AddBlocked | sysThrot_statmonitor.c:207-215 | the entry agrees with its log plus one blocked call |
| Stats.Entry.AddCtxSwitch | sysThrot_statmonitor.c:228 | the entry agrees with its log plus one evaluation of the wait condition |
| Stats.Entry.AddAborted | sysThrot_statmonitor.c:240 | the entry agrees with its log plus one aborted call |
| Stats.Entry.Push | sysThrot_statmonitor.c:263-267 | the ring in place takes in the completed epoch |
| Stats.Entry.CloseEpoch | sysThrot_statmonitor.c:252-267 | the entry agrees with its log with the running epoch completed |
| Stats.Entry.BlockedAt | sysThrot_statmonitor.c:59-62 | blocked calls of the i-th epoch of the window |
| Stats.Entry.TimeAt | sysThrot_statmonitor.c:64-67 | blocked time of the i-th epoch of the window |
| Stats.Entry.WindowSums | sysThrot_statmonitor.c:146-150 | the loop sums calls and time over the last min(20, k) epochs |
| Stats.Entry.Row | sysThrot_statmonitor.c:146-153 | calls per epoch, mean delay and context switches per epoch are the means, rounded down, of what the log has |
| Stats.AveragesAreTrue | sysThrot_statmonitor.c:146-153 | without overflow they are the means, rounded down, of the events of the window and of all epochs |
| Stats.Monitor.Find | sysThrot_statmonitor.c:27-36 | finds the entry of a system call if and only if there is one |
| Stats.Monitor.FindOrCreate | sysThrot_statmonitor.c:38-56 | at most one entry per system call, new ones with an empty log, none when the allocation fails |
| Stats.Monitor.AddBlocked | sysThrot_statmonitor.c:196-218 | exactly the log of that call gains the event; unsupported calls and failed allocations change nothing |
| Stats.Monitor.AddCtxSwitch | sysThrot_statmonitor.c:220-230 | the same for a context switch |
| Stats.Monitor.AddAborted | sysThrot_statmonitor.c:232-242 | the same for an aborted wait |
| Stats.Monitor.UpdateEpochStats | sysThrot_statmonitor.c:244-270 | every entry, and only once, has its running epoch completed |
| Stats.Monitor.Show | sysThrot_statmonitor.c:138-175 | a row is shown if and only if the call has a log, with the means of that log over the monitor's own epoch counter |
| StatRuns.NothingElseIsLost | sysThrot_statmonitor.c:38-56 | in any run, the log of a supported call is its complete history from the first event for which the entry could be allocated |
| StatRuns.StatisticsAgreeWithRun | sysThrot_statmonitor.c:196-270 | so an entry's events are exactly those of the run from then on, divided into as many epochs as ticks |
| StatRuns.PlayAll | sysThrot_statmonitor.c:196-270 | a monitor fed any sequence of events and ticks holds exactly the logs of that run and its number of ticks |
| CallRel32.BytesRoundTrip | sysThrot.c:406-407 | the four little-endian bytes decode to the displacement |
| CallRel32.CallReachesTarget | sysThrot.c:403-407 | the patched call reaches the trampoline if and only if the displacement fits in a signed 32-bit number |
| Trampoline.RunToCall | sysThrot.c:331-342 | when `stub` is called all registers are the wrapper's, ten are saved, and the thread is counted |
| Trampoline.FrameSurvives | sysThrot.c:332-342 | what was pushed is still there after any conforming call |
| Trampoline.StackIsAligned | sysThrot.c:332-342 | the stack is aligned to 16 bytes at `call stub` if and only if the wrapper was entered as the calling convention says |
| Trampoline.TrampolineReturns | sysThrot.c:328-364 | for every machine state and conforming stub: result 0 returns with all registers restored, any other result returns to the caller of the wrapper with it in rax; the counter is balanced |
| Trampoline.HookIsTransparent | sysThrot.c:328-407 | a wrapper with the patch behaves as if the five bytes were a no-op, or as an immediate return with the stub's result; otherwise the displacement does not fit and the call goes elsewhere |
| Trampoline.HighHalfDecides | sysThrot.c:343-363 | for every machine state and conforming stub, the hook ends as the stub's int result means (0 resumes the wrapper with all registers, else the caller gets the result as a long) if and only if the high half of rax extends the sign |
| Trampoline.ZeroExtendedErrorIsPositive | sysThrot.c:353-359 | the failing run, with its stub: a zero-extended -EAGAIN reaches the caller as 4294967285 |
| Trampoline.GarbageSkipsTheCall | sysThrot.c:353-359 | the other failing runs: result 0 with any non-zero high half skips the system call |
| HookTable.SetIsInsert | sysThrot.c:417 | setting a bit adds exactly that system call to the hooked set |
| HookTable.ClearIsRemove | sysThrot.c:464 | clearing a bit removes exactly that system call |
| HookTable.Table.Locate | sysThrot.c:378-394 | a cached address is used without a lookup, a fresh one is cached, a failed lookup changes nothing |
| HookTable.Table.InstallProbe | sysThrot.c:369-419 | every return code with its exact cause; the set gains the call if and only if the text was patched; what is written is the CALL to the trampoline at the resolved address |
| HookTable.Table.RemoveProbe | sysThrot.c:423-466 | the same for removal |
| HookTable.Table.UnhookByte | sysThrot.c:602-607 | the inner loop handles the eight calls of one byte |
| HookTable.Table.UnhookAll | sysThrot.c:600-609 | after the unload loop the hooked set is exactly the set of hooks whose removal fails |

## Left out

- Text patching itself, kprobes, CR0/CR4 handling and instruction-cache effects: outcomes are parameters.
- Restoring the wrapper's bytes on unhook: only the written bytes and the bitmap are modelled.
- The character device, `/proc` text formatting and the ioctl wrappers.
- Weak memory effects, real time and the scheduler: a wait is enabled when its condition or a signal holds.
- Failure of `kmem_cache_create` and of `mod_timer` in turn-on: the code ignores the first and the second does not occur for a fresh timer.
- Turn-on of a monitor that is on and turn-off of one that is off: they return -EALREADY and change nothing.
- The reports of the protocol carry no system-call number and no delay, and evaluations of the wait condition are not counted there; `Stats` has them for any sequence of reports.
- The identity of the cache across on/off cycles: there is one flag for whether it exists.
- Unloading the module while a thread is between its last counter decrement and its `ret`, and the store being destroyed under a reader.
- `getKeyFromProgramName` and `getKeyFromUserId`: every store result holds for any key function.
- The three parallel arrays of a cuckoo table are one array of slots per table.
- Stack addresses in the trampoline model are unbounded integers and memory is in 8-byte words.
- In `RcuStore` cloning, changing the clone and freeing a map are one step each: they write only memory that no other thread can reach and read only memory that nobody writes.
- Readers of `RcuStore` are lookups; the listings read one map in the same kind of section.
- Trampoline.TrampolineReturns: does not say anything about flags, vector registers or the direction flag.
