# Arena data structures: models and proofs

This project models the concurrent data structures of the BPF arena library, the userspace arena
allocator under them and the relay that composes two queues, and proves what they are for.

Every concurrent structure comes in two layers.

- A **step machine**: a state, where each thread stands with its local variables, and one step per
  atomic access. A run is any sequence of steps of any threads (one producer and one consumer for the
  single-producer single-consumer structures). Runs are proved to keep an inductive invariant, and
  their effects, in the order in which they happen, are proved to be a history that a sequential queue
  or stack (`Fifo`, `Lifo`) accepts.
- **The code on real fields**: a class whose methods make the accesses of the C functions, with their
  retry loops. The call is given what other threads do before each of its accesses (Vyukov,
  Michael-Scott, Treiber), or runs while the other side is stopped anywhere inside a call of its own
  (the single-producer single-consumer structures). Each access is proved to be a step of the machine.

| files | content |
|---|---|
| `Base`, `Words`, `Links`, `Fifo` | words and result codes, mask arithmetic, linked lists and walks, the abstract queue and stack |
| `Vyukov`, `VyukovProof`, `VyukovQueue` | bounded queue with per-cell sequence numbers |
| `MsQueue`, `MsQueueProof`, `MsQueueCalls`, `MsQueueVerify` | Michael-Scott queue |
| `CkFifo`, `CkFifoProof`, `CkFifoQueue` | list FIFO with node recycling |
| `CkStack`, `CkStackProof`, `CkStackCalls`, `CkStackVerify` | Treiber stack, Floyd's cycle check |
| `SpscRing`, `SpscRingProof`, `IoUringRing`, `CkRing`, `FollyRing` | one machine for the three rings, and the code of each |
| `Arena`, `ArenaProof`, `ArenaYield`, `ArenaCounts`, `ArenaSlots`, `ArenaAllocator` | page-fragment allocator: safety, exactly what it grants, page counters under interleaving of every access, arrays that large requests get |
| `Relay`, `RelayWorker`, `RelayDrain` | kernel to user to kernel relay: the machine, the relay loop under interference and the drain loop on real queues |
| `Kcov` | append buffer with re-entrant inserts |

The `_c` functions are modelled; the `_lkmm` functions share their control flow. Steps are sequentially
consistent, `can_loop` is 1 as in userspace (`include/libarena_ds.h:395-397`), and initialisation has
finished before other threads start. The allocator grants a linked structure only addresses that it has
not granted before, which is what `ArenaProof.NeverReissued` proves of the userspace allocator. The init
methods of the rings and of the kcov buffer get an array of the size that was asked for, cut down to 32
bits as in the source, and `VyukovQueue.Queue.Init` is handed all its cells or none; `ArenaSlots` tells when
a block has room for all its elements.

Where the code does less than its comments or names suggest, the model follows the code:

- `ds_msqueue_verify` has a check for an endless walk that can never fire, and it accepts some cyclic
  lists (`MsQueueVerify.EndlessVerdict` tells exactly which, `MsQueueVerify.SelfLoopPasses` shows one).
- The allocator's parameter is a 32-bit number of bytes, so a large request is cut down. A block has room for
  n elements if and only if they take less than 2^32 bytes (`ArenaSlots.RoomIff`). The io_uring and CK rings
  of 2^28 or more slots ask for nothing and are refused (`ArenaSlots.PowersAreSafe`); so are Vyukov queues
  beyond a capacity of 2^28, and those of exactly 2^28, which ask for 2^31 bytes, unless a page is larger
  than that (`ArenaSlots.CellsAreSafe`). A Folly ring and a kcov buffer can be given less than they asked
  for (`ArenaSlots.FollyGetsOneSlot`, `ArenaSlots.KcovGetsOneWord`).
- `ds_spsc_verify` and `ds_spsc_size` convert indices to `int`. On a ring whose block has room for its slots
  that does no harm: verify succeeds in every reachable state and the size is exact
  (`ArenaSlots.FollyWithRoomIsSound`). A ring of 2^31 + 1 slots whose init was granted the cut-down block is
  rejected at once (`FollyRing.FreshLargeRingFails`). What else is said of larger rings concerns the indices
  only, because no such ring gets its array: `FollyRing.VerdictIs` and `FollyRing.Ring.Size` give the exact
  conditions, `FollyRing.LargeRing` and `FollyRing.FullerRingMiscounts` follow from them.
- `ds_kcov_insert` is re-entrant except in the window between its load and its store of the counter;
  calls that fall into it succeed and are lost (`Kcov.NoneLostIffGuarded`, and `Kcov.WindowLoses` for the
  smallest case).
- `bpf_arena_free` is not under the allocator's lock, so frees race with one another and with the increment
  of the counter by an allocation. Every counter is exact after every step if and only if every store finds
  the counter as it was read for it (`ArenaCounts.RunAccounts`), and after a run if and only if on each page
  the errors of the stores add up to zero (`ArenaCounts.AccountedIff`). Each way to fail has its run: a free
  inside an allocation leaves the counter one too high (`ArenaCounts.FreeInsideAlloc`), an allocation inside
  a free one too low (`ArenaCounts.AllocInsideFree`), two frees that both read before either stores one too
  high (`ArenaCounts.RacingFreesLoseOne`). All three are possible in every arena after its first two
  allocations (`ArenaCounts.RacesHappen`).
- The signed subtraction of sequence numbers in the Vyukov queue overflows when the two words lie on
  either side of 2^63 (`VyukovProof.DifIsExact`), so the theorems are for runs whose positions stay below
  that (`VyukovProof.Clear`).
- `ds_vyukhov_verify` can answer CORRUPT for a queue in which nothing is wrong, while calls are under way: it
  succeeds if and only if the length, corrected by the counter updates those calls still owe, is an occupancy
  (`VyukovProof.VerdictInFlight`; `VyukovProof.VerifyCanFail` is such a run). `ds_msqueue_verify` does so when
  an insert has linked to an empty queue and not swung the tail (`MsQueueVerify.ReachableVerdict`,
  `MsQueueVerify.LinkedOnEmptyFails`).
- An insert into the Michael-Scott queue that gives up has been overtaken by at least five linked
  nodes.

## Model

| member | source | states |
|---|---|---|
| `VyukovProof.KeepInv` | include/ds_vyukhov.h:249-415 | every access of every thread keeps the ownership invariant: each cell serves one position and is free, being written, full or being read for it, and dequeue_pos <= enqueue_pos <= dequeue_pos + capacity |
| `VyukovProof.OneOwner` | include/ds_vyukhov.h:263-281 | two threads that hold a claimed position each never hold the same cell |
| `VyukovProof.RunRefines` | include/ds_vyukhov.h:249-415 | in every run of any number of threads whose positions stay below 2^63 the successful compare-and-swaps are a history of one FIFO bounded by the capacity, which ends in the contents |
| `VyukovProof.ShortRunIsClear` | include/ds_vyukhov.h:263-268 | no run of fewer than 2^63 - 2^32 steps brings a position near the sign bit |
| `VyukovProof.RunDelivers` | include/ds_vyukhov.h:387-405 | the consumer that claimed position p returns exactly the p-th pair put in, though it copies it after the claim |
| `VyukovProof.FullIsTruthful` | include/ds_vyukhov.h:263-290 | insert answers full if and only if it stands at enqueue_pos and the position one lap before is not released |
| `VyukovProof.EmptyIsTruthful` | include/ds_vyukhov.h:387-415 | pop answers empty if and only if it stands at dequeue_pos and that position is not published |
| `VyukovProof.BusyMeansOvertaken` | include/ds_vyukhov.h:263-289 | a call gives up exactly after 100 rounds, and was then overtaken by 100 claims of other threads on the same counter |
| `VyukovProof.CallReturns` | include/ds_vyukhov.h:249-415 | insert and pop are wait-free: after 304 accesses of its own a call has returned, whatever the others do |
| `VyukovProof.SequenceGrows` | include/ds_vyukhov.h:249-415 | no step lowers a cell's sequence number |
| `VyukovProof.PhaseFromSequence` | include/ds_vyukhov.h:138-166 | the sequence number modulo the capacity tells whether the cell is vacant or occupied |
| `VyukovProof.DifIsExact` | include/ds_vyukhov.h:267-268 | the signed difference of two nearby words overflows if and only if the sign bit differs, and is the true difference otherwise |
| `VyukovProof.RunCounted` | include/ds_vyukhov.h:271-281 | in every run count is the length less owed increments plus owed decrements modulo 2^64, and verify succeeds at rest |
| `VyukovProof.RestIsExact` | include/ds_vyukhov.h:540-566 | at rest count is the length, verify succeeds and no cell is in transit |
| `VyukovProof.VerdictInFlight` | include/ds_vyukhov.h:540-566 | in every reachable state verify succeeds if and only if the length, less owed increments plus owed decrements, lies between 0 and the capacity |
| `VyukovProof.VerifyCanFail` | include/ds_vyukhov.h:553-564 | a consumer that takes and counts down a pair before its producer has counted it up: verify answers CORRUPT in a reachable state that satisfies the invariant |
| `VyukovQueue.Queue.Init` | include/ds_vyukhov.h:138-166 | accepts exactly the powers of two from 2 on and leaves an empty queue that satisfies the invariant |
| `VyukovQueue.Queue.Insert` | include/ds_vyukhov.h:249-290 | under any interference: on success the pair is at the position claimed, full has its reason, busy means that 100 positions were claimed meanwhile |
| `VyukovQueue.Queue.Pop` | include/ds_vyukhov.h:374-415 | under any interference: on success the pair returned is the one at the position claimed, empty has its reason, busy means that 100 positions were claimed meanwhile |
| `VyukovQueue.Queue.InsertAlone` | include/ds_vyukhov.h:249-290 | alone, insert appends, and refuses exactly when the queue is full |
| `VyukovQueue.Queue.PopAlone` | include/ds_vyukhov.h:374-415 | alone, pop removes and returns the oldest pair, and refuses exactly when there is none |
| `VyukovQueue.Queue.Check` | include/ds_vyukhov.h:540-566 | on any fields: succeeds exactly when dequeue_pos <= enqueue_pos <= dequeue_pos + capacity and count <= capacity; on a reachable queue at rest it succeeds |
| `MsQueueProof.KeepInv` | include/ds_msqueue.h:224-504 | every access keeps the chain intact, its nodes' pairs and successors fixed, head at most tail, tail last or last but one |
| `MsQueueProof.RunRefines` | include/ds_msqueue.h:224-504 | every run is a history of one unbounded FIFO: the link CAS appends, the head CAS takes the pair copied before it, NULL from head->next is loaded only from an empty queue |
| `MsQueueProof.NotFoundSawEmpty` | include/ds_msqueue.h:450-470 | in every run a pop that answers NOT_FOUND has in that same call loaded NULL from head->next when the queue was empty |
| `MsQueueProof.ListFromHead` | include/ds_msqueue.h:224-270 | in every reachable state the list from head is acyclic, NULL-terminated and passes through the tail |
| `MsQueueProof.TailIsLastUnlessSwinging` | include/ds_msqueue.h:262-267 | the tail is the last node whenever no insert is between its link CAS and its tail CAS |
| `MsQueueProof.FreedOnce` | include/ds_msqueue.h:493-497 | no two threads are about to free the same node and no node is freed twice |
| `MsQueueProof.TenRounds` | include/ds_msqueue.h:231-502 | a round of insert or pop that fails is followed by another one, except the tenth, after which the call gives up |
| `MsQueueProof.GivingUpMeansOvertaken` | include/ds_msqueue.h:231-260 | an insert that gives up after ten rounds saw five nodes linked, none of them by its own thread |
| `MsQueueProof.PopGivingUp` | include/ds_msqueue.h:450-502 | a pop that gives up saw head and tail advance ten times |
| `MsQueueProof.CallReturns` | include/ds_msqueue.h:224-504 | once an insert has its node it returns after 35 accesses of its own, a pop after 72, whatever the others do |
| `MsQueueProof.RunCounted` | include/ds_msqueue.h:262-262 | in every run count is the length less owed increments plus owed decrements modulo 2^64 |
| `MsQueueProof.RestIsExact` | include/ds_msqueue.h:493-497 | at rest count is the length and the tail is the last node |
| `MsQueueVerify.Verify` | include/ds_msqueue.h:689-743 | the walk, on any list: its answer as a function of which of the first 100000 nodes it visits; the endless-walk code never comes out |
| `MsQueueVerify.VerdictIs` | include/ds_msqueue.h:689-743 | on any list, with n nodes behind the head or 100000 if there are more: success, and each error code, as a condition on n, the place of the tail and the counter |
| `MsQueueVerify.ReachableVerdict` | include/ds_msqueue.h:689-743 | in every reachable state the answer as a condition on the length, the place of the tail and the counter |
| `MsQueueVerify.LinkedOnEmptyFails` | include/ds_msqueue.h:729-730 | an insert that has linked to an empty queue and not swung the tail makes verify answer CORRUPT*2 |
| `MsQueueVerify.VerdictAtRest` | include/ds_msqueue.h:689-743 | on a reachable queue at rest verify succeeds if and only if it holds at most 100000 elements |
| `MsQueueVerify.ReachableIsSound` | include/ds_msqueue.h:689-743 | in every reachable state the walk meets only nodes |
| `MsQueueVerify.EndlessVerdict` | include/ds_msqueue.h:711-740 | a list that does not end is accepted if and only if the tail is among its first 100000 nodes and count is within 100 of 99999 |
| `MsQueueVerify.SelfLoopPasses` | include/ds_msqueue.h:711-740 | a node linked to itself is accepted |
| `MsQueueCalls.Queue.Init` | include/ds_msqueue.h:118-142 | one dummy node and an empty queue that satisfies the invariant |
| `MsQueueCalls.Queue.Insert` | include/ds_msqueue.h:317-342 | under any interference: success links the granted node with its pair, giving up is paid for by five nodes; alone it appends |
| `MsQueueCalls.Queue.Rounds` | include/ds_msqueue.h:231-260 | the retry loop ends linked, or after ten rounds with the node still private; alone two rounds suffice |
| `MsQueueCalls.Queue.Pop` | include/ds_msqueue.h:438-504 | under any interference: success returns the pair behind the node unlinked, NOT_FOUND means that the call found the queue empty, giving up is paid for; alone it returns the front pair and answers NOT_FOUND exactly on an empty queue |
| `CkFifoProof.KeepInv` | include/ds_ck_fifo_spsc.h:90-435 | every access of either side keeps the order garbage, snapshot, head, last entry and every entry from garbage on intact |
| `CkFifoProof.EntryInHandIsDead` | include/ds_ck_fifo_spsc.h:232-254 | the entry the producer fills in, recycled or fresh, is not the head, not behind it and not the one a delete still copies |
| `CkFifoProof.RunRefines` | include/ds_ck_fifo_spsc.h:90-435 | every run is a history of one unbounded FIFO, also while tail trails head |
| `CkFifoProof.DeliversWhatItTook` | include/ds_ck_fifo_spsc.h:411-435 | the pair copied after head has moved is the one that its move took, and the payload pointer is never NULL |
| `CkFifoProof.AllocOnlyWhenNoGarbage` | include/ds_ck_fifo_spsc.h:348-371 | insert turns to the allocator only after it found garbage equal to head |
| `CkFifoProof.MemoryBound` | include/ds_ck_fifo_spsc.h:232-254 | no run has more entries, stub included, than its greatest length plus two |
| `CkFifoQueue.Queue.Init` | include/ds_ck_fifo_spsc.h:290-310 | one stub and an empty queue that satisfies the invariant, or NOMEM without a stub |
| `CkFifoQueue.Queue.Recycle` | include/ds_ck_fifo_spsc.h:232-254 | returns NULL exactly when garbage equals head, else the oldest entry behind head |
| `CkFifoQueue.Queue.Enqueue` | include/ds_ck_fifo_spsc.h:90-106 | links the entry as the last one |
| `CkFifoQueue.Queue.Dequeue` | include/ds_ck_fifo_spsc.h:146-167 | moves head on exactly when there is a pair and hands over its payload |
| `CkFifoQueue.Queue.Insert` | include/ds_ck_fifo_spsc.h:348-371 | appends the pair, with a new entry only if none can be recycled |
| `CkFifoQueue.Queue.Delete` | include/ds_ck_fifo_spsc.h:411-435 | removes and returns the front pair, NOT_FOUND exactly on an empty queue |
| `CkFifoQueue.Queue.Verify` | include/ds_ck_fifo_spsc.h:495-524 | on any memory: succeeds exactly when tail is among the first 100000 entries from head; on a queue with no insert before its store to tail, exactly when it holds fewer than 100000 pairs |
| `CkFifoQueue.VerdictIs` | include/ds_ck_fifo_spsc.h:495-524 | in every reachable state verify succeeds exactly when tail does not trail head and fewer than 100000 pairs are between them |
| `CkStackProof.KeepInv` | include/ds_ck_stack_upmc.h:119-285 | every access keeps the stacked entries linked, distinct and unpopped |
| `CkStackProof.PopIsTop` | include/ds_ck_stack_upmc.h:276-285 | a CAS that finds the head it loaded takes the top entry and installs its successor, even if head changed and came back |
| `CkStackProof.PushedIsFrozen` | include/ds_ck_stack_upmc.h:137-147 | once pushed, an entry keeps its next pointer and its pair in all later states |
| `CkStackProof.RunRefines` | include/ds_ck_stack_upmc.h:119-290 | every run is a history of one stack; NULL from pop means empty at the load or CAS that saw it |
| `CkStackProof.PopDelivers` | include/ds_ck_stack_upmc.h:446-464 | no entry is popped twice, and a pop returns the pair its own CAS removed though it reads it afterwards |
| `CkStackProof.RunCounted` | include/ds_ck_stack_upmc.h:150-151 | in every run count is the height less owed increments plus owed decrements modulo 2^64 |
| `CkStackProof.RestIsExact` | include/ds_ck_stack_upmc.h:280-285 | at rest count is the height |
| `CkStackVerify.Verify` | include/ds_ck_stack_upmc.h:558-590 | on every finite list the two cursors terminate, and the answer is CORRUPT if and only if the list is cyclic |
| `CkStackVerify.MeetingPoint` | include/ds_ck_stack_upmc.h:568-587 | on every finite list there is a step at which the slow cursor is past the end or both cursors are equal |
| `CkStackVerify.CyclicNeverEnds` | include/ds_ck_stack_upmc.h:568-587 | a cyclic list has no end |
| `CkStackVerify.ReachableIsSound` | include/ds_ck_stack_upmc.h:558-590 | every reachable stack is a sound acyclic list |
| `CkStackCalls.Stack.Push` | include/ds_ck_stack_upmc.h:119-152 | under any interference the call takes effect exactly once between its start and its end, and its CAS fails at most as often as CASs of other threads succeed meanwhile |
| `CkStackCalls.Stack.TryPush` | include/ds_ck_stack_upmc.h:195-219 | takes effect once, or not at all and the caller may push the entry again; it gives up only if a CAS of another thread succeeded meanwhile |
| `CkStackCalls.Stack.PopEntry` | include/ds_ck_stack_upmc.h:265-290 | under any interference unlinks one entry, or finds the stack empty, exactly once; its CAS fails at most as often as CASs of other threads succeed |
| `CkStackCalls.Stack.Pop` | include/ds_ck_stack_upmc.h:446-464 | returns the pair its one pop removed; alone NOT_FOUND exactly on an empty stack |
| `CkStackCalls.Stack.TryPop` | include/ds_ck_stack_upmc.h:331-355 | unlinks one entry, or finds the stack empty, or does nothing, which only happens if a CAS of another thread succeeded meanwhile; the thread may then make any call |
| `Words.PowerOfTwoTest` | include/ds_ck_ring_spsc.h:35-38 | the test on c and c - 1 accepts exactly the powers of two |
| `Words.MaskIsMod` | include/ds_io_uring.h:268-268 | masking with c - 1 is reduction modulo a power of two c |
| `SpscRingProof.NextIsNext` | include/ds_folly_spsc.h:197-200 | advancing an index, by wrap, mask or branch, advances the position it stands for |
| `SpscRingProof.SlotIsMod` | include/ds_io_uring.h:268-268 | the slot of an index is its true position modulo the size, across any number of 2^32 wraps |
| `SpscRingProof.TestsAreExact` | include/ds_io_uring.h:262-266 | the tests for full and empty on indices are exact tests on positions |
| `SpscRingProof.KeepInv` | include/ds_io_uring.h:248-388 | every access of either side keeps occupancy at most the capacity and the slots of unreleased positions intact |
| `SpscRingProof.SlotsApart` | include/ds_ck_ring_spsc.h:145-260 | the slot being written is never one being read or one that holds a pair, however old the index loaded from the other side |
| `SpscRingProof.RunRefines` | include/ds_folly_spsc.h:193-301 | every run of each of the three rings is a history of one FIFO bounded by ring_entries, capacity - 1 and size - 1, refusals and misses included |
| `SpscRingProof.DeliversWhatItTook` | include/ds_ck_ring_spsc.h:226-260 | a pop returns the pair that its store to the head takes from the FIFO |
| `IoUringRing.Ring.Init` | include/ds_io_uring.h:136-163 | accepts exactly the powers of two and leaves an empty ring with all its slots; NOMEM from 2^28 slots on, where the request is cut down to nothing |
| `IoUringRing.Ring.Insert` | include/ds_io_uring.h:248-282 | appends, or refuses exactly when ring_entries pairs are in the ring; the flag says which |
| `IoUringRing.Ring.Pop` | include/ds_io_uring.h:360-388 | removes and returns the front pair, NOT_FOUND exactly on an empty ring |
| `IoUringRing.Ring.Verify` | include/ds_io_uring.h:494-515 | succeeds exactly on fields that stand for some occupancy a ring may have, and so on every reachable ring |
| `CkRing.Ring.Init` | include/ds_ck_ring_spsc.h:71-99 | accepts exactly the powers of two from 2 on and leaves an empty ring with all its slots; NOMEM from 2^28 slots on |
| `CkRing.Ring.Insert` | include/ds_ck_ring_spsc.h:145-175 | appends, or refuses exactly when capacity - 1 pairs are in the ring |
| `CkRing.Ring.Delete` | include/ds_ck_ring_spsc.h:226-260 | removes and returns the front pair, NOT_FOUND exactly on an empty ring |
| `CkRing.Ring.Size` | include/ds_ck_ring_spsc.h:299-308 | the masked difference of the indices is the number of pairs |
| `CkRing.Ring.IsFullNow` | include/ds_ck_ring_spsc.h:367-378 | true exactly when capacity - 1 pairs are in the ring |
| `CkRing.Ring.Verify` | include/ds_ck_ring_spsc.h:430-467 | succeeds exactly on fields that stand for some occupancy a ring may have, and so on every reachable ring |
| `FollyRing.Ring.Init` | include/ds_folly_spsc.h:110-132 | accepts every size from 2 on; the ring is empty with all its slots if and only if there are fewer than 2^28, and has fewer slots than its size from then on |
| `FollyRing.Ring.Insert` | include/ds_folly_spsc.h:193-215 | appends, or refuses exactly when size - 1 pairs are in the ring |
| `FollyRing.Ring.Delete` | include/ds_folly_spsc.h:278-301 | removes and returns the front pair, NOT_FOUND exactly on an empty ring |
| `FollyRing.Ring.Size` | include/ds_folly_spsc.h:471-484 | is the number of pairs if and only if both indices convert to int with the same sign, and off by the ring's size modulo 2^32 otherwise |
| `FollyRing.Ring.IsFullNow` | include/ds_folly_spsc.h:562-575 | true exactly when size - 1 pairs are in the ring |
| `FollyRing.Ring.Verify` | include/ds_folly_spsc.h:415-434 | wherever the difference of the indices is defined: the exact condition for success; every reachable ring of at most 2^31 slots passes; on the indices alone, every larger one with fewer than 2^31 pairs is rejected |
| `FollyRing.VerdictIs` | include/ds_folly_spsc.h:423-433 | succeeds if and only if both indices are in bounds and the ring has at most 2^31 slots, or 2^31 pairs lie between indices of the same sign, or the write index alone is at least 2^31 and size plus distance is at least 2^32 + 2^31 |
| `FollyRing.SmallRing` | include/ds_folly_spsc.h:415-434 | in a reachable ring of at most 2^31 slots no difference overflows and verify succeeds |
| `FollyRing.LargeRing` | include/ds_folly_spsc.h:415-434 | on the indices alone, since no array of that size is ever granted: verify rejects every ring of more than 2^31 slots with fewer than 2^31 pairs |
| `FollyRing.FreshLargeRingFails` | include/ds_folly_spsc.h:415-434 | verify rejects a ring of 2^31 + 1 slots right after init |
| `FollyRing.FullerRingMiscounts` | include/ds_folly_spsc.h:471-484 | on the indices alone, since no array of that size is ever granted: after 2^31 inserts a ring of 2^31 + 2 slots reports a size of 2 |
| `ArenaProof.RoundUp8Is` | include/libarena_ds.h:288-288 | the rounding macro gives the next multiple of 8, and 0 for 0 |
| `ArenaProof.ConfiguredInRange` | include/libarena_ds.h:241-274 | what set_range configures is whole pages inside the range it was given, or nothing |
| `ArenaProof.ConfiguredIsAll` | include/libarena_ds.h:253-271 | no whole page of the range is left out, and it configures nothing if and only if no page starts in the range, or the range starts at NULL or ends with the address space |
| `ArenaProof.AllocIsSafe` | include/libarena_ds.h:276-323 | an allocation returns NULL and changes nothing, or a block that was never issued |
| `ArenaProof.NeverReissued` | include/libarena_ds.h:276-339 | over any run of allocations and frees no address is issued twice |
| `ArenaProof.RunIsSafe` | include/libarena_ds.h:241-339 | over any run each block is 8-aligned, in the range given to set_range, clear of its page's counter word and disjoint from every other block |
| `ArenaProof.MaskRecoversPage` | include/libarena_ds.h:333-335 | masking the address of any block gives the page it was carved from |
| `ArenaYield.GrantedIff` | include/libarena_ds.h:276-303 | an allocation is granted if and only if there is an arena, its size is neither 0 nor too large for a page, and it fits on the current page or there is another |
| `ArenaYield.GrantedBlock` | include/libarena_ds.h:293-322 | blocks are packed downwards: a block that fits takes just its rounded size below the last one, and only one that does not fit starts the next page |
| `ArenaYield.ArenaYields` | include/libarena_ds.h:241-323 | of k allocations of n bytes from a fresh arena exactly min(k, pages * blocks per page) are granted |
| `ArenaCounts.AccountedIff` | include/libarena_ds.h:309-338 | however the accesses of allocations and frees to the counters interleave, if each block is freed at most once: all counters are their pages' numbers of live blocks if and only if the errors of the stores on each page, those of allocations included, add up to zero |
| `ArenaCounts.FreeIsExact` | include/libarena_ds.h:333-338 | a free reads the counter, anything happens, the free stores: exact accounts stay exact if and only if the counter is the same at the store as at the read |
| `ArenaCounts.AllocIsExact` | include/libarena_ds.h:309-319 | the same for an allocation, which the lock protects from other allocations but not from frees |
| `ArenaCounts.RacingFreesLoseOne` | include/libarena_ds.h:333-338 | two frees on one page that both read before either stores leave its counter one too high |
| `ArenaCounts.FreeInsideAlloc` | include/libarena_ds.h:317-338 | a whole free of a block of the page between an allocation's load and store leaves the counter one too high, though the free finds the counter as it read it |
| `ArenaCounts.AllocInsideFree` | include/libarena_ds.h:317-338 | a whole allocation on the page between a free's load and store leaves the counter one too low |
| `ArenaCounts.RacesHappen` | include/libarena_ds.h:276-339 | in every arena with a page of at least 32 bytes the first two allocations lead to exact counters from which each of the three races makes a counter wrong |
| `ArenaCounts.RunAccounts` | include/libarena_ds.h:288-339 | every counter is exact after every step of a run if and only if every store, of an allocation or of a free, finds the counter as it was read for it |
| `ArenaCounts.SerialIsUndisturbed` | include/libarena_ds.h:309-339 | that is so when nothing comes between the accesses of an allocation or of a free |
| `ArenaSlots.RoomIff` | include/libarena_ds.h:276-276 | a block granted for n elements has room for them if and only if they take less than 2^32 bytes |
| `ArenaSlots.PowersAreSafe` | include/ds_io_uring.h:146-149 | the array of an io_uring or CK ring whose init succeeds has all its slots |
| `ArenaSlots.FollyGetsOneSlot` | include/ds_folly_spsc.h:118-120 | a Folly ring of 2^28 + 1 slots gets a block of one slot wherever one fits |
| `ArenaSlots.KcovGetsOneWord` | include/ds_kcov.h:110-112 | a kcov buffer of 2^29 + 1 words gets a block of one word wherever one fits |
| `ArenaSlots.CellsAreSafe` | include/ds_vyukhov.h:138-166 | the cells of a Vyukov queue whose init succeeds are all there if a page has at most 2^31 bytes; a capacity of 2^28 asks for 2^31 bytes, a larger one for none |
| `ArenaSlots.FollyWithRoomIsSound` | include/ds_folly_spsc.h:415-434 | a Folly ring whose block has room for all its slots passes verify in every reachable state, and the size it reports is the number of pairs |
| `ArenaAllocator.Allocator.SetRange` | include/libarena_ds.h:241-274 | the arena is exactly the whole pages inside the range, none in use; nothing exactly if no page starts there, or the range starts at NULL or ends with the address space; 4096 where sysconf has no answer |
| `ArenaAllocator.Allocator.Alloc` | include/libarena_ds.h:276-323 | with frees between its load and its store of the counter: granted exactly if the arena exists, the size is neither 0 nor too large for a page, and the block fits on the current page or there is another; the block is new, ends where the last one began, and a page is only turned when it does not fit; NULL changes nothing; uninterrupted it keeps exact accounts exact |
| `ArenaAllocator.Allocator.Free` | include/libarena_ds.h:325-339 | with any steps of others between its accesses: is the machine's test, load and store around theirs; uninterrupted on exact accounts it takes the block off the live ones and one off its page's counter, and changes nothing else |
| `Relay.RunDelivers` | src/skeleton_vyukhov.c:104-154 | in every run the kernel consumes a subsequence of what was produced, in order; popped is pushed plus dropped plus the one in hand; nothing is missing unless dropped |
| `Relay.AtJoin` | src/skeleton_vyukhov.c:321-324 | when the relay has joined the UK lane holds as many pairs as were pushed |
| `Relay.LossMeansFull` | src/skeleton_vyukhov.c:133-143 | if no push answers busy, the relay pushes exactly the first pairs it has finished with, as many as the UK lane holds |
| `Relay.AllArrive` | src/skeleton_vyukhov.c:104-184 | if nothing answers busy and the lanes hold all that is produced, a round per pair, the join and the drain deliver exactly what was produced |
| `RelayWorker.Worker.RelayLoop` | src/skeleton_vyukhov.c:124-151 | with any steps of other threads before each access of each pop and during each push, busy and spurious empty answers included: the pairs taken are pairs of the KU lane at increasing positions; exactly the first of them, as many as the UK lane had room for, are pushed; the counters say how many; if nobody else uses the KU lane, the pairs taken are its first, one for each round until it is empty, and the last rounds without interference do so whatever came before |
| `RelayWorker.Worker.RelayThenDrain` | src/skeleton_vyukhov.c:318-324 | relay, join and drain together: the kernel gets exactly the first pairs the relay took, as many as the UK lane holds, and the UK lane ends empty; if nobody else uses the KU lane the relay took its first pairs, one for each round |
| `RelayDrain.Kernel.Consume` | src/skeleton_vyukhov.bpf.c:74-101 | one trigger takes the front pair, or counts a failure when there is none |
| `RelayDrain.Kernel.TriggerOnExit` | src/skeleton_vyukhov.c:156-184 | exactly as many triggers as pairs pushed, none failing, leave the lane empty; one failing trigger when nothing was pushed |
| `Kcov.ExecRecords` | include/ds_kcov.h:164-195 | however inserts nest, words already recorded stay and the new entries are those of the calls outside each other's window, in the order of their claims |
| `Kcov.EntriesAfter` | include/ds_kcov.h:164-195 | the entries after a nest of inserts are the old ones and the claims, cut off where the buffer ends |
| `Kcov.NoneLostIffGuarded` | include/ds_kcov.h:177-189 | with room for all, every insert of a nest leaves its entry if and only if none falls into another's window |
| `Kcov.WindowLoses` | include/ds_kcov.h:177-189 | an insert inside the window of another finds room, succeeds and is lost |
| `Kcov.InsertPushes` | include/ds_kcov.h:211-240 | an insert that nothing interrupts pushes, or changes nothing on a full buffer |
| `Kcov.Buffer.Init` | include/ds_kcov.h:102-123 | accepts every size from 3 words on; the buffer is empty with all its words if and only if there are fewer than 2^29, and has fewer words than its size from then on |
| `Kcov.Buffer.Insert` | include/ds_kcov.h:211-240 | the area becomes that of the nest of calls; FULL exactly when the words of the next entry were not inside the area at the load |
| `Kcov.Buffer.Pop` | include/ds_kcov.h:319-346 | removes and returns the newest entry, NOT_FOUND exactly on an empty buffer |
| `Kcov.Buffer.Verify` | include/ds_kcov.h:455-478 | succeeds exactly when every entry counted lies inside the area; on an area that init accepts, exactly when the buffer satisfies its invariant |

## Left out

- Weak memory: acquire, release and dependency ordering are not modelled; every step is sequentially consistent.
- The BPF-side allocator and page freeing: foreign page calls and per-CPU state; with reuse of addresses the Michael-Scott and Treiber theorems do not hold.
- Positions of the Vyukov queue at or above 2^63 less the capacity: from there on the source's signed subtraction can overflow.
- Vyukov, Michael-Scott and stack entry points called with a NULL structure: an object always exists here.
- Retry loops ended by `can_loop`: it is 1 in userspace.
- Reads of several fields by the verify functions while operations are in flight: they read one state.
- `search`, `iterate`, metadata, statistics and metrics: best-effort scans and counters.
- RelayWorker.Worker.RelayLoop: the UK lane has no user but the relay until the join, and the 64-bit statistics counters are unbounded.
- Waiting for the lanes to be initialised and metrics around the queue calls.
- CkFifoQueue.Queue.Insert: runs while the consumer stands still, like the calls of the other single-producer single-consumer classes; interleaving inside a call is the subject of the machines.
- Concurrent use of the kcov buffer by a popper: the source does not protect it.
- Program loading, attachment, signals and argument parsing.
