# A verified model of the vbus event path and the venet send path

The vbus driver and its hypervisor host share memory. Events travel from the host (the
"south" side) to the driver (the "north" side) through an IOQ: a ring with `head`, `tail`
and a separate `full` byte, and a bit per descriptor (`sown`) that names its owner. A
shm-signal next to it (`enabled`, `dirty`, `pending`) decides when one side interrupts the
other. venet, the network driver above, queues packets on an intrusive list and sends them
from a loop that any number of threads may enter.

This project models both paths and proves what they promise, for every ring size, every
interleaving of individual loads and stores, and every run.

## Layout

| file | content |
|---|---|
| `Ring.dfy` | the arithmetic of a ring index: count, full test, slots of absolute positions |
| `RingProtocol.dfy`, `RingTheorems.dfy` | push and pop as single loads and stores of two threads, the inductive invariant, and what it gives |
| `SignalProtocol.dfy` | shm-signal as single loads and stores of an injector, a local context and the interrupt service routine |
| `Ioq.dfy`, `ShmSignal.dfy` | the same code as whole calls on classes |
| `Refinement.dfy`, `DualRefinement.dfy` | the calls and the steps agree |
| `EventQueue.dfy` | `eventq_init` and `eventq_wakeup` on those classes |
| `EventPath.dfy`, `EventDelivery.dfy`, `EventLiveness.dfy` | ring, signal, service routine and DPC composed; when no event is stranded, and that delivery is then reached |
| `DualIndex.dfy` | the valid and in-use indexes driven by a dual iterator |
| `SendQueue.dfy`, `Cancel.dfy` | the linked send queue and its cancellation |
| `SendOrder.dfy` | the send loop with any number of threads under `sendLock` |
| `TcbPool.dfy` | the transfer control blocks and the walk of an admitted list |
| `FrameCopy.dfy` | the scatter/gather copy of a frame |
| `Runs.dfy`, `Subsequences.dfy` | runs of a state machine; subsequences |

A step machine is a function from a state and a move to the next state. Its history fields
(`pushed`, `dispatched`, `changes`, `accepted` and so on) only record what happened; no step
depends on them. A statement about `Run(Next, Init(...), moves)` for all `moves` is a
statement about every reachable state.

## What was found

- The comment at `windows/vbus/ioq.c:94-99` says that setting `full` is safe because the owner
  bit has not been flipped, so that the operation cannot become invalid. It can: the consumer
  may pop between the test and the store. With neither side in an operation, `full` can be set
  over k events on a ring of n exactly for 1 <= k <= n (`RingTheorems.FullByteSettledExactly`),
  so it can be stale exactly if the ring has more than one slot (`FullByteCanBeStale`); in the
  middle of operations it can even be set over an empty index. What saves the count is that a
  pop that clears the byte is always still to come (`FullByteIsSafe`, `SettledCountIsExact`).
- `eventq_intr_dpc` calls wakeup and enable, but never `ShmSignalEoi`, the only code that clears
  `pending`. A later event can then stay in the ring with everybody at rest. For a DPC that
  makes any sequence of wakeup, enable and EOI calls, no event is ever stranded exactly when
  an EOI comes at some point after an enable
  (`EventDelivery.DeliversExactlyWithEoiAfterEnable`). So the order wakeup, EOI, enable is
  not enough: an interrupt can be raised after the EOI and discarded by the service routine
  before the enable. The order wakeup, enable, EOI is. Under the same exact condition delivery
  is total: once south starts no new push, boundedly many moves remain, and they deliver
  everything south had begun to push (`EventLiveness.AlwaysDeliversExactlyWithEoiAfterEnable`).
- `SrCancelQueued` overwrites the link it is about to follow, so it stops after its first match
  (`Cancel.CancelQueued`); it takes out everything it should exactly when at most one list
  matches (`AllMatchesGoExactlyIfOne`). A cancel of everything takes the head only.
- `SrProcessQueue` goes round its loop after a success with `sendLock` still held, and takes it
  again at line 252: the thread waits for itself, and nothing is accepted, sent or cancelled
  any more (`SendOrder.StuckForever`). This state can be reached exactly if there is a thread
  and the loop keeps the lock (`StuckExactlyIfLockKept`), and as written the loop is in it
  exactly from the first list that goes well on (`AtMostOneProcessed`). Send order holds for the
  loop as written and for one that releases the lock first; the `unlocks` field chooses.
- When a later buffer of a list fails, the blocks of the buffers before it stay busy
  (`TcbPool.HeldStayBusy`), although the whole list is queued again. A list whose buffer k keeps
  failing takes k more blocks with every try until it is refused for good; that happens
  exactly if k > 0 (`TcbPool.RetriesExhaust`, `ExhaustedExactlyIfTaken`).
- `VenetFreeTx` empties both lists of a failed setup and leaves the counter of free blocks as it
  was (`TcbPool.Adapter.SetupTx`).
- `SrCopyFrame` returns a byte count that its caller compares with `NDIS_STATUS_SUCCESS`, which
  is 0. The count is 0 exactly when an MDL the copy needs cannot be mapped or there is nothing
  to copy (`FrameCopy.CountIsSuccessExactly`). So every frame that was copied counts as a
  failure, and one that could not be mapped, even if half of it was copied, is taken for a
  success (`HalfCopiedIsSuccess`).
- The insertion of a priority tag counts four bytes and writes two: the count of a tagged frame
  is two more than the bytes written (`FrameCopy.CountIsBytesWritten`).

## Model

| member | source | states |
|---|---|---|
| Ring.SlotIsModulo | windows/vbus/ioq.c:37-43 | The slot that repeated modulo_inc reaches after a steps is a modulo the ring size: a is some number of whole laps plus the slot. |
| Ring.SlotInjective | windows/vbus/ioq.c:37-43 | Two positions less than a lap apart share a slot only if they are equal. |
| Ring.CountIsExact | windows/vbus/ioq.c:78-86 | For an index at absolute head h and tail t, ioq_ring_count is t - h if and only if the full byte is set on a full ring and clear on an empty one; it is always between 0 and the size; idx_full is then right too. |
| Ring.TailPushIsExact | windows/vbus/ioq.c:88-105 | idx_tail_push on an index that is not full keeps the count right and moves the tail by one position. |
| Ring.HeadPopIsExact | windows/vbus/ioq.c:155-161 | The head advance of a pop on an index that is not empty keeps the count right. |
| RingProtocol.InitInv | windows/vbus/pci.c:444-505 | The state the fill leaves satisfies the ring invariant, for every size and either producer. |
| RingProtocol.PusherSeesRoom | windows/vbus/ioq.c:116-117 | The owner bit at the pusher's position says exactly whether the ring has room, so push need not test full. |
| RingProtocol.PopperSeesWork | windows/vbus/pci.c:359-367 | The owner bit at the popper's position says exactly whether anything was pushed, so pop need not test empty. |
| RingProtocol.HeadTest | windows/vbus/ioq.c:90-92 | The head test of idx_tail_push holds exactly when this push takes the last slot, in terms of absolute positions. |
| RingProtocol.PushKeepsFull | windows/vbus/ioq.c:92-104 | Every store of a push keeps: a needed full byte is set, and a set one will still be cleared by an outstanding pop before the ring can be empty. |
| RingProtocol.PopKeepsFull | windows/vbus/ioq.c:155-161 | So does every store of a pop: it never clears a byte that is needed. |
| RingProtocol.PushKeepsOwners | windows/vbus/ioq.c:131-134 | Every step of a push keeps the consumer-owned slots exactly the window from flipped pops to flipped pushes. |
| RingProtocol.PopKeepsOwners | windows/vbus/ioq.c:163-166 | So does every step of a pop. |
| RingProtocol.DispatchesOldest | windows/vbus/pci.c:368-392 | The event the consumer dispatches is the oldest pushed one it has not dispatched, unaltered. |
| RingProtocol.PushKeeps | windows/vbus/ioq.c:107-142 | Each single load or store of a push keeps the whole invariant: counters, positions, ownership, full byte and buffer contents. |
| RingProtocol.PopKeeps | windows/vbus/ioq.c:144-174 | Each single load or store of the drain loop and its pop keeps the whole invariant. |
| RingTheorems.SettledCountIsExact | windows/vbus/ioq.c:78-86 | In every reachable state with neither side in an operation, ioq_ring_count is pushes minus pops, and full with head == tail holds exactly for a full ring. |
| RingTheorems.FullByteIsSafe | windows/vbus/ioq.c:92-104 | In every reachable state a needed full byte is set; one that is set over an empty index is about to be cleared by the pop in progress, or the push that set it has not stored its tail yet. |
| RingTheorems.FullByteSettledExactly | windows/vbus/ioq.c:94-100 | For every ring size n and every k: some reachable settled ring of n slots has full set over k outstanding descriptors if and only if 1 <= k <= n. |
| RingTheorems.FullByteCanBeStale | windows/vbus/ioq.c:94-100 | A settled ring of n slots can have full set without being full if and only if n is at least 2. |
| RingTheorems.CountersNeverCross | windows/vbus/ioq.c:107-174 | pops flipped, heads advanced, pushes flipped and tails advanced stay in this order and within one lap, and no guard of an admitted push or pop fails. |
| RingTheorems.OwnershipWindow | windows/vbus/ioq.c:116-174 | A descriptor belongs to the consumer if and only if its slot is that of a pushed, not yet popped position. |
| RingTheorems.NeverBothHold | windows/vbus/ioq.c:116-174 | A pusher and a popper in progress work on different descriptors, each owned by the side that works on it. |
| RingTheorems.DispatchIsFifo | windows/vbus/pci.c:367-400 | In every reachable state the dispatched events are a prefix of the pushed ones, every cookie still names its own buffer, and events not dispatched yet sit unaltered in their buffers. |
| RingTheorems.DrainedIsZeroed | windows/vbus/pci.c:394 | On a settled ring whose events are all popped, every buffer is zeroed. |
| RingTheorems.SoloPush | windows/vbus/ioq.c:107-142 | The steps of a push that nobody interrupts add up to idx_tail_push, the flip and the seek. |
| RingTheorems.SoloPop | windows/vbus/pci.c:367-400 | The steps of a drain pass that nobody interrupts dispatch and zero one buffer and add up to ioq_iter_pop. |
| Refinement.PushStepsArePush | windows/vbus/ioq.c:107-142 | From any state of the protocol with an idle pusher and room, the machine can run the push alone and end in exactly the memory and iterator ioq_iter_push computes. |
| Refinement.PopStepsArePop | windows/vbus/ioq.c:144-174 | The same for a drain pass and ioq_iter_pop. |
| Refinement.SettledHolds | windows/vbus/pci.c:344-404 | Every reachable settled ring pushed by south, however many events it holds, meets the precondition of the whole eventq_wakeup call. |
| Refinement.FilledIsStart | windows/vbus/pci.c:476-494 | The memory eventq_init leaves, descriptors, lengths, valid flags, owners and both indexes, is that of the ring protocol's start state next to a full valid index. |
| DualRefinement.DualPushStepsArePush | windows/vbus/ioq.c:107-142 | Between north's operations and with a valid index that is not full, the dual machine can run its push alone and end in exactly what ioq_iter_push with a dual iterator computes. |
| DualRefinement.ReapStepsArePop | windows/vbus/ioq.c:144-174 | The same for a reap and ioq_iter_pop without the flip, which succeeds if and only if north owns the descriptor at the valid head. |
| SignalProtocol.NoLostWakeup | windows/vbus/shm-signal.c:88-128 | In every run, with injector and local context between calls, a change announced by an Inject was followed by a notifier call that started after it, or dirty is still set; and dirty with enabled implies pending (an EOI is owed). Covers races with Enable and Eoi, masked signals and discarded interrupts. |
| SignalProtocol.MitigationConserved | windows/vbus/shm-signal.c:56-65 | Stores of pending minus EOIs that found it set equal pending; so injections are at most EOIs plus one, and at most one without any EOI. |
| SignalProtocol.MaskedIsSilent | windows/vbus/shm-signal.c:98-110 | From any state in which the signal is masked and nobody is past his test of enabled, every run without an Enable injects nothing, never sets pending, calls no notifier and requests no DPC; interrupts still posted are discarded. |
| SignalProtocol.NeverEnabledNeverInjected | windows/vbus/shm-signal.c:28-37 | A signal that was never enabled was never pending, injected or notified, in any run. |
| SignalProtocol.InjectKeeps | windows/vbus/shm-signal.c:88-113 | Each load and store of Inject keeps the signal invariant. |
| SignalProtocol.LocalKeeps | windows/vbus/shm-signal.c:28-65 | Each load and store of Enable, Disable, Eoi and Wakeup keeps it, from any point of the injector. |
| SignalProtocol.IsrKeeps | windows/vbus/pci.c:593-608 | Each step of the interrupt service routine keeps it, also when it discards an interrupt. |
| SignalProtocol.SoloInject | windows/vbus/shm-signal.c:88-113 | An undisturbed Inject leaves dirty set; enabled and not pending, it sets pending and injects once; masked or already pending, it leaves pending alone and injects nothing. |
| SignalProtocol.SoloCall | windows/vbus/shm-signal.c:28-65 | What an undisturbed local call leaves in each of the three bytes, and that it covers all changes exactly when it is not a Disable, the signal is then unmasked, and it was dirty or is pending. |
| ShmSignal.Signal.constructor | windows/vbus/shm-signal.c:130-139 | A fresh signal is masked, clean and not pending on both sides. |
| ShmSignal.Signal.Wakeup | windows/vbus/shm-signal.c:115-128 | The notifier runs, and dirty is cleared, exactly when enabled and dirty or pending. |
| ShmSignal.Signal.Enable | windows/vbus/shm-signal.c:28-37 | Leaves the signal unmasked and clean with pending as it was; notifies exactly when it was dirty or pending. |
| ShmSignal.Signal.Disable | windows/vbus/shm-signal.c:39-46 | Masks and changes nothing else. |
| ShmSignal.Signal.Eoi | windows/vbus/shm-signal.c:56-65 | Clears pending, and dirty if unmasked; notifies exactly when enabled and dirty. |
| ShmSignal.Signal.Inject | windows/vbus/shm-signal.c:88-113 | Dirties the other side; sets its pending and injects once when it is enabled and not pending, and leaves pending and injects nothing when it is masked or pending. |
| IoqQueue.PushAdvances | windows/vbus/ioq.c:107-142 | A push at the tail of an index with room succeeds, counts one more and advances iterator and tail together. |
| IoqQueue.DualPushAdvances | windows/vbus/ioq.c:119-126 | A dual push with room in both indexes and equal tails succeeds; both indexes count one more and the tails stay equal. |
| IoqQueue.PushSucceedsExactly | windows/vbus/ioq.c:116-134 | A push succeeds if and only if it is at the tail and owns the descriptor and, for a dual iterator, both tails were the same before; a refused one changes nothing, and no failing one flips an owner. |
| IoqQueue.PopAdvances | windows/vbus/ioq.c:144-174 | A pop at the head of a non-empty index succeeds and counts one less. |
| IoqQueue.PopSucceedsExactly | windows/vbus/ioq.c:152-166 | A pop succeeds if and only if it is at the head and owns the descriptor, and then leaves full clear; a refused one changes nothing; the owner is flipped exactly if the iterator flips. |
| IoqQueue.Ioq.constructor | windows/vbus/ioq.c:253-271 | An IOQ over zeroed memory: both indexes empty and every descriptor north-owned. |
| IoqQueue.Ioq.TailPush | windows/vbus/ioq.c:88-105 | The in-place update of one index; the other index and the ring are unchanged. |
| IoqQueue.Ioq.Count | windows/vbus/ioq.c:219-222 | ioq_count of either index: on one that counts right, absolute tail minus absolute head. |
| IoqQueue.Ioq.Remain | windows/vbus/ioq.c:224-229 | Remaining and counted descriptors add up to the ring size: what is left is the distance of the tail from head plus size. |
| IoqQueue.Ioq.Full | windows/vbus/ioq.c:236-241 | True if and only if the count is the ring size, that is, the tail is a whole lap ahead of the head. |
| IoqQueue.Ioq.Empty | windows/vbus/ioq.h:322-327 | True if and only if nothing is counted, that is, head and tail stand at the same position. |
| IoqQueue.Iterator.constructor | windows/vbus/ioq.c:193-217 | Flags and index type of an iterator: "both" is the valid index with the dual flag. |
| IoqQueue.Iterator.Seek | windows/vbus/ioq.c:50-76 | Where each kind of seek lands, for every offset and every earlier position: only an absolute position behind the ring is refused; a relative seek of an iterator never positioned wraps to the first descriptor; a negative absolute position succeeds and leaves the iterator outside the ring. |
| IoqQueue.Iterator.Push | windows/vbus/ioq.c:107-142 | In-place push of any iterator, also one never positioned: return value, both indexes, ring and iterator are those of the push function in all branches; the remote side is signalled exactly on a successful auto-updating push. |
| IoqQueue.Iterator.Pop | windows/vbus/ioq.c:144-174 | In-place pop, in the same terms. |
| EventQueue.FillStep | windows/vbus/pci.c:476-494 | The push after k filled descriptors succeeds if and only if k is below the ring size, and its whole result. |
| EventQueue.FilledHolds | windows/vbus/pci.c:476-494 | After n pushes the iterator has wrapped to 0, the valid index is full, the in-use index empty, everything south-owned: the ownership invariant, and the start state of the ring protocol. |
| EventQueue.OwnerTestIsEmptyTest | windows/vbus/pci.c:359-367 | The drain loop's owner test is south exactly when the in-use index is empty. |
| EventQueue.PopHolds | windows/vbus/pci.c:396-398 | One pop keeps the ownership invariant with the head one further. |
| EventQueue.IoqInit | windows/vbus/pci.c:540-568 | A queue is set up exactly when both allocations succeed, otherwise NO_MEMORY and no queue; a new queue has a zeroed ring and a masked signal. |
| EventQueue.EventQueue.Init | windows/vbus/pci.c:444-505 | Succeeds exactly for qlen up to the ring size (given memory); then descriptor i below qlen names buffer i with its length, is valid and south-owned, those behind are not valid and north-owned, the valid index counts qlen, the in-use index 0, and the signal is enabled; and the state a failure leaves. |
| EventQueue.EventQueue.Drain | windows/vbus/pci.c:367-400 | The loop terminates after exactly as many passes as events were outstanding. |
| EventQueue.EventQueue.Wakeup | windows/vbus/pci.c:344-404 | With south quiescent: exactly ioq_count(inuse) passes, events dispatched oldest first, their buffers zero and the others untouched, the index empty, all descriptors south-owned, the valid index unchanged, south signalled. |
| EventPath.SouthKeeps | windows/vbus/ioq.h:233-236 | Each step of push-then-signal keeps the joint invariant: a non-empty ring is known dirty, or about to be announced or drained. |
| EventPath.DpcKeeps | windows/vbus/pci.c:585-591 | So does each step of the DPC, its signal calls and the drain loop they run. |
| EventPath.DpcKeepsNoticed | windows/vbus/pci.c:367-400 | In particular the drain loop leaves only a ring it has seen empty. |
| EventPath.IsrKeeps | windows/vbus/pci.c:593-608 | So does each step of the interrupt service routine. |
| EventDelivery.NothingStrandedUnlessEoiOwed | windows/vbus/pci.c:344-404 | Whatever the DPC calls: with everybody at rest, notifications enabled and no EOI owed, every pushed event was dispatched in order. |
| EventDelivery.DispatchedInOrder | windows/vbus/pci.c:367-400 | In every reachable state of the composed system, the dispatched events are a prefix of the pushed ones. |
| EventDelivery.NoEoiOneInterrupt | windows/vbus/pci.c:585-591 | A DPC that never calls EOI is interrupted at most once in its life. |
| EventDelivery.EoiAfterEnableDelivers | windows/vbus/shm-signal.h:134-145 | With an EOI after an enable, a queue at rest is unmasked, owes no EOI and has delivered everything. |
| EventDelivery.DeliversExactlyWithEoiAfterEnable | windows/vbus/shm-signal.h:134-145 | No ring size and interleaving ever strands an event if and only if the DPC script calls EOI at some point after an enable. |
| EventDelivery.SourceDpcStrands | windows/vbus/pci.c:585-591 | The DPC as written strands events; so does EOI before enable; wakeup, enable, EOI does not. |
| EventLiveness.RestIsQuiescent | windows/vbus/pci.c:585-608 | Nobody has anything in progress if and only if the state is quiescent. |
| EventLiveness.BusyRunsEnd | windows/vbus/pci.c:363-400 | Once south starts no new push, every run of the contexts in progress, however scheduled, is no longer than a bound computed from the state. |
| EventLiveness.EverythingGetsDelivered | windows/vbus/shm-signal.h:134-145 | With an EOI after an enable, from every reachable state and for every schedule: when the contexts in progress have nothing left to do, exactly what south had pushed or begun to push was dispatched, in order. |
| EventLiveness.DeliveryIsReached | windows/vbus/shm-signal.h:134-145 | From every reachable state such a run to rest exists. |
| EventLiveness.AlwaysDeliversExactlyWithEoiAfterEnable | windows/vbus/shm-signal.h:134-145 | Every run to rest delivers everything, for all ring sizes, reachable states and schedules, if and only if the DPC script calls EOI at some point after an enable. |
| EventDelivery.FinishCall | windows/vbus/pci.c:363-400 | With south still, any call of the DPC ends, and a drain empties the ring: each pass pops one of finitely many events. |
| EventDelivery.StrandedMasked | windows/vbus/pci.c:602-607 | The run that strands the first event under a DPC that never unmasks. |
| EventDelivery.StrandedPending | windows/vbus/shm-signal.c:101-110 | The run that strands an event under a DPC with no EOI after its first enable. |
| DualIndex.IndexesInOrder | windows/vbus/ioq.c:119-126 | In every run: valid head, in-use pops, in-use head, in-use tail, valid tail in this order and within one lap; no guard fails; dispatched is a prefix of pushed. |
| DualIndex.TailsAgree | windows/vbus/ioq.c:119-126 | Between north's operations the two tails agree and the valid index counts right. |
| DualIndex.PushGuardsPass | windows/vbus/ioq.c:123-125 | A push admitted by the valid index passes its guards, and the -1 at line 125 is unreachable. |
| DualIndex.ReapedWasPopped | windows/vbus/ioq.c:152-153 | A reap that the owner guard lets through takes a descriptor that south has popped. |
| DualIndex.NextKeeps | windows/vbus/ioq.c:107-174 | Every load and store of north's push and reap and south's pop keeps the joint invariant. |
| SendQueue.CountNbl | windows/venet/sendrcv.c:63-75 | The count is the length of the chain. |
| SendQueue.Queue.constructor | windows/venet/venet.h:136 | The empty queue. |
| SendQueue.Queue.Empty | windows/venet/venet.h:138 | Empty if and only if no list is queued. |
| SendQueue.Queue.Deque | windows/venet/venet.h:141-155 | Returns the first list, unlinked, and the rest stays in order; Tail is NULL exactly when empty. |
| SendQueue.Queue.EnqueTail | windows/venet/venet.h:157-169 | Appends, whatever the list's old link was. |
| SendQueue.Queue.EnqueHead | windows/venet/venet.h:171-180 | Prepends. |
| SendQueue.Queue.Unlink | windows/venet/sendrcv.c:315-324 | Taking a node out leaves the others linked in order with the right Tail. |
| SendQueue.ChainFollow | windows/venet/venet.h:127-134 | k links on from node i is node i + k, or NULL behind the last. |
| SendQueue.ChainAcyclic | windows/venet/venet.h:127-134 | Following links never comes back to a node. |
| SendQueue.ChainUnique | windows/venet/venet.h:127-134 | A head determines its sequence of nodes. |
| SendQueue.QueueLists | windows/venet/sendrcv.c:404-408 | All lists handed over are queued behind those there, in order, each with its true count of net buffers. |
| SendQueue.SetListStatus | windows/venet/sendrcv.c:94-104 | Every list of the chain gets the status, and the links stay. |
| SendQueue.SendNetBufs | windows/venet/sendrcv.c:386-410 | A ready adapter queues all lists in order with their counts; one that is not ready leaves the queue and the chain as they were and gives every list the reason. |
| Cancel.CancelQueued | windows/venet/sendrcv.c:288-343 | The code as written: the queue loses its first match only and stays well formed. What is completed, with the reason, has the cancel id; no list with another id leaves the queue; and something is completed if and only if a queued list has the id or the id is NULL. |
| Cancel.CompleteAll | windows/venet/sendrcv.c:338-342 | Every list on the cancel queue is completed once, in queue order, with the reason. |
| Cancel.FirstPartition | windows/venet/sendrcv.c:310-331 | Survivors and completed lists of the code as written partition the queue, survivors in order, completed ones matching. |
| Cancel.AllMatchesGoExactlyIfOne | windows/venet/sendrcv.c:298-303 | The code as written leaves no match queued if and only if there is at most one. |
| Cancel.CancelEverythingTakesHead | windows/venet/sendrcv.c:298-303 | A NULL cancel id, which means all, takes only the head. |
| Cancel.CancelAll | windows/venet/sendrcv.c:298-303 | A traversal that saves the link first and advances prev over survivors only completes exactly the lists with the cancel id, or all for NULL, and leaves exactly the others queued, in order. |
| Cancel.AllPartition | windows/venet/sendrcv.c:298-303 | Its survivors and completed lists partition the queue; survivors keep their order and none matches; all completed ones match. |
| SendOrder.SentInOrder | windows/venet/sendrcv.c:234-285 | For any threads, outcomes and cancels: processed, in flight and queued lists are a subsequence of the accepted ones in arrival order, equal to them without cancels, and every accepted list is in exactly one place. |
| SendOrder.OneAtATime | windows/venet/sendrcv.c:247-249 | At most one thread processes a list, and it is the one sendingNBL names. |
| SendOrder.NotReadyTakesNothing | windows/venet/sendrcv.c:260-262 | From any state with the adapter not ready, in every run in which it does not get ready: nothing is accepted, no thread starts on a list, and only the list in flight can still be processed. |
| SendOrder.AcceptsExactlyIfReady | windows/venet/sendrcv.c:386-410 | A thread's lists are queued, and it goes on to the loop, if and only if the adapter is ready; else it leaves with the queue unchanged; either way the lock is free. |
| SendOrder.TakesExactlyIfReady | windows/venet/sendrcv.c:260-265 | The loop takes the first list if and only if none is in flight, one is queued and the adapter is ready; else it ends. |
| SendOrder.TakenExactly | windows/venet/sendrcv.c:310-331 | A cancel takes out the lists at the places it names and leaves those at the others. |
| SendOrder.AtMostOneProcessed | windows/venet/sendrcv.c:269-278 | In every run of the loop as written at most one list is processed, and a thread waits for its own lock if and only if one was. |
| SendOrder.StuckExactlyIfLockKept | windows/venet/sendrcv.c:251-278 | A state in which a thread waits for its own lock is reachable if and only if there is a thread and the loop keeps the lock after a success. |
| SendOrder.StuckForever | windows/venet/sendrcv.c:251-252 | From there on nothing is accepted, dequeued, processed or cancelled in any run. |
| SendOrder.ReleasingLoopSendsAll | windows/venet/sendrcv.c:241-249 | With the lock released after a success, one thread can send the whole queue in order. |
| SendOrder.NextKeeps | windows/venet/sendrcv.c:234-415 | Every critical section of sending, processing and cancelling keeps mutual exclusion, one list in flight and the order of lists. |
| TcbPool.AllocConserves | windows/venet/venet.c:789-807 | An allocation keeps free and busy blocks a partition, the free counter right, and the event set exactly when none is busy. |
| TcbPool.ReleaseConserves | windows/venet/venet.c:808-824 | So does a release of a busy block. |
| TcbPool.PoolConserved | windows/venet/venet.c:789-824 | So does every run of both. |
| TcbPool.AdmittedWalkNeverFindsNull | windows/venet/sendrcv.c:195-220 | A list is refused if and only if it has more buffers than there are free blocks; in an admitted walk every allocation returns a block, with any outcomes and any concurrent releases of busy blocks; a sent list took one block per buffer. |
| TcbPool.HeldStayBusy | windows/venet/sendrcv.c:204-228 | Blocks of submitted buffers stay busy, also when a later buffer fails, as long as nobody releases one of them. |
| TcbPool.WalkAloneIsTry | windows/venet/sendrcv.c:195-220 | For any outcomes, the steps of a walk that nobody interrupts amount to one try: refused, or the blocks of the buffers before the first failure busy and every other block, that of the failed buffer too, back where it was. |
| TcbPool.UnchangedExactlyIfNoneTaken | windows/venet/sendrcv.c:207-228 | A failed walk leaves the pool unchanged if and only if its first buffer failed. |
| TcbPool.RetriesExhaust | windows/venet/sendrcv.c:226-228 | Tries of a list whose buffer k > 0 keeps failing take k blocks each, until fewer are free than it needs; from then on every try is refused. |
| TcbPool.ExhaustedExactlyIfTaken | windows/venet/sendrcv.c:226-228 | Such retries use an admitting pool up if and only if k > 0. |
| TcbPool.Adapter.ProcessNBL | windows/venet/sendrcv.c:185-232 | The walk in place, alone with the pool: refused and nothing changed exactly when the buffers outnumber the free blocks; else it goes well exactly when no buffer fails, and the blocks of the buffers before the first failure, and only these, move from the free to the busy list in order and name the list; it is one try in the sense of the retries above. |
| TcbPool.FreeDistinct | windows/venet/venet.c:789-824 | In a conserved pool no block is on the free list twice. |
| TcbPool.Adapter.SetupTx | windows/venet/venet.c:298-325 | Sets up numTcbs different blocks, all free, if there is memory and a transmit handle; without memory it leaves the blocks it got uncounted; without a handle it frees all blocks and leaves them counted. |
| TcbPool.Adapter.FreeTx | windows/venet/venet.c:274-292 | Empties both lists and touches neither counter nor event. |
| TcbPool.Adapter.AllocTCB | windows/venet/venet.c:789-807 | NULL exactly when none is free; otherwise the block's fields, the lists, counter and event. |
| TcbPool.Adapter.ReleaseTCB | windows/venet/venet.c:808-824 | The block moves from busy to free, with counter and event. |
| FrameCopy.CopyFrame | windows/venet/sendrcv.c:107-183 | For any MDL chain, offset and priority, if the frame fits the buffer and no needed mapping is missing: for priority 0 and 8 or more (16 bits) the buffer gets exactly the bytes [offset, offset + length) of the concatenated MDLs, or what exists of them, and zeros up to 60; for 1 to 7 and 12 or more bytes it gets the first twelve, 0x81, 0 and the rest, and zeros up to 58. The count is at least 60 if there are bytes; nothing behind what is written changes; a missing mapping counts 0. |
| FrameCopy.TagsExactly | windows/venet/sendrcv.c:147-149 | Of the 16-bit priority values exactly 1 to 7 get a type. |
| FrameCopy.TaggedStep | windows/venet/sendrcv.c:147-165 | The writes of one piece, with the type where the twelfth byte of the frame falls into it, extend what is written for the frame so far to what is written for the longer one. |
| FrameCopy.WalkStep | windows/venet/sendrcv.c:127-169 | One MDL extends the gathered window, whether it is skipped, entered or cut. |
| FrameCopy.CountIsSuccessExactly | windows/venet/sendrcv.c:207-208 | The count reads as success if and only if an MDL the copy needs cannot be mapped or there is nothing to copy; otherwise it is at least 60. |
| FrameCopy.HalfCopiedIsSuccess | windows/venet/sendrcv.c:130-132 | A frame of two bytes in two MDLs, the second without a mapping, is counted as 0. |
| FrameCopy.CountIsBytesWritten | windows/venet/sendrcv.c:156-160 | Unless a mapping is missing, the count is the number of bytes written, or two more if and only if a type was inserted. |

## Left out

- Weak memory: loads and stores are sequentially consistent, as the `KeMemoryBarrier` calls of
  ioq.c and shm-signal.c intend; whether those calls suffice on a given processor is not modelled.
- The south side's own code is not in the repository. South is taken to run the same ioq
  code: it tests the owner bit, fills the buffer, pushes and then signals.
- Re-entrant or concurrent runs of `eventq_wakeup`: one consumer, and one local context for the
  signal besides the interrupt service routine. There is one injector.
- The signal eventq_wakeup sends south at its end is part of `EventQueue.EventQueue.Wakeup`, but
  not of the composed machine, whose state has only the signal towards north.
- DPC scripts consist of wakeup, enable and EOI calls; a DPC that itself masks is not considered,
  nor are the framework's eventq_intr_enable and eventq_intr_disable.
- Interrupts and DPC requests are counters and flags; registers, bridge calls, PCI resources and
  the framework objects are not modelled.
- The bodies of the event handlers: a dispatch is recorded as the buffer's contents.
- A notifier is registered on every signal and ioq; the reference counts of both are not modelled.
- `ptr` of a descriptor (a physical address), magic and version numbers.
- Index lookups with the invalid type, which read an uninitialised pointer.
- Ring sizes and counts are unbounded numbers: a ring too large for 32-bit arithmetic is not
  considered. `qlen` is not negative.
- Cancel.CancelAll: does not describe the code, but the traversal its comment intends.
- SrProcessQueue is the state machine of `SendOrder` only, not a method: what it promises is about
  threads that interleave. SendOrder works on whole critical sections of `sendLock` and on list
  identities; the linked queue below it is `SendQueue.Queue`. Readiness is one flag that may
  change at any time.
- The choice of the reason in SrGetAdapterStatus: it is a parameter of `SendQueue.SendNetBufs`.
- TcbPool.AdmittedWalkNeverFindsNull: treats each allocation and release as one step, although
  SrProcessNBL calls them without the lock their comment asks for; an outcome of a buffer is
  arbitrary, because the copy's byte count is compared with a status.
- TcbPool.Adapter.ProcessNBL: does not model other threads; the lemma above does.
- TcbPool.RetriesExhaust: takes it that nobody releases blocks between the tries.
- The reset and restart code of venet.c, which sets the send event unconditionally.
- FrameCopy.CopyFrame: does not model frames larger than the block's buffer.
- VenetTxCompletion, rewinding the IOQ, the receive path and the OID handlers: unfinished or flat.
- The older copy of the signal code under windows/libraries.
