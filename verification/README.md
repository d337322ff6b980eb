# Verified models of utils_tm

This project models the concurrent and arithmetic core of the C++ header library utils_tm in Dafny and
proves what its clients rely on. Concurrent components are state machines: a value `State`, an `Action`
per atomic operation, `Enabled`/`Apply` for one step, and theorems over every reachable state, for any
number of threads under sequentially consistent atomics (the repository's conservative memory order
policy). The same components also appear in the source's own form, as classes whose methods change
their fields in place, proved against functions of the old state.

| files | component |
|---|---|
| `hazard_*.dfy` | hazard pointers with mark hand-off: a deleter keeps no list, it parks the duty to delete as a mark on a slot that holds the pointer |
| `counting_*.dfy` | reference counts with a freelist; memory is recycled under threads that still count on its earlier life |
| `list_*.dfy` | the lock-free list with logical deletion: its linearization points, what a returned 0 of erase means, surprising runs, its operations run alone from wherever they were interrupted, with guards of both kinds |
| `ring_*.dfy` | the ticketed ring buffer |
| `mpsc_*.dfy` | the flip-flop buffer for many producers and one consumer |
| `barrier_*.dfy`, `parallel_loop.dfy` | the thread barrier and the block-parallel loops |
| `deque_object.dfy` | the growing deque over wrapping 64-bit indices |
| `murmur_*.dfy`, `fastrange.dfy` | MurmurHash64A as an injective map and its values on single keys, fastrange as a balanced partition |
| `guard_object.dfy`, `cell_reads.dfy` | the guards through which clients protect and unprotect; what protect sees of a cell that others write |
| `arithmetic.dfy` | integer arithmetic that several of them need |

Properties that turned out not to hold as one might expect, each with the exact condition or a run:

- The list retires a node while a shared cell still names it, exactly when another thread stands between
  unlinking a predecessor and storing that predecessor's self-link (`ListSafety.DisciplineExact`); such a
  state is reachable (`ListRuns.RetiredWhileNamed`). The reclamation managers ask for a pointer that has left
  every shared cell.
- Two erases can both return 1 for one pushed node (`ListRuns.OneNodeErasedTwice`); a successful mark takes a
  value out of the list exactly if its node is still on the chain (`ListSafety.LinearizationPoints`).
- With counting_manager, whose protect turns a marked null link into a plain null pointer, a call of erase(v)
  that runs alone ends if and only if a live `v` is left or the last node is not a dead one of value `v`
  (`ListDropping.EraseAlone`), and size() is right if and only if the last node is not dead, one too many
  otherwise (`ListDropping.SizeAlone`). Both failing states are reachable (`ListDropping.SecondEraseSpins`,
  `ListRuns.SizeCountsDeadTail`). hazard_manager, the list's default, keeps the mark unless it has to re-read.
- The deque breaks its sequence on a push exactly if it is full and `_end` has wrapped to 0
  (`DequeObject.CircularBuffer.PushBack`, `PushFront`); that state is reachable (`DequeObject.ReachBlind`).
- The barrier's atomics are never reset. A run that starts with both counters at 0 keeps its rounds apart if and
  only if the level is 0 as well, or it has no rounds or no sub threads (`BarrierSafety.RoundsNeedLevelZero`); a
  finished run leaves twice its rounds there (`BarrierSafety.RunLeaves`), so a second one with fresh threads does
  not (`BarrierSafety.SecondRunOverlaps`).
- A guard made from a raw null pointer leaves the handle protecting null (`GuardObject.Guard.FromPointer`). No
  operation of a guard takes that back; only a direct unprotect of the null pointer would.

What the environment decides appears as actions or parameters: which thread moves next, what the shared cells
of a client hold, which fresh address an allocation returns, how long a spin loop spins. The disciplines that the
code asks of its clients are in the `Enabled` predicates, for instance that a pointer leaves every shared cell
before `safe_delete` and is passed to it once, or that the dummy value is never pushed.

## Model

| member | source | states |
|---|---|---|
| HazardSafety.DestroyedIsUnprotected | memory_reclamation/hazard_reclamation.hpp:513-524 | whenever the destructor is called for a pointer, the pointer was retired and no handle holds a validated protection of it, in every interleaving |
| HazardSafety.ProtectedIsAllocated | memory_reclamation/hazard_reclamation.hpp:445-470 | a pointer whose re-read matched and that is not yet unprotected is allocated: alive or retired and not destroyed |
| HazardSafety.FreedOnlyByDestroying | memory_reclamation/hazard_reclamation.hpp:563-577 | a validly protected pointer stays allocated through every step except a call of the destructor, which the first result excludes |
| HazardSafety.NoFault | memory_reclamation/hazard_reclamation.hpp:516-521 | a scan never dereferences an empty handle entry and never meets a mark for the pointer it carries itself, so no duty is dropped |
| HazardSafety.ScanMissesNothing | memory_reclamation/hazard_reclamation.hpp:326-354 | a scan that stands at some slot has passed no protection: handles above are without one, and in this handle a copy lies at or below the scan |
| HazardSafety.LowestNeverRises | memory_reclamation/hazard_reclamation.hpp:264-312 | no owner step, swap of the last slot included, moves the lowest copy of a protected pointer upwards past a scan |
| HazardSafety.ExactlyOneDuty | memory_reclamation/hazard_reclamation.hpp:280-311 | a pointer is retired and not destroyed exactly if some place carries the duty to delete it, and then exactly one place does |
| HazardSafety.NothingLeft | memory_reclamation/hazard_reclamation.hpp:415-427 | when all slots are empty and no operation is under way nothing retired is left undestroyed |
| HazardSafety.RetiredOnceDestroyedOnce | memory_reclamation/hazard_reclamation.hpp:513-524 | over any run the retirements of a pointer equal its destructions plus one if it is still retired |
| HazardSafety.EveryRetirementIsAnswered | memory_reclamation/hazard_reclamation.hpp:513-524 | from the initial state on, the same balance for every run |
| HazardSafety.SlotsAreProtections | memory_reclamation/hazard_reclamation.hpp:247-312 | between operations the slots below the counter hold exactly the handle's protections, duplicates included, and all others are empty |
| HazardSafety.OthersKeepAddresses | memory_reclamation/hazard_reclamation.hpp:324-354 | other threads change only mark bits of a handle's slots, which is why find and the counter read count as one step of the owner |
| HazardSafety.StepKeepsInv | memory_reclamation/hazard_reclamation.hpp:183-577 | every step of every operation keeps the invariant of slots, handles, memory, duties and scans |
| HazardProgress.UnprotectEnds | memory_reclamation/hazard_reclamation.hpp:480-488 | in every reachable state unprotect run alone ends, and leaves slots, counters and retired pointers as the sequential manager does: the copy goes and a duty found on it is handed on |
| HazardProgress.DeleteEnds | memory_reclamation/hazard_reclamation.hpp:513-524 | in every reachable state safe_delete run alone ends, having marked the topmost copy in the highest handle in use that holds the pointer, or destroyed it if there is none |
| HazardProgress.ScanFrom | memory_reclamation/hazard_reclamation.hpp:563-577 | a deletion that stands anywhere in its scan and goes on alone does what is left of the sequential loops |
| HazardProgress.ProtectEnds | memory_reclamation/hazard_reclamation.hpp:445-470 | from every reachable state inside protect, with or without a duty under way, the call ends if its thread runs alone, protecting in addition exactly what the cell shows, nothing if that is null or a null was read before |
| HazardProgress.ProtectHoldsLastRead | memory_reclamation/hazard_reclamation.hpp:445-470 | in every interleaving, when protect has returned the handle protects in addition exactly what its thread read from the cell last, nothing if that was null |
| HazardProgress.RawEnds | memory_reclamation/hazard_reclamation.hpp:473-478 | protect_raw ends within two steps with its pointer protected |
| HazardProgress.SeekEnds | memory_reclamation/hazard_reclamation.hpp:188-214 | from every reachable state the search of get_handle ends if its thread runs alone, having taken the first handle from its place on that is not in use, or none if there is none |
| HazardProgress.RaiseEnds | memory_reclamation/hazard_reclamation.hpp:196-203 | a new handle raises the handle counter to its place unless it is there already, within five steps alone, and can then be used |
| HazardProgress.DestructEnds | memory_reclamation/hazard_reclamation.hpp:415-427 | from every reachable state a handle under destruction is cleared, its counter 0, and left for reuse, if its thread runs alone |
| HazardHandle.InternalHandle.constructor | memory_reclamation/hazard_reclamation.hpp:185-185 | a new handle has an empty slot array and counter 0 |
| HazardHandle.InternalHandle.Insert | memory_reclamation/hazard_reclamation.hpp:247-259 | the pointer goes unmarked into the slot at the old counter, all else stays |
| HazardHandle.InternalHandle.Find | memory_reclamation/hazard_reclamation.hpp:357-374 | the loop finds the topmost slot below the counter that holds the address, -1 if none |
| HazardHandle.InternalHandle.Remove | memory_reclamation/hazard_reclamation.hpp:264-312 | the topmost copy goes, the last slot fills the hole with its mark, the result reports the mark that was on the removed copy |
| HazardHandle.InternalHandle.Replace | memory_reclamation/hazard_reclamation.hpp:316-321 | one slot is overwritten and its old mark reported; a null leaves a hole there |
| HazardHandle.InternalHandle.FetchSub | memory_reclamation/hazard_reclamation.hpp:459-464 | lowering the counter past an emptied last slot makes the handle well formed again |
| HazardHandle.InternalHandle.Protect | memory_reclamation/hazard_reclamation.hpp:445-470 | the re-read loop, while others change the cell: the handle's next slot holds what two reads in a row agreed on, and after a null all is as before |
| CellReads.Stop | memory_reclamation/hazard_reclamation.hpp:450-468 | protect stops at the first null or at the first content that the next read confirms, and at no read before |
| HazardHandle.InternalHandle.Mark | memory_reclamation/hazard_reclamation.hpp:326-354 | the downward loop marks the first copy it meets, reports one already marked, or finds none |
| HazardHandle.RemovedTakesOne | memory_reclamation/hazard_reclamation.hpp:264-312 | removal takes exactly one copy out of the slots and loses no other pointer and no mark |
| HazardHandle.RemoveAlone | memory_reclamation/hazard_reclamation.hpp:264-312 | the atomic steps of the protocol, run without interference, do what the method Remove does, and go on deleting exactly if it reports a mark |
| HazardObject.RetiringParksOne | memory_reclamation/hazard_reclamation.hpp:513-524 | alone, safe_delete of a pointer without a duty parks exactly one mark or destroys it |
| HazardObject.DutyHandedOn | memory_reclamation/hazard_reclamation.hpp:480-488 | alone, giving up a protection of a retired pointer keeps its one duty, on another copy, or destroys it if there is none below |
| HazardObject.GivenUpExact | memory_reclamation/hazard_reclamation.hpp:480-488 | giving up a protection destroys the pointer if and only if the copy that goes carried the mark, the own handle has no other copy and no lower handle in use has one; otherwise a mark found goes to the next copy below in the own handle, else to the topmost copy in the next lower handle that has one |
| HazardObject.ContinuedExact | memory_reclamation/hazard_reclamation.hpp:563-577 | a deletion that goes on below a slot destroys the pointer if and only if there is no copy from that slot down and none in lower handles in use, and says which slot is marked otherwise |
| HazardObject.ScannedExact | memory_reclamation/hazard_reclamation.hpp:513-524 | retiring destroys the pointer if and only if no handle in use holds it, and otherwise marks the topmost copy in the highest such handle |
| HazardObject.MarksUpdate | memory_reclamation/hazard_reclamation.hpp:326-354 | changing one handle changes the marks of a pointer by that handle's part |
| HazardObject.Manager.Protect | memory_reclamation/hazard_reclamation.hpp:445-470 | while others change the cell, the pointer that two reads in a row agree on goes into the handle's next slot, null into none, and no other handle changes |
| HazardObject.Manager.MarkIn | memory_reclamation/hazard_reclamation.hpp:326-354 | marks the topmost copy in one handle and changes no other handle |
| HazardObject.Manager.RemoveIn | memory_reclamation/hazard_reclamation.hpp:264-312 | takes one copy out of one handle and reports its mark |
| HazardObject.Manager.Scan | memory_reclamation/hazard_reclamation.hpp:569-576 | alone, the downward loop over the handles marks in the first that holds the pointer, destroys it if none does |
| HazardObject.Manager.SafeDelete | memory_reclamation/hazard_reclamation.hpp:513-524 | alone, the same from the highest handle |
| HazardObject.Manager.ContinueDeletion | memory_reclamation/hazard_reclamation.hpp:563-577 | alone, the duty goes on below the given slot of the own handle, then in the handles below; HazardObject.ContinuedExact says when it destroys and where the mark goes |
| HazardObject.Manager.Unprotect | memory_reclamation/hazard_reclamation.hpp:480-488 | alone, one copy goes, and a mark found on it is handed on; HazardObject.GivenUpExact says when it destroys and where the mark goes |
| CountingSafety.ErasedIsUnprotected | memory_reclamation/counting_reclamation.hpp:420-427 | the T in an object is never erased while a thread holds a validated protection of this incarnation, whatever stale counts are under way |
| CountingSafety.ProtectedIsConstructed | memory_reclamation/counting_reclamation.hpp:305-323 | a validly protected pointer has a T that was constructed and not erased |
| CountingSafety.CounterIsHolds | memory_reclamation/counting_reclamation.hpp:222-264 | the low 31 bits of the counter are the tentative and validated holds together, the top bit says that the object is retired |
| CountingSafety.SomebodyIsDue | memory_reclamation/counting_reclamation.hpp:228-251 | whenever the counter is exactly the delete flag some thread is still due to call reset |
| CountingSafety.RetiredOnceErasedOnce | memory_reclamation/counting_reclamation.hpp:368-383 | each safe_delete leads to exactly one erase and one freelist entry |
| CountingSafety.NothingLeft | memory_reclamation/counting_reclamation.hpp:420-427 | when all threads rest without holds nothing retired is left unerased or outside the freelist |
| CountingSafety.FreelistIsClean | memory_reclamation/counting_reclamation.hpp:278-302 | the freelist holds no memory twice and exactly the memory whose T was erased and not reborn |
| CountingSafety.StepKeepsInv | memory_reclamation/counting_reclamation.hpp:222-427 | every step of every operation keeps the invariant of counters, phases, freelist and threads |
| CountingProgress.ProtectEnds | memory_reclamation/counting_reclamation.hpp:305-323 | from every reachable state inside protect, the call ends within fourteen steps if its thread runs alone, holding in addition exactly what the cell shows, nothing if that is null or a null was read before |
| CountingProgress.ProtectHoldsLastRead | memory_reclamation/counting_reclamation.hpp:305-323 | in every interleaving, when protect has returned the thread holds in addition exactly what it read from the cell last, nothing if that was null |
| CountingProgress.ResetEnds | memory_reclamation/counting_reclamation.hpp:420-427 | internal_delete run alone ends within three steps: it erases the object and queues its memory if the counter is the bare flag, and changes nothing otherwise |
| CountingProgress.CreateEnds | memory_reclamation/counting_reclamation.hpp:278-302 | create_pointer run alone leaves a live object that only its thread knows, in the first piece of memory on the freelist if there is one |
| CountingObject.CountedObject.IncrementCounter | memory_reclamation/counting_reclamation.hpp:222-225 | one more hold, the flag stays |
| CountingObject.CountedObject.DecrementCounter | memory_reclamation/counting_reclamation.hpp:228-239 | one hold less; tells exactly the caller that leaves the bare flag |
| CountingObject.CountedObject.MarkDeletion | memory_reclamation/counting_reclamation.hpp:242-251 | the flag is set, holds stay; tells whether nobody held and the flag was new |
| CountingObject.CountedObject.Reset | memory_reclamation/counting_reclamation.hpp:260-264 | succeeds exactly on the bare flag and clears it |
| CountingObject.Manager.CreatePointer | memory_reclamation/counting_reclamation.hpp:278-302 | takes the first piece of memory from the freelist, or new memory if there is none |
| CountingObject.Manager.Protect | memory_reclamation/counting_reclamation.hpp:305-323 | while others change the cell, ends with one more hold on the object that two reads in a row agree on, none after a null, and has given back every hold it took on the way |
| CountingObject.Manager.GiveBack | memory_reclamation/counting_reclamation.hpp:333-338 | one hold less; the last hold of a retired object erases it and queues its memory |
| CountingObject.Manager.Unprotect | memory_reclamation/counting_reclamation.hpp:333-338 | alone, the last hold of a retired object erases it and queues its memory |
| CountingObject.Manager.SafeDelete | memory_reclamation/counting_reclamation.hpp:368-372 | alone, an object without holds is erased and queued at once, another is flagged and left to its last hold |
| CountingObject.Manager.InternalDelete | memory_reclamation/counting_reclamation.hpp:420-427 | erases and queues exactly if the reset succeeds |
| ListSafety.ChainIsList | data_structures/protected_singly_linked_list.hpp:206-213 | following next from _head always reaches null without meeting a node twice, and this chain is unique |
| ListSafety.OnlyMarkedNodesLeave | data_structures/protected_singly_linked_list.hpp:501-529 | one step puts a new node in front, cuts out one node whose next is marked, or leaves the chain alone |
| ListSafety.MarkedLinksAreFrozen | data_structures/protected_singly_linked_list.hpp:296-331 | the next of a marked node does not change while the node is linked |
| ListSafety.RetiredOnceAndUnlinked | data_structures/protected_singly_linked_list.hpp:523-525 | a node is handed to safe_delete at most once, and only when it is off the chain |
| ListSafety.NodesAreConserved | data_structures/protected_singly_linked_list.hpp:501-529 | every node is in exactly one place: with its pusher, on the chain, with the thread that unlinked it, or retired |
| ListSafety.DisciplineExact | data_structures/protected_singly_linked_list.hpp:514-525 | a node about to be retired is still named by a shared cell if and only if some thread has unlinked its predecessor and not yet stored the self-link |
| ListSafety.LinearizationPoints | data_structures/protected_singly_linked_list.hpp:206-331 | only a successful push puts a value in front and only a successful mark of a linked node takes one occurrence of erase's value out; all other steps, helping included, leave the values alone |
| ListSafety.LiveMark | data_structures/protected_singly_linked_list.hpp:304-307 | marking one node takes exactly its value out of the live sequence, at its place |
| ListSafety.LiveCut | data_structures/protected_singly_linked_list.hpp:514-521 | unlinking a marked node leaves the live sequence alone |
| ListSteps.StepKeepsInv | data_structures/protected_singly_linked_list.hpp:206-529 | every step of push, erase, size and remove keeps the invariant and changes the chain only in the stated ways |
| ListSteps.UnlinkPosition | data_structures/protected_singly_linked_list.hpp:511-521 | a compare-exchange that succeeds finds curr linked right behind prev, so no node outside the chain is rewired |
| ListRuns.OneNodeErasedTwice | data_structures/protected_singly_linked_list.hpp:296-307 | a run with one push in which two erases of its value both return 1 |
| ListRuns.RetiredWhileNamed | data_structures/protected_singly_linked_list.hpp:523-525 | a run in which a node is about to be retired while an unlinked predecessor still names it |
| ListRuns.SizeCountsDeadTail | data_structures/protected_singly_linked_list.hpp:394-432 | a run push, erase, size in which size returns 1 although nothing is live |
| ListProgress.PushEnds | data_structures/protected_singly_linked_list.hpp:206-213 | from every reachable state inside a push, however stale the head it has read, the push ends within four steps if its thread runs alone, and the live values are then the old ones with its own in front |
| ListProgress.PushCallEnds | data_structures/protected_singly_linked_list.hpp:206-213 | the same for a whole call of push(v) in any state of the list |
| ListProgress.AlwaysEnds | data_structures/protected_singly_linked_list.hpp:206-529 | wherever push, erase, size or remove has been interrupted in any interleaving, it ends if its thread runs alone and its guards show the marks of null links |
| ListPresence.PresentIsFound | data_structures/protected_singly_linked_list.hpp:281-333 | if a node of value v is linked and unmarked from before a call of erase(v) until it returns, the call returns 1, whatever other threads do; so a returned 0 means that all such nodes were taken out in the meantime |
| ListPresence.SettledStep | data_structures/protected_singly_linked_list.hpp:501-529 | every step keeps that a node unlinked as the last one comes after all nodes that are linked |
| ListDropping.EraseAlone | data_structures/protected_singly_linked_list.hpp:281-333 | run alone from any state of the list, erase(v) ends if and only if its guards keep the mark of a null link, or a live v is left, or the last node is not a dead one of value v; when it ends it has taken the first live v out and returns whether there was one |
| ListDropping.SizeAlone | data_structures/protected_singly_linked_list.hpp:394-432 | run alone from any state of the list, size() ends, keeps the live values and returns their number, plus one if and only if its guards drop the mark of a null link and the last node is marked |
| ListDropping.SecondEraseSpins | memory_reclamation/counting_reclamation.hpp:309-310 | push(v); erase(v); erase(v) by one thread reaches a state from which the second erase never ends while its guards drop the mark |
| ListDropping.SpinTwice | memory_reclamation/counting_reclamation.hpp:309-310 | at a dead last node of its own value such an erase is back in the same state after two steps |
| ListDropping.StepsReachable | data_structures/protected_singly_linked_list.hpp:281-432 | what a call run alone goes through are states of the list's protocol |
| ListObject.List.constructor | data_structures/protected_singly_linked_list.hpp:90-90 | a new list is empty |
| ListObject.List.CompareExchange | data_structures/protected_singly_linked_list.hpp:514-521 | writes the cell exactly if it holds the expected unmarked pointer |
| ListObject.List.AtomicMark | mark_pointer.hpp:54-61 | alone, the mark of erase succeeds and takes the first occurrence of the value out |
| ListObject.List.Allocate | data_structures/protected_singly_linked_list.hpp:198-203 | a new node that no other node names |
| ListObject.List.Push | data_structures/protected_singly_linked_list.hpp:206-213 | alone, puts the value in front |
| ListObject.List.Erase | data_structures/protected_singly_linked_list.hpp:281-333 | alone, with guards of either kind, terminates under the condition of ListDropping.EraseAlone, takes the first live match out and returns 1 if and only if there is one |
| ListObject.List.Size | data_structures/protected_singly_linked_list.hpp:394-432 | alone, with guards of either kind, terminates, returns the number of live values, plus one if the guards drop the mark of a dead last node, and leaves no other marked node linked |
| ListObject.List.Remove | data_structures/protected_singly_linked_list.hpp:501-529 | alone, cuts out the run of marked nodes from curr on and retires each of them once; nothing if called with an unmarked next |
| ListObject.List.Unlink | data_structures/protected_singly_linked_list.hpp:508-525 | alone, one turn of remove's loop cuts out, self-links and retires one node and keeps all values |
| ListAlone.MarkRemovesFirst | data_structures/protected_singly_linked_list.hpp:299-307 | marking the first live match takes the first occurrence out of the values |
| ListAlone.NoMatch | data_structures/protected_singly_linked_list.hpp:310-314 | a traversal that ends without a match proves that there is none |
| ListAlone.UnlinkAlone | data_structures/protected_singly_linked_list.hpp:508-525 | alone, the compare-exchange of remove succeeds and what follows keeps the list well formed |
| RingSafety.Conservation | data_structures/concurrent_circular_buffer.hpp:177-205 | in every interleaving the multiset of completed pushes is that of completed pops plus what is in the slots |
| RingSafety.Progress | data_structures/concurrent_circular_buffer.hpp:177-205 | if a push and a pop are pending, or anything is pending while 0 <= _push_id - _pop_id <= capacity, some pending operation finds its slot as it needs it |
| RingSafety.ReadyCompletes | data_structures/concurrent_circular_buffer.hpp:183-204 | such an operation completes in at most two of its own steps |
| RingSafety.QuietShape | data_structures/concurrent_circular_buffer.hpp:217-220 | with nothing pending, 0 <= size() <= capacity, size() is the number of occupied slots, and these are exactly the slots of the tickets from _pop_id to _push_id |
| RingSafety.BalanceKept | data_structures/concurrent_circular_buffer.hpp:177-205 | every step keeps, per slot, occupancy equal to completed pushes less completed pops of its tickets |
| RingSafety.Window | data_structures/concurrent_circular_buffer.hpp:56-56 | of as many consecutive tickets as there are slots each slot gets exactly one |
| RingSafety.Spread | data_structures/concurrent_circular_buffer.hpp:56-56 | between any two tickets no slot gets two more than another |
| RingObject.TicketRing.constructor | data_structures/concurrent_circular_buffer.hpp:64-84 | the capacity becomes the next power of two, all slots hold the dummy |
| RingObject.TicketRing.DrawPush | data_structures/concurrent_circular_buffer.hpp:179-180 | draws the ticket and its slot; the wrapped 64-bit counter gives the same slot as the unbounded one |
| RingObject.TicketRing.DrawPop | data_structures/concurrent_circular_buffer.hpp:192-193 | the same for pop |
| RingObject.TicketRing.Store | data_structures/concurrent_circular_buffer.hpp:182-186 | one compare-exchange of push |
| RingObject.TicketRing.Exchange | data_structures/concurrent_circular_buffer.hpp:195-203 | one exchange of pop |
| RingObject.TicketRing.Size | data_structures/concurrent_circular_buffer.hpp:217-220 | the wrapped difference is the difference of the tickets |
| RingObject.TicketRing.Push | data_structures/concurrent_circular_buffer.hpp:177-187 | alone on a ring that is not full, appends to the queue |
| RingObject.TicketRing.Pop | data_structures/concurrent_circular_buffer.hpp:190-206 | alone on a ring that is not empty, takes the first of the queue |
| RingObject.PushAppends | data_structures/concurrent_circular_buffer.hpp:177-187 | alone, a push that is not a lap ahead finds its slot empty, completes and appends |
| RingObject.PopTakesFirst | data_structures/concurrent_circular_buffer.hpp:190-206 | alone, a pop finds the first value in its slot |
| RingObject.WrappedSlot | data_structures/concurrent_circular_buffer.hpp:180-180 | mod(id + 1) of a ticket that wrapped around is the slot of the unbounded ticket |
| MpscSafety.Fifo | data_structures/many_producer_single_consumer_buffer.hpp:203-261 | what pop has returned is always a prefix of the successful pushes in the order of their fetch_add, across all flips |
| MpscSafety.EmptyIffAllPopped | data_structures/many_producer_single_consumer_buffer.hpp:266-282 | at its exchange pop turns out empty if and only if every successful claim was already popped |
| MpscSafety.StoresAreExclusive | data_structures/many_producer_single_consumer_buffer.hpp:215-215 | every store hits an empty slot inside the buffer that no other producer is about to store to |
| MpscSafety.FailsIffFull | data_structures/many_producer_single_consumer_buffer.hpp:205-213 | push_back fails exactly if the half it fills is full; never more than twice the capacity waits |
| MpscSafety.WaitsForOneProducer | data_structures/many_producer_single_consumer_buffer.hpp:256-257 | pop waits exactly while the producer of the next value has not stored it, and goes on after that store |
| MpscSafety.PopEnds | data_structures/many_producer_single_consumer_buffer.hpp:249-282 | wherever pop has been interrupted, it ends within four steps if the consumer runs alone and the next value has been stored, returning the first value that waits, nothing exactly if none does |
| MpscSafety.StepKeepsInv | data_structures/many_producer_single_consumer_buffer.hpp:203-282 | every step keeps the correspondence of waiting values and slots |
| MpscObject.Buffer.constructor | data_structures/many_producer_single_consumer_buffer.hpp:82-93 | a new buffer is empty, all slots hold the dummy |
| MpscObject.Buffer.PushBack | data_structures/many_producer_single_consumer_buffer.hpp:203-217 | alone, appends, or fails exactly if the half is full |
| MpscObject.Buffer.Pop | data_structures/many_producer_single_consumer_buffer.hpp:249-261 | alone, returns the first waiting value, nothing exactly if none waits |
| MpscObject.Buffer.Fetch | data_structures/many_producer_single_consumer_buffer.hpp:266-282 | flips the halves without losing or reordering anything |
| BarrierSafety.RoundsDoNotOverlap | thread_coordination.hpp:120-131 | while a function of a round runs every thread has arrived for that round and none is beyond its end stage |
| BarrierSafety.StagesAreClose | thread_coordination.hpp:142-171 | any two stages differ by at most one |
| BarrierSafety.ZeroDiscardsNothing | thread_coordination.hpp:142-171 | when a counter is zeroed it holds exactly one arrival of each sub thread, all for the stage about to be released |
| BarrierSafety.LevelGrows | thread_coordination.hpp:142-171 | the level never falls |
| BarrierSafety.NoDeadlock | thread_coordination.hpp:210-239 | unless all threads have finished all rounds some thread can leave its loop or take a step that does not wait |
| BarrierSafety.RunsEnd | thread_coordination.hpp:142-239 | the steps of a run that do not wait are bounded by 8 per round plus 6 per round and sub thread |
| BarrierSafety.EveryRoundIsCalled | thread_coordination.hpp:120-131 | at any point of any run each thread, main or sub, has called its function exactly once in each round whose end stage it has begun, in order; in a finished run once in every round |
| BarrierSafety.CanFinish | thread_coordination.hpp:142-239 | from every reachable state a finished one can be reached |
| BarrierSafety.RunLeaves | thread_coordination.hpp:142-171 | a finished run leaves the level at twice its rounds and both counters at 0 |
| BarrierSafety.RoundsNeedLevelZero | thread_coordination.hpp:108-110 | of the runs that start with both counters at 0 exactly those keep their rounds apart that start with the level at 0, have no rounds or have no sub threads |
| BarrierSafety.SecondRunOverlaps | thread_coordination.hpp:108-110 | after a finished run a second one with fresh threads keeps its rounds apart if and only if one of the two has no rounds or the second has no sub threads |
| BarrierSafety.StartsEarly | thread_coordination.hpp:210-239 | with any level left over a sub thread enters its first function before the main thread has called synchronized |
| BarrierSafety.StepKeepsInv | thread_coordination.hpp:142-239 | every step keeps the relation of level, counters and stages |
| BarrierObject.Coordination.constructor | thread_coordination.hpp:255-268 | all atomics and stages start at 0 |
| BarrierObject.Coordination.MainStep | thread_coordination.hpp:142-171 | one step of the main thread on the shared atomics and on its stage, as BarrierSafety.EveryRoundIsCalled and the other results take it |
| BarrierObject.Coordination.SubStep | thread_coordination.hpp:210-239 | one step of a sub thread on the shared atomics |
| ParallelLoop.EachIndexOnce | thread_coordination.hpp:283-295 | no index is called twice, and when all threads have returned every index below e was called exactly once and no other was |
| ParallelLoop.BlocksPartition | thread_coordination.hpp:298-310 | the blocks given out follow one another without gap or overlap and in the end make up [0, e) |
| ParallelLoop.RunsEnd | thread_coordination.hpp:283-310 | a run has at most one step for each index, each block and each thread, so every run ends with all threads back |
| ParallelLoop.CounterNeverWraps | thread_coordination.hpp:288-294 | the shared counter never overflows |
| ParallelLoop.ExecuteParallel | thread_coordination.hpp:283-295 | one thread alone calls f for what is left of [0, e), in order |
| ParallelLoop.ExecuteBlockwiseParallel | thread_coordination.hpp:298-310 | one thread alone is given blocks that together are what is left of [0, e), in order |
| ParallelLoop.StepKeepsInv | thread_coordination.hpp:283-310 | every step keeps each drawn index called or ahead of exactly one thread |
| DequeObject.FullTestExact | data_structures/circular_buffer.hpp:217-217 | on a full buffer the test fires if and only if _end is not 0 |
| DequeObject.CircularBuffer.constructor | data_structures/circular_buffer.hpp:128-137 | an empty deque whose capacity is a power of two of at least 32 |
| DequeObject.CircularBuffer.PushBack | data_structures/circular_buffer.hpp:214-223 | the sequence grows at the back, within the capacity, if and only if the buffer was not full with _end == 0; an early firing of the test does no harm |
| DequeObject.CircularBuffer.PushFront | data_structures/circular_buffer.hpp:225-232 | the same at the front |
| DequeObject.CircularBuffer.PopBack | data_structures/circular_buffer.hpp:260-269 | the last value, nothing exactly if the sequence is empty |
| DequeObject.CircularBuffer.PopFront | data_structures/circular_buffer.hpp:272-281 | the first value, nothing exactly if the sequence is empty |
| DequeObject.CircularBuffer.MoveTo | data_structures/circular_buffer.hpp:313-318 | the loop of grow moves the values, in order, to the front of the new buffer |
| DequeObject.CircularBuffer.Grow | data_structures/circular_buffer.hpp:307-326 | twice the capacity and the same sequence from index 0 on, wherever the indices had wrapped |
| DequeObject.CircularBuffer.Length | data_structures/circular_buffer.hpp:286-289 | the wrapped difference is the length of the sequence |
| DequeObject.CircularBuffer.Iterate | data_structures/circular_buffer.hpp:98-106 | iterating forward from begin() to end() meets the values once each, in order |
| DequeObject.ReachBlind | data_structures/circular_buffer.hpp:225-232 | a full buffer with _end == 0 is reached through public operations |
| DequeObject.Appended | data_structures/circular_buffer.hpp:214-223 | the slot behind the last value is none of the occupied ones, so storing there appends |
| DequeObject.Prepended | data_structures/circular_buffer.hpp:225-232 | the same for the slot before the first, across the wrap of the index |
| DequeObject.SizeSpans | data_structures/circular_buffer.hpp:115-117 | the index i steps after start is end exactly if i is the size, across the wrap |
| MurmurHash.EightBytesBijective | hash/murmur2_hash.hpp:81-85 | on 8-byte keys the hash is a bijection of the 64-bit words for every seed, with Unhash8 as its inverse |
| MurmurHash.FourBytesInjective | hash/murmur2_hash.hpp:87-91 | on 4-byte keys the hash is injective for every seed |
| MurmurHash.OnlyOneBlockDiffers | hash/murmur2_hash.hpp:37-47 | keys of one length that differ at most in one 8-byte block hash differently if and only if they differ |
| MurmurHash.OnlyTailDiffers | hash/murmur2_hash.hpp:51-72 | keys of one length that differ at most in the tail hash differently if and only if they differ |
| MurmurHash.SeedMatters | hash/murmur2_hash.hpp:30-30 | for every key, different seeds give different hashes |
| MurmurHash.LowSeedMatters | hash/murmur2_hash.hpp:22-25 | two hash objects agree on a key exactly if the low 32 bits of their 64-bit seeds agree, and then on every key |
| MurmurHash.AbsorbUndone | hash/murmur2_hash.hpp:37-47 | a turn of the loop can be undone, in the state and in the block |
| MurmurHash.FinishUndone | hash/murmur2_hash.hpp:74-78 | the final mixing can be undone |
| MurmurValues.HashOfNothing | hash/murmur2_hash.hpp:25-79 | the empty key with seed 0 hashes to 0 |
| MurmurValues.HashOfZero | hash/murmur2_hash.hpp:25-79 | the 64-bit key 0 with seed 0 hashes to 0x7208f7fa198a2d81 |
| MurmurValues.HashOfTail | hash/murmur2_hash.hpp:25-79 | "abc" with seed 7 hashes to 0xcc82712c1f7f6fa5 |
| MurmurValues.HashOfBlockAndTail | hash/murmur2_hash.hpp:21-79 | the bytes 1 to 11 with the default seed hash to 0xfdb0284d96912478 |
| MurmurValues.HashOfBlocks | hash/murmur2_hash.hpp:25-79 | the bytes 1 to 16 with the highest seed hash to 0xb00ab6898265d51a |
| MurmurValues.HashOfWord | hash/murmur2_hash.hpp:81-85 | the 64-bit key 0x0123456789abcdef with seed 12345 hashes to 0x52fb6ca6ef2126c1 |
| MurmurValues.HashOfHalfWord | hash/murmur2_hash.hpp:87-91 | the 32-bit key 0x12345678 with seed 12345 hashes to 0x4a5a31d62fd43d67 |
| MurmurValues.XorBits | hash/murmur2_hash.hpp:42-45 | the recursive exclusive or is the bitwise one |
| MurmurWords.ShakeTwice | hash/murmur2_hash.hpp:42-42 | x ^= x >> 47 is its own inverse |
| MurmurWords.MulInverse | hash/murmur2_hash.hpp:41-43 | multiplication by a number with an inverse modulo 2^64 can be undone |
| MurmurObject.MurmurHash64A | hash/murmur2_hash.hpp:25-79 | the loop over the blocks and the falling-through switch compute the function Hash, whose values the rows of MurmurValues give for single keys |
| MurmurObject.Switch | hash/murmur2_hash.hpp:51-72 | the cases together absorb the tail as one little-endian word, and multiply only if there is a tail |
| MurmurObject.CaseAdds | hash/murmur2_hash.hpp:53-70 | each case adds the next lower byte in its place |
| Fastrange.Fastrange32Balanced | fastrange.hpp:11-14 | monotone, below cap, and each result has floor or ceiling of 2^32 / cap preimages, a stated interval |
| Fastrange.Fastrange64Balanced | fastrange.hpp:23-28 | the same for 64 bits |
| Fastrange.Preimage | fastrange.hpp:11-28 | an input goes to j exactly if it lies from ceil(j * 2^w / cap) up to ceil((j + 1) * 2^w / cap) |
| Fastrange.Balanced | fastrange.hpp:11-28 | the sizes of these intervals are floor or ceiling of 2^w / cap |
| GuardObject.Guard.Empty | memory_reclamation/reclamation_guard.hpp:63-66 | an empty guard needs no protection |
| GuardObject.Guard.FromCell | memory_reclamation/reclamation_guard.hpp:70-74 | each handle protects each address but null as often as living guards hold it, the new guard included, and null as often as before |
| GuardObject.Guard.FromPointer | memory_reclamation/reclamation_guard.hpp:78-83 | the same for a raw pointer, except that a null pointer adds one protection of null, which every other operation of a guard keeps |
| GuardObject.Guard.Moved | memory_reclamation/reclamation_guard.hpp:104-108 | the protection goes with the pointer, the source is empty |
| GuardObject.Guard.MoveAssign | memory_reclamation/reclamation_guard.hpp:112-118 | the own protection is given back, the source's is taken over, self-assignment does nothing |
| GuardObject.Guard.Release | memory_reclamation/reclamation_guard.hpp:127-133 | gives the protection back and hands out the pointer |
| GuardObject.Guard.Destroy | memory_reclamation/reclamation_guard.hpp:121-124 | the guard's protection goes with it |
| GuardObject.Guard.Unmark | memory_reclamation/reclamation_guard.hpp:136-141 | clears the mark bits, reports them, keeps the protection |
| GuardObject.NothingLeft | memory_reclamation/reclamation_guard.hpp:121-124 | when all guards are gone a handle protects nothing but null, and nothing at all exactly if it does not protect null |

## Left out

- Weak memory orders: all results are for sequentially consistent atomics. A weak compare-exchange that fails spuriously is a step that changes nothing.
- hazard_manager: the out-of-handles path of get_handle, the wait loop of the destructor, is_safe, delete_raw, printing and the usage counters.
- The reads of the counter and the slots in `find`, and the counter reads of `remove`, are one step with the call of unprotect; HazardSafety.OthersKeepAddresses shows why nobody can tell.
- HazardObject.Manager.Protect: nobody parks a mark on the slot before the pointer is confirmed, so continue_deletion is not called; the state machine covers that (HazardSafety.ExactlyOneDuty).
- CountingObject.Manager.Protect: none of the objects it reads is already waiting for somebody to erase it, which is so when no other operation is under way; the state machine covers the rest.
- ListProgress.AlwaysEnds: is about guards that show the marks of null links, because with the others an erase may spin (ListDropping.EraseAlone says when a whole call does).
- GuardObject.Guard.FromCell: the handle is what its guards see of any of the managers, a multiset of protections.
- HazardObject.Manager.Scan: the class starts from handles that exist; creating, destroying and reusing them is in the state machine.
- counting_manager: more than 2^31 - 1 simultaneous holds of one object, is_safe, delete_raw and the bodies of destructors.
- HazardHandle.InternalHandle.Remove: the class shows one thread's view; what other threads do between its atomic operations is in the state machine.
- The list assumes that a node's memory is not recycled while a thread may still look at it; keeping to that is the reclamation manager's part, under the discipline that ListSafety.DisciplineExact is about. Recycling under a stalled push is part of that assumption.
- push_or_find, find, contains and the iterators of the list.
- ListObject.List.Erase: asks for the condition under which its loop ends, because it would not return otherwise; ListDropping.EraseAlone shows that this condition is exact.
- Which of several concurrent erases of one value returns 1, beyond what ListSafety.LinearizationPoints and ListPresence.PresentIsFound say.
- RingObject.TicketRing.Pop: alone on an empty ring pop would wait for ever, and push on a full one; waiting is in the state machine.
- MpscObject.Buffer.Pop: shows a pop while no producer is in the middle of a push; waiting for one is in the state machine.
- concurrent_circular_buffer: copy, move, clear and the destructor. The bit mask of `mod` is read as the remainder by a power of two, here and in circular_buffer.
- many_producer_single_consumer_buffer: push_back of a range, copy and move; 2^63 or more attempts between two flips.
- BarrierObject.Coordination.MainStep: a spin loop is as many calls as it takes, because alone it would not end; so is SubStep.
- thread_coordination: timing, output, starting and joining of threads, the results of the functions. Each synchronized function is one step that may take as long as it likes.
- ParallelLoop.EachIndexOnce: assumes that e plus one block per thread and one more stay below 2^64.
- DequeObject.CircularBuffer.PushBack: asks for a capacity of at most 2^62 elements, above which growing could not allocate; so does PushFront.
- circular_buffer: copy and move, iterator arithmetic and comparison, object lifetimes. emplace_back and emplace_front are push_back and push_front with the value built in place.
- MurmurHash64A: machines that store the high byte first, and keys longer than an `int` can say.
- delayed_manager and sequential_manager: their protect does nothing.
- mark_pointer: a marked pointer is a pair of an address and its mark.
- concurrent_singly_linked_list, zipf_keygen, output, debug, command_line_parser, pin_thread, allocators and the wrappers of other hash functions.
