# x-RIG kernel core in Dafny

A model of the two kernels in the x-RIG repository, with proofs about it:

- `rust_freertos`, a FreeRTOS kernel written in Rust;
- the seL4 capability, object and scheduler code it carries, in two forms: the Rust port (`CSpace.rs`, `CNode.rs`, `types.rs`, …) and the C sources under `seL4_src_C`.

Every operation is a pure function, or a method over immutable values, that returns the new kernel state. A panic, an assertion failure or a kernel exception becomes a `Failure` of the `Result` type in `wrappers.dfy`. Where the source contradicts its own intent, the model keeps both versions. The as-written member exhibits the discrepancy, and the corrected member is the one the rest of the model uses (see "## Findings").

The FreeRTOS part has these layers:

- tick arithmetic (`ticks.dfy`);
- the priority-ordered lists, with their cursor (`prio_list.dfy`);
- the task records, the kernel lists and the list primitives (`rtos_kernel.dfy`);
- the ready lists and task selection (`rtos_sched.dfy`);
- event lists and time-outs (`rtos_events.dfy`);
- mutex priority inheritance (`rtos_mutex.dfy`);
- queue storage (`queue_ring.dfy`);
- the generic queue send and receive, their interrupt forms, and queue locking (`rtos_queue.dfy`);
- semaphores, mutexes and recursive mutexes (`rtos_semaphore.dfy`);
- task creation, deletion, suspension and resumption (`rtos_tasks.dfy`);
- delays (`rtos_delay.dfy`);
- the tick interrupt and the scheduler's suspend/resume-all (`rtos_tick.dfy`).

The seL4 part has these layers:

- machine words and bit fields (`sel4_words.dfy`), and the error vocabulary (`sel4_errors.dfy`);
- capabilities (`sel4_cap.dfy`);
- the capability derivation tree, with its parent, final and revocable tests (`sel4_mdb.dfy`);
- CNode decoding and invocation (`sel4_cnode.dfy`), and CSpace lookup (`sel4_cspace.dfy`);
- untyped retype (`sel4_untyped.dfy`), the boot-time object layout (`sel4_boot.dfy`), and the carving of free memory into untyped caps at boot (`sel4_untypeds.dfy`);
- the thread-control argument checks (`sel4_tcb.dfy`);
- the scheduler state (`sel4_kstate.dfy`), the ready queues and their bitmap (`sel4_ready.dfy`), and the MCS release queue (`sel4_release.dfy`);
- `schedule`, `chooseThread`, `possibleSwitchTo` and `timerTick` (`sel4_thread.dfy`), and `suspend`/`restart` (`sel4_lifecycle.dfy`);
- endpoint and notification wait queues (`sel4_waitq.dfy`), and IPC over endpoints (`sel4_endpoint.dfy`);
- message transfer (`sel4_ipc.dfy`);
- notification binding and signal receipt (`sel4_ntfn.dfy`), and signal delivery (`sel4_signal.dfy`);
- interrupts (`sel4_interrupt.dfy`);
- MCS scheduling contexts: their objects (`sel4_schedcontext.dfy`), their invocations (`sel4_scinvoke.dfy`), scheduling control (`sel4_schedcontrol.dfy`) and sporadic refills (`sel4_sporadic.dfy`).

Source paths in the tables below are relative to the root of the x-RIG repository.

## Model

| member | source | states |
|---|---|---|
| Ticks.AddTick | rust_freertos/src/kernel.rs:659-665 | the 32-bit tick sum: the plain sum below 2^32, otherwise the sum less 2^32, which is then smaller than the first operand (the wrap the delayed lists are switched on) |
| Ticks.SubTick | rust_freertos/src/task_queue.rs:108-112 | the 32-bit tick difference: the plain difference when it is not negative, otherwise the difference plus 2^32 |
| PriorityList.Empty | rust_freertos/src/all.rs:1501-1520 | a new list is valid, holds no item, and its cursor designates no item (it rests on the end marker) |
| PriorityList.FirstAbove | rust_freertos/src/all.rs:1845-1854 | the position the insertion loop stops at: every earlier item's value is at most `v` and the item there, if any, exceeds `v` |
| PriorityList.Insert | rust_freertos/src/all.rs:1812-1868 | the list gains exactly `it` (multiset), at a position after every item of at most its value and before the first greater one; the cursor keeps designating the same item and a sorted list stays sorted |
| PriorityList.InsertIntoEmpty | rust_freertos/src/all.rs:1812-1868 | inserting into an empty list gives the one-item list `[it]` |
| PriorityList.InsertEnd | rust_freertos/src/all.rs:1870-1879 | the list gains exactly `it`, linked immediately before the item the cursor designates, and the cursor keeps designating that item |
| PriorityList.RemoveAt | rust_freertos/src/all.rs:1881-1890 | the list loses exactly the item at `i`; a cursor on another item keeps it, a cursor on the removed item moves to its predecessor (the end marker for the first item); sortedness and a head value lower bound are kept |
| PriorityList.RemoveUndoesLink | rust_freertos/src/all.rs:1812-1890 | removing the item just linked at `p` gives back the original list, cursor included |
| PriorityList.IndexOf | rust_freertos/src/all.rs:1730-1735 | finds an index whose item `owner` owns, or `None` exactly when no item of the list is owned by `owner` |
| PriorityList.HeadEntry | rust_freertos/src/all.rs:1917-1924 | `None` exactly for an empty list; otherwise the first item, the one just after the end marker, which on a sorted list has the least value of all its items |
| PriorityList.NextEntry | rust_freertos/src/all.rs:1900-1915 | the items are unchanged and, on a non-empty list, the cursor lands on a real item (never the end marker), which is returned; an empty list returns nothing |
| PriorityList.NextEntryVisitsEveryItem | rust_freertos/src/all.rs:1900-1915 | within any `|items|` consecutive calls every item of the list is returned |
| PriorityList.NextEntryVisitsOnce | rust_freertos/src/all.rs:1900-1915 | within `|items|` consecutive calls no item is returned twice |
| PriorityList.InsertEndIsVisitedLast | rust_freertos/src/all.rs:1870-1915 | an item linked by `insert_end` is returned last among the items before the walk comes back to the item the cursor designated, which gives round-robin fairness to a newly readied task |
| QueueRing.Create | rust_freertos/src/all.rs:2669-2707 | a new queue of `length` slots is well formed, has `length` slots and holds no message |
| QueueRing.Reset | rust_freertos/src/all.rs:2709-2737 | after a reset the storage is well formed and holds no message; the slot values stay |
| QueueRing.CopyIn | rust_freertos/src/all.rs:3288-3356 | send-to-back appends the message, send-to-front prepends it, overwrite of a one-slot queue leaves exactly that message; the count grows by one except for an overwrite of a non-empty queue |
| QueueRing.CopyOut | rust_freertos/src/all.rs:3277-3286 | returns the oldest message, the read index advanced to its slot |
| QueueRing.Take | rust_freertos/src/all.rs:3277-3286 | a receive returns the oldest message and leaves the rest, in order |
| QueueRing.Peek | rust_freertos/src/all.rs:3277-3286 | a peek returns the oldest message |
| QueueRing.FirstInFirstOut | rust_freertos/src/all.rs:3277-3356 | messages sent to the back of an empty queue are received in the order they were sent, leaving it empty |
| QueueRing.OverwriteBreaksLongerRing | rust_freertos/src/all.rs:3322-3347 | on a queue of two or more slots that holds a message, overwrite leaves the storage ill formed, which is why overwrite is restricted to one-slot queues |
| QueueRing.RawReset | rust_freertos/src/all.rs:2709-2737 | the reset as written clears the deque and the count, the write index at the head, the read index on the last slot |
| QueueRing.DequeInsert | rust_freertos/src/all.rs:3306-3321 | `VecDeque::insert` succeeds exactly for an index at most the length and shifts the elements from it up by one |
| QueueRing.RawCopyIn | rust_freertos/src/all.rs:3288-3356 | the copy-in as written inserts into the deque, so the deque grows by one on every successful copy |
| QueueRing.RawCopyOut | rust_freertos/src/all.rs:3277-3286 | the copy-out as written reads the deque without changing it |
| QueueRing.RawTake | rust_freertos/src/all.rs:3277-3286 | a receive as written counts one message fewer |
| QueueRing.RingReturnsOldestMessage | rust_freertos/src/all.rs:3277-3356 | on a two-slot queue: send 1, receive, send 2, send 3, receive -- the ring storage returns 2, the oldest message |
| QueueRing.RawQueueReturnsStaleMessage | rust_freertos/src/all.rs:3288-3321 | the same calls on the deque storage as written return 1, the message already received |
| RtosKernel.LinkedIffContained | rust_freertos/src/all.rs:1730-1735 | in a consistent store a task's item records the list `id` as its container exactly when `id` holds an item of that task |
| RtosKernel.Unlink | rust_freertos/src/all.rs:1470-1482 | panics (`ContainerNotSet`) exactly for an item with no container, and never otherwise in a consistent store; else the container loses exactly that item, the returned count is the items left, the item forgets its container, nothing else changes and consistency and sortedness are kept |
| RtosKernel.UnlinkFindsItem | rust_freertos/src/all.rs:1470-1482 | in a consistent store a task's recorded container holds its item exactly once |
| RtosKernel.UnlinkPreserves | rust_freertos/src/all.rs:1804-1810 | unlinking an item keeps the store consistent and leaves no item of the task in that list |
| RtosKernel.LinkPreserves | rust_freertos/src/all.rs:1750-1802 | linking an unlinked item into a list of its kind keeps the store consistent |
| RtosKernel.LinkSorted | rust_freertos/src/all.rs:1750-1756 | the list becomes `Insert` of the task's item, the item records the list as its container, nothing else changes, and consistency is kept |
| RtosKernel.LinkEnd | rust_freertos/src/all.rs:1758-1767 | the list becomes `InsertEnd` of the task's item (before the cursor), the item records the list, nothing else changes, and consistency is kept |
| RtosKernel.SetItemValue | rust_freertos/src/all.rs:1576-1578 | only the value of the one item changes: a linked item keeps its place and the list's cursor, every other item and list stays, and consistency is kept |
| RtosKernel.SetTask | rust_freertos/src/all.rs:4423-4470 | a task record may change in fields that do not link it (priority, mutex count, flags) without touching any list; consistency is kept for priorities below the maximum |
| RtosKernel.RetagPreserves | rust_freertos/src/all.rs:4423-4470 | task records may change, appear or disappear while the lists stay, as long as none of them changes how it is linked: consistency is kept |
| RtosKernel.AddTask | rust_freertos/src/task_control_cap.rs:306-403 | a new task with unlinked items joins the store and consistency is kept |
| RtosKernel.DropTask | rust_freertos/src/task_control_cap.rs:1424-1498 | an unlinked task leaves the store, every other record stays, and consistency is kept |
| Scheduler.CurrentPriority | rust_freertos/src/all.rs:5511-5515 | fails (`NoCurrentTask`) exactly when there is no current task; otherwise the current task's priority, below the maximum |
| Scheduler.UnlinkTask | rust_freertos/src/all.rs:1804-1810 | panics exactly for an item with no container; otherwise the container loses exactly that item and no longer holds the task, and the scheduler invariant is kept |
| Scheduler.AppendToReady | rust_freertos/src/task_control_cap.rs:627-648 | the task's state item is linked at the end of the ready list of its priority, the top ready priority is raised to it when lower, nothing else changes, and the invariant is kept |
| Scheduler.SuspendAll | rust_freertos/src/kernel.rs:359-366 | the suspension depth grows by one and nothing else changes |
| Scheduler.ResetNextUnblock | rust_freertos/src/kernel.rs:477-494 | the wake-up bound becomes `portMAX_DELAY` on an empty delayed list, else a wake time of the delayed list that is at most every other one; nothing else changes |
| Scheduler.HighestReadyFrom | rust_freertos/src/kernel.rs:596-603 | finds the highest priority at or below `p` with a non-empty ready list; fails (`NoReadyTask`, the assertion) exactly when all of them are empty |
| Scheduler.SelectHighest | rust_freertos/src/kernel.rs:596-614 | fails exactly when every ready list is empty; otherwise the new top priority is the highest with a ready task, not above the old top, and the current task is the next entry, round robin, of that list; only its cursor, the current task and the top priority change |
| Scheduler.SwitchContext | rust_freertos/src/kernel.rs:568-590 | with the scheduler suspended only a yield is left pending; otherwise the pending yield is cleared and `SelectHighest` chooses the task |
| Scheduler.Detach | rust_freertos/src/kernel.rs:460-464 | panics exactly when an item to unlink has no container; otherwise the state item and, when asked, the event item leave their lists, which lose one item each, and no other task or list changes |
| Scheduler.MoveOne | rust_freertos/src/kernel.rs:455-474 | the head of the pending-ready list leaves it and its state list and is readied; a yield is left pending exactly when one was or the task has at least the current task's priority; panics when the current task or a container is missing |
| Scheduler.MoveTasks | rust_freertos/src/kernel.rs:452-476 | a successful drain leaves the pending-ready list empty and reports whether it held anything |
| Scheduler.PendingListNonEmpty | rust_freertos/src/kernel.rs:454 | the pending-ready list is non-empty exactly when some task's event item waits there |
| Scheduler.MoveTasksFailure | rust_freertos/src/kernel.rs:452-476 | draining panics exactly when a pending task has no state item or there is a task to move and no current task |
| Scheduler.MoveTasksReadies | rust_freertos/src/kernel.rs:452-476 | draining readies exactly the tasks that were pending and changes no other task and no scheduler field but the top priority and the yield flag |
| Scheduler.MoveTasksYield | rust_freertos/src/kernel.rs:466-473 | after draining a yield is pending exactly when one was before or some pending task had at least the current task's priority |
| TickInterrupt.SwitchDelayedLists | rust_freertos/src/all.rs:5534-5545 | the corrected wrap-around switch: the two delayed lists trade roles, the overflow count goes up, the wake-up bound becomes the head of the new delayed list (or `portMAX_DELAY` when it is empty), and nothing else changes |
| TickInterrupt.SwitchDelayedListsAsWritten | rust_freertos/src/all.rs:5534-5545 | the macro as written: the contents of the two delayed lists are exchanged under fixed names and nothing else, neither the overflow count nor the wake-up bound, changes |
| TickInterrupt.SwitchAsWrittenMisfilesItems | rust_freertos/src/all.rs:5534-5545 | with a task waiting in the overflow list, the as-written switch breaks the invariant that each linked item lies in the list its task records |
| TickInterrupt.SwitchAsWrittenKeepsStaleBound | rust_freertos/src/kernel.rs:664-672 | with the delayed list drained and a task in the overflow list, the wake-up bound after the as-written switch lies beyond that task's wake time |
| TickInterrupt.WakeHead | rust_freertos/src/kernel.rs:706-736 | one wake-up round panics exactly when there is no current task; otherwise the head of the delayed list is readied, the list is one shorter, no other task changes, and the flag is whether its priority is at least the current task's |
| TickInterrupt.ReadyDetached | rust_freertos/src/kernel.rs:719-722 | the detached head task is appended to its ready list with the invariant kept and the delayed list one shorter |
| TickInterrupt.DelayedHead | rust_freertos/src/kernel.rs:692-697 | the head of the delayed list is a task whose state item waits there with the head's wake time |
| TickInterrupt.UnblockDue | rust_freertos/src/kernel.rs:676-738 | the wake-up loop keeps the kernel invariant, the tick and the delayed list, and never withdraws a switch already asked for |
| TickInterrupt.SettledBound | rust_freertos/src/kernel.rs:698-707 | setting the bound to the head's wake time when the head lies in the future keeps the invariant, and then no delayed task is due |
| TickInterrupt.UnblockDueSettles | rust_freertos/src/kernel.rs:676-738 | after the wake-up loop the head of the delayed list, if any, lies in the future |
| TickInterrupt.FutureHeadBoundsAll | rust_freertos/src/kernel.rs:673-675 | in an ordered delayed list whose head lies after the tick, every item does, which is why the loop may stop at the first future head |
| TickInterrupt.UnblockDueSetsBound | rust_freertos/src/kernel.rs:677-707 | the wake-up loop leaves the bound at the new head's wake time, or `portMAX_DELAY` when the delayed list is empty |
| TickInterrupt.DueIffHeadReached | rust_freertos/src/kernel.rs:673-675 | some task is due exactly when the delayed list's head has been reached |
| TickInterrupt.WakeHeadDue | rust_freertos/src/kernel.rs:711-722 | after one wake-up round the due tasks are the earlier ones less the woken head |
| TickInterrupt.UnblockDueFailure | rust_freertos/src/kernel.rs:676-738 | the wake-up loop panics exactly when some task is due while there is no current task |
| TickInterrupt.UnblockDueFailsAtHead | rust_freertos/src/kernel.rs:676-738 | the wake-up loop panics exactly when the head is due while there is no current task |
| TickInterrupt.UnblockDueReadies | rust_freertos/src/kernel.rs:676-738 | the wake-up loop readies exactly the due tasks and changes no other task |
| TickInterrupt.UnblockDueSwitch | rust_freertos/src/kernel.rs:724-736 | the loop asks for a switch exactly when one was asked for already or some due task has at least the current task's priority |
| TickInterrupt.AdvanceTick | rust_freertos/src/kernel.rs:656-670 | the tick goes up by one modulo 2^32, the task store does not change, and the delayed lists are switched exactly when it wraps to zero |
| TickInterrupt.WakeUps | rust_freertos/src/kernel.rs:673-739 | the wake-up part panics exactly when a task is due with no current task; otherwise exactly the due tasks are readied, none is left due, and the flag says whether one of them outranks or ties the current task |
| TickInterrupt.FutureAfterTick | rust_freertos/src/kernel.rs:673 | whether or not the loop runs, no delayed task is due after it |
| TickInterrupt.NoneDueBelowBound | rust_freertos/src/kernel.rs:673 | below the wake-up bound no task is due, so skipping the loop loses nothing |
| TickInterrupt.IncrementTick | rust_freertos/src/kernel.rs:646-781 | suspended: the tick is pended and the answer is the yield flag; running: panics exactly without a current task, else the tick advances with wrap, exactly the due tasks are readied, none is left due, and a switch is asked for exactly when a readied task outranks or ties the current one or its ready list holds another task |
| TickInterrupt.RunningTick | rust_freertos/src/kernel.rs:653-762 | the running-scheduler half of the tick handler with the outcome stated as above |
| TickInterrupt.TicksLaterNext | rust_freertos/src/kernel.rs:661 | counting one more tick after `n` wrapped ticks is `n + 1` wrapped ticks |
| TickInterrupt.ProcessPended | rust_freertos/src/kernel.rs:496-517 | replaying the pended ticks advances the tick by their number with wrap, clears the count, never clears a pending yield, leaves an empty pending-ready list empty, and panics only when there are ticks and no current task |
| TickInterrupt.NoPendingAfterTick | rust_freertos/src/kernel.rs:646-762 | a tick never adds to an empty pending-ready list |
| TickInterrupt.ResumeAll | rust_freertos/src/kernel.rs:384-450 | fails exactly without a suspension to undo; an inner level is only counted down; the last level with tasks drains the pending-ready list, replays all pended ticks, and answers whether a yield is pending, which it never withdraws |
| TickInterrupt.DrainPending | rust_freertos/src/kernel.rs:452-476 | the pending-ready list ends empty, exactly the pending tasks are readied, and a yield is pending exactly when one was or a drained task outranks or ties the current one; panics exactly on a pending task without state item or with tasks to move and no current task |
| TickInterrupt.ResumeScheduler | rust_freertos/src/kernel.rs:408-436 | after the last level: the pending-ready list is empty, the pended ticks are replayed and cleared, and the answer equals the yield flag; with no pended ticks only pending tasks and the bound change |
| TickInterrupt.ResumeUndoesSuspend | rust_freertos/src/kernel.rs:359-450 | resuming after a suspension of an already suspended scheduler gives back the same state with no yield |
| TaskLifecycle.ClampPriority | rust_freertos/src/task_control_cap.rs:260-273 | the stored priority is always below `configMAX_PRIORITIES` and never above the request: a valid request is kept, any larger one becomes the top priority, so clamping a clamped priority changes nothing |
| TaskLifecycle.ParkState | rust_freertos/src/task_control_cap.rs:1303-1304 | an unlinked state item is appended to a plain list, the task records it, and the invariant is kept |
| TaskLifecycle.UpdateTask | rust_freertos/src/task_control_cap.rs:611-613 | changing fields of a task that no list records keeps every list and every other task, and the invariant |
| TaskLifecycle.Requeue | rust_freertos/src/task_control_cap.rs:627-660 | remove-then-append panics exactly when the state item is not linked; otherwise only that task moves, to the end of the ready list of its priority, with the top priority raised when lower |
| TaskLifecycle.AddNewTask | rust_freertos/src/task_control_cap.rs:690-734 | the new task is counted and readied, no other task changes, it becomes current when there is none or, before the scheduler runs, when it ties or outranks the current task, and a yield is asked for exactly when a running scheduler gets a task above the current one |
| TaskLifecycle.Initialise | rust_freertos/src/task_control_cap.rs:306-403 | fails with `OutOfMemory` exactly when no stack was allocated and with the stack error when its set-up failed, creating nothing; otherwise exactly one new task exists, with base priority equal to its priority, no mutex held and state value `configMAX_PRIORITIES - priority`, on its ready list |
| TaskLifecycle.NewTaskKeepsKernelOk | rust_freertos/src/task_control_cap.rs:306-403 | registering a fresh unlinked task keeps the invariant and no other task |
| TaskLifecycle.AddNewTaskKeepsHighest | rust_freertos/src/task_control_cap.rs:700-718 | creating tasks before the scheduler starts leaves the highest-priority task created so far as the current task |
| TaskLifecycle.HighestAfterReadying | rust_freertos/src/task_control_cap.rs:700-718 | the current-task choice of creation keeps "no ready task outranks the current one" |
| TaskLifecycle.BlockCurrent | rust_freertos/src/task_control_cap.rs:1261-1369 | panics without a current task or when its state item is unlinked; else an indefinite wait parks the task on the suspended list, and a timed one files it by wake time `tick + wait` mod 2^32 on the overflow list when that wrapped and the delayed list otherwise, pulling the bound forward; the delay-aborted flag is cleared, no other task and no event list changes |
| TaskLifecycle.BlockFrame | rust_freertos/src/task_control_cap.rs:1261-1296 | the steps of blocking compose: only the current task changes, event lists are kept |
| TaskLifecycle.PlaceBlocked | rust_freertos/src/task_control_cap.rs:1298-1333 | the placement choice by wait kind and wrap, as in `BlockCurrent`, for an unlinked current task |
| TaskLifecycle.TimedBlock | rust_freertos/src/task_control_cap.rs:1306-1332 | a timed wait files the item under its wake time on the overflow list when the time wrapped, else on the delayed list with the bound pulled forward |
| TaskLifecycle.StateValueKeepsKernelOk | rust_freertos/src/task_control_cap.rs:1309-1313 | giving an unlinked state item its wake time keeps the invariant and every list |
| TaskLifecycle.InsertDelayed | rust_freertos/src/task_control_cap.rs:1315-1332 | the ordered insertion files only `u` into the chosen delayed list and lowers the bound to the wake time exactly when it is earlier and the list is the current one |
| TaskLifecycle.InsertDelayedKeepsKernelOk | rust_freertos/src/task_control_cap.rs:1315-1332 | that insertion keeps the invariant |
| TaskLifecycle.DelayedInsertKeepsShape | rust_freertos/src/task_control_cap.rs:1315-1332 | an ordered insertion into one delayed list keeps both delayed lists ordered and the wake-up bound at most every delayed wake time |
| TaskLifecycle.BlockedListMatchesWrap | rust_freertos/src/task_control_cap.rs:1309-1322 | a timed wait lands on the overflow list exactly when `tick + wait` passes 2^32, and its item value is the wrapped wake time |
| TaskLifecycle.Designated | rust_freertos/src/task_control_cap.rs:1389-1396 | a handle argument designates the given task, or the current one for `None`, failing when there is none |
| TaskLifecycle.ForgetTask | rust_freertos/src/task_control_cap.rs:1471-1481 | dropping a task that no list holds and that is not current keeps the invariant |
| TaskLifecycle.OnlyKnownTasksLinked | rust_freertos/src/task_control_cap.rs:1471-1481 | in a consistent store no list holds an unknown task |
| TaskLifecycle.Retire | rust_freertos/src/task_control_cap.rs:1451-1482 | a task deleting itself goes onto the termination list and the clean-up count rises; any other task is forgotten, held by no list, and uncounted |
| TaskLifecycle.DeleteLists | rust_freertos/src/task_control_cap.rs:1424-1485 | fails exactly when the task's state item is unlinked (`ContainerNotSet`) or there is no current task (`NoCurrentTask`); otherwise the debugger task number rises, other tasks are kept, and the task is retired as `Retire` states with its event item unlinked |
| TaskLifecycle.DeleteAsWritten | rust_freertos/src/task_control_cap.rs:1424-1498 | the deletion as written: the designated task's list work is `DeleteLists`; it fails with `NoCurrentTask` for a `None` handle and no current task, `ContainerNotSet` for an unlinked state item, `NoCurrentTask` with no current task, and `AssertionFailed` exactly when the current task deletes itself with the scheduler suspended; it never asks for a yield |
| TaskLifecycle.Delete | rust_freertos/src/task_control_cap.rs:1424-1498 | the corrected deletion: the designated task's list work is `DeleteLists`; it fails with `NoCurrentTask` for a `None` handle and no current task, `ContainerNotSet` for an unlinked state item, `NoCurrentTask` with no current task, and `AssertionFailed` exactly when the current task deletes itself under a running, suspended scheduler; it keeps the invariant and yields exactly when a running scheduler deleted the current task |
| TaskLifecycle.DeleteAsWrittenSkipsYield | rust_freertos/src/task_control_cap.rs:1490-1497 | a running task that deletes itself is not asked to yield as written, and is by the corrected deletion |
| TaskLifecycle.DeleteAsWrittenAssertsWhenStopped | rust_freertos/src/task_control_cap.rs:1490-1497 | with the scheduler stopped and suspended, deleting the current task fails the as-written assertion, and the corrected deletion succeeds |
| TaskLifecycle.DeleteListsUnlists | rust_freertos/src/task_control_cap.rs:1424-1485 | after the list work of a deletion no list but the termination list holds the task; it is on the termination list, and still has a task record, exactly when it deleted itself |
| TaskLifecycle.DeletedTaskUnlisted | rust_freertos/src/task_control_cap.rs:1424-1498 | a successful deletion, corrected or as written, leaves the designated task on no list but the termination list, and on that list exactly when it deleted itself |
| TaskLifecycle.DeleteKeepsCounted | rust_freertos/src/task_control_cap.rs:1471-1482 | deletion keeps the task count equal to the number of task records |
| TaskLifecycle.InitialiseKeepsCounted | rust_freertos/src/task_control_cap.rs:690-699 | creation keeps the task count equal to the number of task records |
| TaskLifecycle.IsSuspended | rust_freertos/src/task_control_cap.rs:1585-1613 | true exactly when the state item is on the suspended list and the event item is linked nowhere (so not on the pending-ready list either) |
| TaskLifecycle.SuspendLists | rust_freertos/src/task_control_cap.rs:1541-1553 | the unlinked task goes to the end of the suspended list, and no other task and no scheduler field but the bound changes |
| TaskLifecycle.AfterSuspend | rust_freertos/src/task_control_cap.rs:1554-1580 | tasks are not touched; a yield is asked for exactly when the current task suspended itself under a running scheduler; failure exactly when that happens with the scheduler suspended, or before the scheduler runs when another task is left and choosing it fails |
| TaskLifecycle.Suspend | rust_freertos/src/task_control_cap.rs:1520-1582 | fails when the state item is unlinked or there is no current task; otherwise the task leaves all lists for the suspended list and is suspended in the sense of `IsSuspended`, no other task changes, and the current task stays unless it suspended itself |
| TaskLifecycle.DetachSuspended | rust_freertos/src/task_control_cap.rs:1530-1541 | the detached task sits on the suspended list with no event list, nothing else changes |
| TaskLifecycle.Resume | rust_freertos/src/task_control_cap.rs:1633-1666 | fails exactly without a current task; a suspended non-current task is readied and nothing else changes, with a yield exactly when it ties or outranks the current task; any other task is left as it was |
| TaskLifecycle.SuspendThenResumeReadies | rust_freertos/src/task_control_cap.rs:1520-1666 | suspending a linked non-current task always succeeds, and resuming it then readies it |
| TaskLifecycle.BlockedIndefinitelyIsNotSuspended | rust_freertos/src/task_control_cap.rs:1599-1606 | a task blocked without timeout on an event sits in the suspended list yet does not count as suspended |
| EventLists.RankValueOrdersByPriority | rust_freertos/src/task_queue.rs:192-198 | the event item value `configMAX_PRIORITIES - p` orders tasks by priority: a value is at most another exactly when its priority is at least the other's |
| EventLists.SetEventValue | rust_freertos/src/all.rs:1576-1578 | setting an event item value changes that field of that one task only and keeps the invariant |
| EventLists.EventValueKeepsKernelOk | rust_freertos/src/all.rs:1576-1578 | event item values are not constrained by the scheduler invariant |
| EventLists.ParkEvent | rust_freertos/src/task_queue.rs:39 | an unlinked event item is appended to an event-holding list, the task records it, and nothing else changes |
| EventLists.ReleaseToReady | rust_freertos/src/task_queue.rs:35-37 | with the scheduler running the released task is readied, failing exactly when its state item is unlinked; no other task and no event list changes |
| EventLists.RequeueReleases | rust_freertos/src/task_queue.rs:35-37 | readying a task that waits on no event list changes no other task and no event list |
| EventLists.ParkReleased | rust_freertos/src/task_queue.rs:38-40 | with the scheduler suspended the released task's event item waits on the pending-ready list and nothing else changes |
| EventLists.Release | rust_freertos/src/task_queue.rs:33-40 | running: the task is readied, failing exactly when its state item is unlinked; suspended: its event item goes onto the pending-ready list; either way no other task and no event list changes |
| EventLists.RemoveFromEventList | rust_freertos/src/task_queue.rs:28-62 | on an empty list fails with `OwnerNotSet`; else the head's owner, which waits on that list, is released as `Release` states, nothing else changes, and the answer and the yield flag record exactly whether it strictly outranks the current task; panics exactly on an unlinked state item (running) or no current task |
| EventLists.RemoveFromEventListFrame | rust_freertos/src/task_queue.rs:28-40 | waking a waiter takes exactly one item off that event list and leaves every other event list as it was |
| EventLists.RequeueKeepsEventLists | rust_freertos/src/task_control_cap.rs:627-660 | readying a task never touches an event list |
| EventLists.WokenIsMostUrgent | rust_freertos/src/task_queue.rs:29 | on an ordered event list whose values are rank values, the task woken from the head has the highest priority of all its waiters |
| EventLists.DeferredReleaseReadies | rust_freertos/src/kernel.rs:452-476 | a release deferred while the scheduler is suspended ends with the task ready once the pending-ready list is drained |
| EventLists.SetTimeOutState | rust_freertos/src/task_queue.rs:77-81 | the time-out records the present overflow count and tick count |
| EventLists.ClearAbort | rust_freertos/src/task_queue.rs:108-111 | only the delay-aborted flag of the task is cleared |
| EventLists.Elapse | rust_freertos/src/task_queue.rs:117-130 | the tick test: without a wrap since entry it expires exactly when `entered + wait` has been reached; when it has not expired, a fresh time-out is taken and the remaining wait ends at the same wrapped tick as before |
| EventLists.CheckForTimeoutAsWritten | rust_freertos/src/task_queue.rs:83-135 | as written: fails exactly without a current task and otherwise always clears the abort flag |
| EventLists.CheckForTimeout | rust_freertos/src/task_queue.rs:83-135 | the corrected check fails exactly without a current task; an aborted delay expires at once and clears the flag, a `portMAX_DELAY` wait is decided without the abort, no other task changes, and an unexpired wait ends at the same wrapped tick as before |
| EventLists.CheckAsWrittenExpiresUnboundedWait | rust_freertos/src/task_queue.rs:113-121 | as written a `portMAX_DELAY` wait expires once the tick has wrapped past its entry, where the corrected check never expires it |
| EventLists.CheckAsWrittenLosesAbort | rust_freertos/src/task_queue.rs:108-126 | as written an aborted delay with time left is not reported yet its flag is cleared; the corrected check ends the wait |
| EventLists.CheckReadingsAgree | rust_freertos/src/task_queue.rs:83-135 | without an abort and with a bounded wait both readings give the same result |
| EventLists.FreshTimeOutRunning | rust_freertos/src/task_queue.rs:77-130 | a time-out taken now has not expired for any non-zero wait, and its whole wait remains |
| EventLists.PlaceOnEventList | rust_freertos/src/task_queue.rs:137-155 | fails exactly without a current task or with its state item unlinked; else its event item is inserted in value order into the event list, it blocks on the suspended list for `portMAX_DELAY` and by wake time otherwise, and no other task or event list changes |
| EventLists.LinkEvent | rust_freertos/src/all.rs:1750-1777 | the event item is inserted in value order into that list and nothing else changes |
| EventLists.PlaceThenRemoveReadies | rust_freertos/src/task_queue.rs:28-155 | waiting on an empty event list and being woken by it under a running scheduler leaves the task ready, off the event list, which is empty again, with no yield |
| EventLists.LastWaiterLeaves | rust_freertos/src/task_queue.rs:33 | once an event list's only waiter has left it, the list is empty |
| MutexInheritance.IncrementMutexHeld | rust_freertos/src/task_queue.rs:158-169 | the answer is the current task (none when there is none, leaving the kernel unchanged); its mutex count rises by one and nothing else changes |
| MutexInheritance.IncrementMutexHeldFrame | rust_freertos/src/task_queue.rs:158-169 | taking a mutex changes no list, no priority and no task's event list |
| MutexInheritance.InheritedEventValue | rust_freertos/src/task_queue.rs:192-198 | the event value becomes the waiter's rank unless the old value carries the in-use bit, which keeps it |
| MutexInheritance.PriorityInheritAsWritten | rust_freertos/src/task_queue.rs:172-225 | as written: no holder, or a holder at or above the current priority, changes nothing; a lower holder gets the waiter's rank as event value and, only when it is in its ready list, the current priority and that ready list; fails exactly without a current task |
| MutexInheritance.PriorityInherit | rust_freertos/src/task_queue.rs:172-225 | the corrected inheritance: a lower holder always takes the current task's priority and rank, moving ready lists only when ready; a holder at or above it, or none, changes nothing; no other task changes |
| MutexInheritance.RaiseReady | rust_freertos/src/task_queue.rs:204-217 | a ready task takes priority `p` and moves to the end of that ready list, nothing else changes |
| MutexInheritance.Disinherit | rust_freertos/src/task_queue.rs:228-299 | no holder: nothing changes and no yield; a holder other than the current task, or one holding no mutex, fails the assertion; otherwise the holder gives one mutex back as `GiveBack` states, failing only when it must move but its state item is unlinked |
| MutexInheritance.GiveBack | rust_freertos/src/task_queue.rs:238-294 | the count falls by one; exactly when that was the last mutex and the priority was lent, the task takes back its base priority, is re-queued on that ready list and a yield is asked for; otherwise only the count changes |
| MutexInheritance.DropToBase | rust_freertos/src/task_queue.rs:257-277 | the task leaves its state list and joins the ready list of its base priority with the given event value, failing exactly when its state item is unlinked |
| MutexInheritance.PriorityDisinheritAsWritten | rust_freertos/src/task_queue.rs:228-299 | as written, a task that gives back its last mutex returns to its base priority but is ranked on event lists by the priority it gave up |
| MutexInheritance.PriorityDisinherit | rust_freertos/src/task_queue.rs:228-299 | the corrected disinheritance: on the last mutex with a lent priority the task returns to its base priority and rank and to that ready list and a yield is asked for; otherwise only its count falls; no holder changes nothing; a non-current holder fails |
| MutexInheritance.PriorityInheritKeepsNotBelowBase | rust_freertos/src/task_queue.rs:188-218 | inheritance never leaves a task below its base priority |
| MutexInheritance.PriorityDisinheritKeepsNotBelowBase | rust_freertos/src/task_queue.rs:249-268 | disinheritance never leaves a task below its base priority |
| MutexInheritance.PriorityInheritLiftsHolder | rust_freertos/src/task_queue.rs:188-218 | after the corrected inheritance the holder runs at least at the waiter's priority and never lower than before |
| MutexInheritance.InheritAsWrittenSkipsBlockedHolder | rust_freertos/src/task_queue.rs:204-218 | a lower holder that is not in its ready list keeps its lower priority as written, and takes the waiter's under the corrected inheritance |
| MutexInheritance.DisinheritAsWrittenMisranks | rust_freertos/src/task_queue.rs:272-273 | after giving back the last mutex of an inheritance, both versions agree on the priority but only the corrected one ranks the task by it |
| MutexInheritance.TakeThenGiveBackRestores | rust_freertos/src/task_queue.rs:158-299 | taking a mutex without inheritance and giving it back restores the kernel exactly, with no yield |
| MutexInheritance.DisinheritByCurrent | rust_freertos/src/task_queue.rs:236-241 | the running holder of a mutex passes both assertions |
| MutexInheritance.GiveBackUndoesTake | rust_freertos/src/task_queue.rs:238-294 | giving back a mutex just taken without inheritance restores the prior kernel |
| Queues.CountUp | rust_freertos/src/all.rs:2988 | the lock counter stays an `i8`, and below 127 counts up by exactly one |
| Queues.KeptTransitive | rust_freertos/src/all.rs:3036-3106 | what a queue wake-up keeps composes over several wake-ups |
| Queues.UntouchedTransitive | rust_freertos/src/all.rs:3036-3106 | the frame of the replay loops composes over several wake-ups |
| Queues.OutranksKept | rust_freertos/src/task_queue.rs:42 | whether a waiter outranks the running task depends only on that list, the running task and priorities |
| Queues.AddEmptyListKeepsKernelOk | rust_freertos/src/all.rs:2733-2734 | two fresh empty waiting lists keep the scheduler invariant |
| Queues.NewQueue | rust_freertos/src/all.rs:2669-2696 | a new queue has `length` slots, no message, both counters unlocked, no holder and two empty waiting lists, and no existing list or task changes |
| Queues.Lock | rust_freertos/src/all.rs:3011-3023 | both counters end locked: an unlocked one starts at "locked, unmodified" and a counting one keeps its count; nothing else changes |
| Queues.LockIdempotent | rust_freertos/src/all.rs:3011-3023 | locking a locked queue changes nothing |
| Queues.WakeWaiter | rust_freertos/src/task_queue.rs:28-62 | one waiter leaves the list, nothing else a queue relies on changes, and the flag, which also sets the yield flag, is whether the waiter outranks the running task |
| Queues.ReplayWakeAsWritten | rust_freertos/src/all.rs:3066-3073 | as written, one replayed wake-up takes one waiter off and leaves a yield pending only when one was and the waiter did not outrank the running task |
| Queues.ReplayWake | rust_freertos/src/all.rs:3066-3073 | corrected, one replayed wake-up takes one waiter off and leaves a yield pending exactly when one was or the waiter outranks the running task |
| Queues.ReplayAsWrittenDropsYield | rust_freertos/src/task_queue.rs:64-66 | replaying the wake-up of a waiter that outranks the running task leaves no yield pending as written, and one pending when corrected |
| Queues.ReplayLoopsCount | rust_freertos/src/all.rs:3039-3102 | the two replay loops stop exactly when the counters or the waiters run out: they wake `min(tx + rx, waiters)` tasks |
| Queues.ReplayedCount | rust_freertos/src/all.rs:3039-3102 | one wake-up followed by the rest of the replay wakes the same number of tasks as the whole replay |
| Queues.ReplayOne | rust_freertos/src/all.rs:3066-3079 | one as-written replay step, with the outcome `ReplayWakeAsWritten` states |
| Queues.ReplayWakes | rust_freertos/src/all.rs:3036-3106 | the replay loops wake exactly `min(tx + rx, waiters)` receivers, never set a yield, change no other event list, and change nothing when there is nothing to replay |
| Queues.UnlockFrame | rust_freertos/src/all.rs:3081-3103 | a queue stays usable, with both counters unlocked, across the replay |
| Queues.Unlock | rust_freertos/src/all.rs:3036-3106 | both counters unlock, `min(tx + rx, waiters)` receivers are woken, no other event list changes and no yield is added; with nothing counted or no receiver, nothing but the counters changes |
| Queues.LockThenUnlockRestores | rust_freertos/src/all.rs:3011-3106 | locking an unlocked queue and unlocking it again with no interrupt in between changes nothing |
| Queues.OverwriteAdmittedAsWritten | rust_freertos/src/all.rs:2764 | as written, the entry assertion refuses exactly an overwrite of a length-1 queue |
| Queues.OverwriteAdmitted | rust_freertos/src/all.rs:2764 | corrected, the entry assertion admits an overwrite exactly on a length-1 queue |
| Queues.OverwriteAssertInverted | rust_freertos/src/all.rs:2764 | the as-written assertion refuses the length-1 overwrite and admits one on a length-2 queue, which breaks the ring; the corrected one does the opposite |
| Queues.Put | rust_freertos/src/all.rs:3288-3345 | an admitted send keeps the ring sound and stores the message at the back, at the front, or as the only message for an overwrite |
| Queues.Claim | rust_freertos/src/all.rs:3293-3302 | a mutex gets the running task as holder, whose mutex count rises; for other kinds nothing changes; no list, priority or wait changes |
| Queues.Deposit | rust_freertos/src/all.rs:3288-3345 | the message is stored where the position puts it and a mutex is claimed |
| Queues.IsrStoreAsWritten | rust_freertos/src/all.rs:2942-2945 | the storage step as written: a message is copied in exactly when the queue has room or the send overwrites, whatever the queue's length, and the storage keeps its number of slots |
| Queues.IsrOverwriteUnchecked | rust_freertos/src/all.rs:2942-2945 | an interrupt's overwrite of a queue of two or more slots holding a message is stored as written and leaves the storage ill formed, where the entry assertion of `xQueueGenericSendFromISR` refuses it |
| Queues.StoreFromIsr | rust_freertos/src/all.rs:2928-2998 | once admitted, a full queue (not overwriting) reports `QueueFull` and changes nothing; else the message is stored and, unlocked, the most urgent receiver is woken with the flag saying whether it outranks the running task, or, locked, the send counter counts up and nothing is woken |
| Queues.SendFromIsr | rust_freertos/src/all.rs:2928-2998 | an overwrite of a queue longer than one slot fails the entry assertion; every other send behaves as `StoreFromIsr` states: a full queue reports `QueueFull` and changes nothing, else the message is stored and a receiver woken at once or the wake-up counted |
| Queues.TimeOutFor | rust_freertos/src/all.rs:2858-2862 | a pass measures from the time-out an earlier pass set, or takes one now |
| Queues.LockKeepsQueueOk | rust_freertos/src/all.rs:3011-3023 | locking keeps a queue usable |
| Queues.UnlockAndResume | rust_freertos/src/all.rs:2898-2901 | with nothing counted, unlocking only unlocks the counters, and resuming takes the scheduler one level down |
| Queues.GiveUp | rust_freertos/src/all.rs:2903-2909 | a task whose time is up unlocks the queue and resumes the scheduler one level down |
| Queues.Block | rust_freertos/src/all.rs:2878-2897 | a task with time left waits on the queue's list, the queue unlocks and the scheduler resumes one level down; fails without a current task or with its state item unlinked |
| Queues.SuspendAndCheck | rust_freertos/src/all.rs:2873-2877 | the scheduler is suspended one level deeper and the wait is checked: an abort expires it, `portMAX_DELAY` never does, a fresh time-out with time left does not, and an unexpired wait keeps its end tick |
| Queues.WaitStep | rust_freertos/src/all.rs:2869-2910 | the blocking half leaves the suspension depth and the queue as they were; an aborted wait fails, an unbounded or fresh one waits with its end tick unchanged |
| Queues.WakeAny | rust_freertos/src/all.rs:3204-3217 | with no waiter nothing happens; otherwise the most urgent waiter is woken and the flag says whether it outranks the running task |
| Queues.Deliver | rust_freertos/src/all.rs:2782-2833 | the message is stored, a mutex gets the running task as holder, and the most urgent receiver, if any, is woken with the yield exactly when it outranks the running task |
| Queues.Lend | rust_freertos/src/all.rs:2835-2848 | only a held mutex lends priority, failing exactly without a current task; the current task's wait and the tick are kept |
| Queues.SendWhenFull | rust_freertos/src/all.rs:2834-2910 | after any lending, no wait fails with `QueueFull` at once; otherwise the task waits with its end tick kept, or fails once its time is up or aborted |
| Queues.SendPass | rust_freertos/src/all.rs:2754-2912 | a refused entry assertion panics; with room the message is stored, the queue ends unlocked and the most urgent receiver is woken as `Deliver` states; a full queue fails with `QueueFull` or waits, storing nothing |
| Queues.Release | rust_freertos/src/all.rs:3167-3179 | receiving from a mutex gives it back by the corrected disinheritance; other kinds give back nothing |
| Queues.Withdraw | rust_freertos/src/all.rs:3162-3199 | the oldest message is returned and removed, a mutex loses its holder, and the most urgent sender, if any, is woken with the yield exactly when it outranks the running task, else the disinheritance's flag stands |
| Queues.PeekWakeAsWritten | rust_freertos/src/all.rs:3207-3217 | as written, after a peek with no receiver waiting the wake-up panics on the empty list, and with receivers waiting nobody is woken |
| Queues.Glance | rust_freertos/src/all.rs:3200-3218 | the oldest message is returned and stays, the queue is unchanged, and a waiting receiver is woken |
| Queues.ReceivePass | rust_freertos/src/all.rs:3123-3275 | a message is returned, removed or (peeking) kept, with the wake-ups `Withdraw` and `Glance` state; an empty queue fails with `QueueEmpty` when no wait was asked for, else waits or fails, returning nothing |
| Queues.ResetQueue | rust_freertos/src/all.rs:2709-2739 | the queue empties with the same capacity, both counters unlock, a mutex loses its holder, and the most urgent sender, if any, is woken with the flag saying whether it outranks the running task |
| Queues.ResetThenSendReceive | rust_freertos/src/all.rs:2709-3275 | after a reset with nobody waiting, a message sent to the back is the next one received and the queue is empty again |
| Queues.IsrSendThenUnlock | rust_freertos/src/all.rs:2928-3106 | a send from an interrupt while the queue is locked, followed by the unlock, stores the message and wakes one receiver if there is one, as an unlocked send would, adding no yield |
| Queues.IsrSendWhileLocked | rust_freertos/src/all.rs:2942-2989 | on a locked queue the interrupt's send stores the message and counts the deferred wake-up, changing no list and no yield flag |
| Semaphores.CreateSemaphore | rust_freertos/src/all.rs:3522-3652 | a mutex, binary semaphore or recursive mutex has one slot and a counting semaphore `max`, each with nothing taken, no holder, no recursion and nobody waiting; no task changes |
| Semaphores.SemaphoreDown | rust_freertos/src/all.rs:3586-3591 | below the limit a take succeeds, counts up by one, makes a mutex held by the running task and wakes the most urgent giver; at the limit the semaphore is unchanged and the take fails with `QueueFull` without a wait, or waits |
| Semaphores.SemaphoreUp | rust_freertos/src/all.rs:3564-3571 | with something taken a give counts down by one, frees a mutex and wakes the most urgent waiting taker as the receive does; with nothing taken it fails with `QueueEmpty` and changes nothing |
| Semaphores.DownThenUp | rust_freertos/src/all.rs:3564-3591 | taking and giving back a semaphore other than a mutex with nobody waiting leaves the kernel and the count as they were |
| Semaphores.MutexTakeThenGive | rust_freertos/src/all.rs:3564-3591 | a task at its base priority that takes and gives back a free mutex with nobody waiting leaves the kernel as it was and the mutex free |
| Semaphores.CountDown | rust_freertos/src/all.rs:3396-3398 | the recursion count goes down by one, wrapping from 0 to 2^64 - 1 |
| Semaphores.GiveLevel | rust_freertos/src/all.rs:3669-3678 | the holder gives back one level; at the last level the mutex itself is given, ending free with recursion 0 |
| Semaphores.GiveRecursiveAsWritten | rust_freertos/src/all.rs:3665-3684 | as written, a give of a mutex nobody holds panics on the unwrap; another task's give fails; the holder gives back a level |
| Semaphores.GiveRecursive | rust_freertos/src/all.rs:3665-3684 | corrected, only the holder gives back a level; any other task, and a give of a free mutex, fails and changes nothing |
| Semaphores.GiveFreeRecursive | rust_freertos/src/all.rs:3668-3669 | on a recursive mutex nobody holds the as-written give panics and the corrected one fails cleanly |
| Semaphores.TakeRecursiveAsWritten | rust_freertos/src/all.rs:3698-3729 | as written, the holder counts a level and then still sends to the full mutex, so a take without a wait fails with the level counted; a first take that succeeds holds the mutex at one more level |
| Semaphores.TakeRecursive | rust_freertos/src/all.rs:3698-3729 | corrected, the holder takes another level at once and changes nothing else; another task takes it as a semaphore and, on success, holds it with one more level |
| Semaphores.RetakeRecursive | rust_freertos/src/all.rs:3706-3724 | the holder's take of a full recursive mutex without a wait fails as written but succeeds as intended, both counting the level |
| Semaphores.TakeThenGiveLevel | rust_freertos/src/all.rs:3665-3729 | the holder taking and giving back one level leaves the kernel and the mutex as they were |
| Semaphores.TakeFreeRecursive | rust_freertos/src/all.rs:3698-3729 | a first take of a free recursive mutex with nobody waiting holds it at one level and raises the task's mutex count, changing nothing else |
| Semaphores.RecursiveTakeThenGive | rust_freertos/src/all.rs:3665-3729 | a task at its base priority that takes and gives back a free recursive mutex with nobody waiting leaves the kernel as it was and the mutex free |
| Semaphores.GetMutexHolderAsWritten | rust_freertos/src/all.rs:3540-3552 | as written, the holder query panics on a free mutex, and on a held one it panics unless a task waits to receive |
| Semaphores.GetMutexHolder | rust_freertos/src/all.rs:3540-3552 | corrected, the query gives the holder of a taken mutex and `None` for a free one |
| Semaphores.HolderQueryPanics | rust_freertos/src/all.rs:3547 | with nobody waiting to receive, the as-written query panics while the corrected one gives the holder |
| Delay.TaskDelay | rust_freertos/src/all.rs:5881-5903 | a zero delay only asks for a yield; a positive one panics with the scheduler suspended, fails without a current task, and otherwise delays the running task `ticks` ticks, resumes the scheduler and asks for a yield exactly when resuming did not yield |
| Delay.DelayOutlastsResume | rust_freertos/src/all.rs:5887-5893 | resuming with no pended tick leaves the delayed task on its delayed list |
| Delay.DelayLastsItsTicks | rust_freertos/src/all.rs:5884-5893 | while the tick count does not wrap, the delayed task is due after exactly `ticks` ticks and not before; a wake time that wrapped keeps it out of this period's wake-ups |
| Delay.SuspendAndBlock | rust_freertos/src/all.rs:5887-5891 | inside the suspension the running task goes onto a delayed list, the scheduler is suspended one level and the tick is kept; without a current task it fails |
| Delay.BlockedBySuspendAll | rust_freertos/src/all.rs:5887-5891 | suspending then blocking yields the delayed state the delay promises |
| Delay.PlacedByBlockCurrent | rust_freertos/src/task_control_cap.rs:1261-1369 | blocking the current task for `ticks` places it on the delayed list due `ticks` later |
| Delay.PlacedIsBlocked | rust_freertos/src/all.rs:5887-5891 | a placement made with the scheduler suspended is the blocked state the delay promises |
| Sel4Words.NewReadsBack | rust_freertos/src/types.rs:409-421 | each field of a new message info reads back as the argument cut to its width: label 52 bits, unwrapped caps 3, extra caps 2, length 7 |
| Sel4Words.SetLengthOnlyLength | rust_freertos/src/types.rs:369-376 | setting the length stores it cut to 7 bits and keeps the other three fields |
| Sel4Words.SetExtraCapsOnlyExtraCaps | rust_freertos/src/types.rs:384-391 | setting the extra-caps count stores it cut to 2 bits and keeps the other three fields |
| Sel4Words.SetCapsUnwrappedOnlyCapsUnwrapped | rust_freertos/src/types.rs:399-406 | setting the unwrapped-caps mask stores it cut to 3 bits and keeps the other three fields |
| Sel4Words.FieldsDetermineWord | rust_freertos/src/types.rs:355-421 | two message-info words with the same four fields are equal |
| Sel4Words.NewFromFields | rust_freertos/src/types.rs:409-421 | building a message info from the four fields of another gives that one back |
| Sel4Words.FromWordClamps | rust_freertos/src/types.rs:441-448 | reading a word cuts a length above 120 down to 120 and keeps the other fields; a word whose length fits reads back unchanged |
| Sel4Words.FromWordIdempotent | rust_freertos/src/types.rs:441-453 | reading a word, writing it back and reading it again gives the first reading |
| Sel4Words.ZombieBits | rust_freertos/src/types.rs:82-88 | a zombie's radix is below 64: the TCB radix 4 for a TCB zombie and the type itself for a CNode zombie |
| Sel4Words.NewMaskAgrees | rust_freertos/src/types.rs:70-100 | for a TCB zombie or a type below 64, the mask the constructor uses is the mask the readers use |
| Sel4Words.ZombieNewReadsBack | rust_freertos/src/types.rs:70-100 | a new zombie reads back its number cut to the radix plus one bits and its pointer with those bits cleared |
| Sel4Words.SetNumberKeepsPtr | rust_freertos/src/types.rs:103-107 | setting a zombie's number keeps its type and pointer and stores the number cut to its part |
| Sel4Words.ZombieRebuild | rust_freertos/src/types.rs:70-107 | rebuilding a zombie from its own number and pointer gives it back |
| Sel4Words.TcbCtePtrInBlock | rust_freertos/src/types.rs:287-289 | for a slot index below 64 the slot address stays in the TCB's 2^11-byte block, with the slot's offset `i * 32` below the block base, whatever address in the block it started from |
| Sel4Errors.ErrorCode | rust_freertos/src/types.rs:519-531 | every error kind has a code from 1 to 10; 0 is no error and no kind |
| Capabilities.SizeBitsAsWrittenLosesUntyped | rust_freertos/src/types.rs:183-212 | as written, an untyped cap's size falls through to the architecture's reader while the corrected reader gives its block size; every other cap gets the same answer from both |
| Capabilities.UntypedSizeCounterexample | rust_freertos/src/types.rs:187 | an untyped block of 2^12 bytes: the as-written reader does not report 12 bits, the corrected one does |
| Capabilities.DeriveCap | rust_freertos/seL4_src_C/object/objecttype.c:62-102 | deriving fails with `RevokeFirst` exactly for an untyped cap whose slot has children; null, zombie, IRQ-control and reply caps derive to the null cap and every other cap to itself |
| Capabilities.DeriveIdempotent | rust_freertos/seL4_src_C/object/objecttype.c:62-102 | deriving a derived cap again gives the same cap |
| Capabilities.FinaliseShape | rust_freertos/seL4_src_C/object/objecttype.c:104-258 | finalising halts exactly for an exposed cap other than an endpoint, notification, reply, null or domain cap; the remainder is null or a zombie, only a final CNode or thread (or a zombie) leaves a zombie, and the clean-up is null or a final IRQ handler cap itself |
| Capabilities.FinaliseCNodeZombie | rust_freertos/seL4_src_C/object/objecttype.c:104-258 | a final CNode cap becomes a zombie whose pointer is the CNode's with the number bits cleared and whose number is the slot count 2^radix cut to radix plus one bits |
| Capabilities.PlainCopyRevocable | rust_freertos/src/types.rs:264-284 | a cap copied unchanged is revocable exactly when it is an untyped cap |
| Capabilities.SameObjectWithinRegion | rust_freertos/seL4_src_C/object/objecttype.c:274-390 | the same object implies the same region, and the two differ only for untyped caps and for IRQ control against an IRQ handler |
| Capabilities.IrqControlAsymmetric | rust_freertos/seL4_src_C/object/objecttype.c:274-390 | IRQ control covers every IRQ handler's region, no IRQ handler covers IRQ control, and they are never the same object |
| Capabilities.SameRegionReflexive | rust_freertos/seL4_src_C/object/objecttype.c:274-375 | every cap covers its own region except null and zombie caps and an untyped cap whose range wraps past the top of the address space |
| Capabilities.UpdateEndpointKeeps | rust_freertos/seL4_src_C/object/objecttype.c:392-436 | updating an endpoint cap's data gives the null cap or a cap to the same endpoint |
| Capabilities.UpdateNotificationKeeps | rust_freertos/seL4_src_C/object/objecttype.c:392-436 | updating a notification cap's data gives the null cap or a cap to the same notification |
| Capabilities.UpdateOthersUnchanged | rust_freertos/seL4_src_C/object/objecttype.c:392-436 | caps other than endpoint, notification and CNode caps come back unchanged from an update |
| Capabilities.UpdateCNodeKeeps | rust_freertos/seL4_src_C/object/objecttype.c:392-436 | updating a CNode cap gives the null cap or a cap to the same CNode with the same radix and size |
| Capabilities.UpdateGuardFits | rust_freertos/seL4_src_C/object/objecttype.c:413-431 | a CNode cap that survives an update has a guard that fits its guard size, which is the size the data asks for |
| Capabilities.BadgeSetOnce | rust_freertos/seL4_src_C/object/objecttype.c:399-411 | badging an unbadged endpoint or notification cap sets the badge, and badging a badged one gives the null cap |
| Capabilities.MaskNeverAddsRights | rust_freertos/seL4_src_C/object/objecttype.c:438-503 | masking never adds a right and changes nothing but rights |
| Capabilities.MaskIdempotent | rust_freertos/seL4_src_C/object/objecttype.c:438-503 | masking twice with the same mask is masking once |
| Capabilities.MaskComposes | rust_freertos/seL4_src_C/object/objecttype.c:438-503 | masking with two masks in turn is masking with the rights both allow |
| Capabilities.MaskAllIdentity | rust_freertos/seL4_src_C/object/objecttype.c:438-503 | the mask with every right changes nothing |
| Capabilities.MaskedCancelSendRights | rust_freertos/seL4_src_C/object/objecttype.c:260-272 | a masked cap can cancel sends exactly when the original could and the mask allowed all four rights |
| Capabilities.CreatedCapCoversObject | rust_freertos/seL4_src_C/object/objecttype.c:505-582 | a created cap names exactly the new object: its pointer is the region base and its size is the object size of the type |
| Capabilities.CreatedEndpointFull | rust_freertos/seL4_src_C/object/objecttype.c:505-582 | a new endpoint cap can cancel sends, and a badged copy of it is revocable |
| CNodeDecode.CapTable | rust_freertos/src/CSpace.rs:180-238 | the slot table address resolution reads holds, at every word address, the cap of the capability table at that slot |
| CNodeDecode.TransferCap | rust_freertos/src/CNode.rs:112-157 | the label's own checks: a successful transfer moves exactly for move and mutate, and every failure is a syscall error |
| CNodeDecode.DecodeTransfer | rust_freertos/src/CNode.rs:80-175 | a decoded copy or mint is an insertion and a move or mutate is a move, into the addressed destination, and the slot table admits it |
| CNodeDecode.RotateChecks | rust_freertos/seL4_src_C/object/cnode.c:232-310 | a rotation that passes the checks moves the source to the pivot and the pivot to the destination, with slots and caps the slot table admits |
| CNodeDecode.DecodeRotate | rust_freertos/seL4_src_C/object/cnode.c:232-310 | a decoded rotation ends at the addressed destination with slots and caps the slot table admits |
| CNodeDecode.RotatePivotRootBlamesSource | rust_freertos/seL4_src_C/kernel/cspace.c:134-137 | once the source slot is found, a pivot root that is not a CNode fails the rotation as a failed lookup on the source side, `FailedLookup(true, InvalidRoot)`, since the pivot is looked up as a source |
| CNodeDecode.RotateBlamesPivotOnlyWhenEmpty | rust_freertos/seL4_src_C/object/cnode.c:253-289 | every failed lookup of a rotation is reported on the source side except an empty pivot slot, which is reported on the other side with the pivot depth as the missing-capability depth |
| CNodeDecode.RotateChecksDiffer | rust_freertos/src/CNode.rs:248-252 | once the slots are found, the two rotation checks differ only in an empty pivot, which the kernel blames on the pivot and the Rust code on the source |
| CNodeDecode.RotateAsWrittenBlamesSource | rust_freertos/src/CNode.rs:248-252 | the as-written decoder differs from the kernel's only in reporting an empty pivot as a failed lookup of the source |
| CNodeDecode.EmptyPivotReportedDifferently | rust_freertos/src/CNode.rs:248-252 | rotating a thread cap through an empty pivot slot: the two decoders report different slots |
| CNodeDecode.DecodeForSlot | rust_freertos/src/CNode.rs:80-269 | once the target slot is found, copy and mint decode to insertions, move and mutate to moves, rotate to a rotation, each admissible |
| CNodeDecode.DecodeCNodeInvocation | rust_freertos/src/CNode.rs:51-272 | a label outside the CNode range is an illegal operation and a message under two words is truncated, before any lookup; success needs the target slot to resolve with no bits left |
| CNodeDecode.DecodedIsAdmissible | rust_freertos/src/CNode.rs:51-272 | every decoded invocation is admitted by the slot table it was decoded against and matches its label |
| CNodeDecode.AdmissibleInsertKeepsLinked | rust_freertos/seL4_src_C/object/cnode.c:336-341 | a decoded copy or mint keeps the mapping database well formed and puts the new cap in the destination |
| CNodeDecode.AdmissibleMoveKeepsLinked | rust_freertos/seL4_src_C/object/cnode.c:343-348 | a decoded move or mutate keeps the mapping database well formed, puts the new cap in the destination and empties the source |
| CNodeDecode.AdmissibleRotateKeepsLinked | rust_freertos/seL4_src_C/object/cnode.c:350-361 | a decoded rotation keeps the mapping database well formed and puts the updated caps where the rotation sends them |
| CNodeDecode.OccupiedDestinationFirst | rust_freertos/src/CNode.rs:80-96 | a copy, mint, move or mutate into an occupied slot fails with `DeleteFirst` whatever the source words say |
| CSpace.LevelStepAsWritten | rust_freertos/src/CSpace.rs:180-238 | one level as written: it descends only with bits still left, resolves a slot exactly when guard plus radix uses all the bits, and otherwise faults on the guard or the depth |
| CSpace.IndexLevel | rust_freertos/seL4_src_C/kernel/cspace.c:174-206 | once the guard matches and the level fits, it either descends with fewer bits left or resolves a slot using all of them |
| CSpace.LevelStep | rust_freertos/seL4_src_C/kernel/cspace.c:139-209 | with the C assertion every descent uses at least one bit, and the kernel halts exactly on a level of zero bits |
| CSpace.ResolveFromOutcome | rust_freertos/seL4_src_C/kernel/cspace.c:139-209 | a resolved slot used at least one bit, and either all of them or it stopped at a slot holding no CNode; a failure is a guard or depth fault or the halt |
| CSpace.ResolveRoot | rust_freertos/seL4_src_C/kernel/cspace.c:139-153 | a walk fails with the invalid-root fault exactly when its root is not a CNode cap |
| CSpace.AddressResolvesToSlot | rust_freertos/seL4_src_C/kernel/cspace.c:139-209 | an address made of a CNode's guard followed by a slot index, resolved with guard-plus-radix bits, comes back as that slot with no bits left |
| CSpace.ZeroLevelLoopsForever | rust_freertos/src/CSpace.rs:180-238 | without the assertion, a CNode of radix and guard size 0 holding itself in slot 0 makes the as-written step re-enter the same state, where the kernel halts |
| CSpace.LookupSlotForCNodeOp | rust_freertos/seL4_src_C/kernel/cspace.c:78-122 | a CNode operation finds a slot exactly when the root is a CNode cap, the depth is from 1 to 64 and the address resolves with no bits left; a bad root and a bad depth give their own errors, and every failed lookup is reported on the side the caller names |
| CSpace.CNodeOpFindsAddressedSlot | rust_freertos/seL4_src_C/kernel/cspace.c:78-122 | an address of one level's guard and an index, at that level's depth, finds that slot |
| CSpace.LookupSlot | rust_freertos/seL4_src_C/kernel/cspace.c:64-76 | a full-word lookup from the thread's root succeeds exactly when resolution does and returns the slot it reached, bits left over or not |
| CSpace.LookupCap | rust_freertos/seL4_src_C/kernel/cspace.c:28-43 | a cap lookup gives the cap in the slot found, or the null cap with the lookup's failure |
| CSpace.NoRootNoLookup | rust_freertos/seL4_src_C/kernel/cspace.c:28-43 | a thread whose root slot holds no CNode cap cannot look anything up |
| Mdb.SetUntypedCapAsFull | rust_freertos/seL4_src_C/object/cnode.c:397-409 | marking a source full never turns a cap null or null into a cap, and changes nothing but an untyped source |
| Mdb.CteInsert | rust_freertos/seL4_src_C/object/cnode.c:411-444 | an insertion trips the kernel's assertion exactly when the destination is not empty and unlinked, and keeps the set of slots |
| Mdb.InsertSlots | rust_freertos/seL4_src_C/object/cnode.c:411-444 | slot by slot: the source points on to the destination and may be marked full, the destination holds the new cap between the source and its old successor with the revocable flags `isCapRevocable` gives, the successor points back to the destination, nothing else changes |
| Mdb.InsertKeepsLinked | rust_freertos/seL4_src_C/object/cnode.c:411-444 | inserting a non-null copy into an empty slot keeps the list well formed and splices the new slot in after the source, changing no other cap |
| Mdb.InsertNewCap | rust_freertos/seL4_src_C/object/cnode.c:746-757 | inserting a created cap keeps the set of slots |
| Mdb.InsertNewCapKeepsLinked | rust_freertos/seL4_src_C/object/cnode.c:746-757 | a new cap in an empty slot ends up linked right after its parent, revocable and starting a badge group, and the list stays well formed |
| Mdb.MoveSlots | rust_freertos/seL4_src_C/object/cnode.c:446-474 | slot by slot: the destination takes the new cap and the source's links, the source is left null and unlinked, and the two neighbours point to the destination |
| Mdb.CteMove | rust_freertos/seL4_src_C/object/cnode.c:446-474 | a move trips the kernel's assertion exactly when the destination is not empty and unlinked, and keeps the set of slots |
| Mdb.MoveKeepsLinked | rust_freertos/seL4_src_C/object/cnode.c:446-474 | a move into an empty slot exchanges the two slots' places, with the moved cap at the destination and a null source; the list stays well formed and no other cap changes |
| Mdb.CteSwap | rust_freertos/seL4_src_C/object/cnode.c:490-527 | a swap keeps the set of slots |
| Mdb.SwapAt | rust_freertos/seL4_src_C/object/cnode.c:490-527 | what a swap leaves at each slot is that slot's exchanged links and cap |
| Mdb.SwapKeepsLinked | rust_freertos/seL4_src_C/object/cnode.c:490-527 | swapping two non-null caps exchanges the slots' places in the list, keeps it well formed and changes no other cap |
| Mdb.EmptySlot | rust_freertos/seL4_src_C/object/cnode.c:568-593 | emptying a slot keeps the set of slots |
| Mdb.EmptySlotSlots | rust_freertos/seL4_src_C/object/cnode.c:568-593 | slot by slot: the slot is left null and unlinked, its neighbours point to each other and the successor inherits the first-badged flag |
| Mdb.EmptySlotKeepsLinked | rust_freertos/seL4_src_C/object/cnode.c:568-593 | emptying a slot that holds a cap takes it out of the list, keeps the list well formed and changes no other cap |
| Mdb.EmptySlotIdempotent | rust_freertos/seL4_src_C/object/cnode.c:568-593 | emptying a null slot changes nothing, and emptying twice is emptying once |
| Mdb.CapSwapForDelete | rust_freertos/seL4_src_C/object/cnode.c:476-488 | swapping for deletion keeps the set of slots |
| Mdb.SwapForDeleteExchanges | rust_freertos/seL4_src_C/object/cnode.c:476-488 | two slots holding caps trade caps and places, the list stays well formed, and a slot swapped with itself is left alone |
| Mdb.InvokeCNodeRotate | rust_freertos/seL4_src_C/object/cnode.c:350-361 | a rotation keeps the set of slots |
| Mdb.RotateKeepsLinked | rust_freertos/seL4_src_C/object/cnode.c:350-361 | a rotation of non-null caps puts `cap1` in the pivot and `cap2` in the destination, empties a source that is not the destination, keeps the list well formed and changes no other cap |
| Mdb.ParentOfCharacterised | rust_freertos/seL4_src_C/object/cnode.c:777-815 | a parent is revocable and covers the child's region; a badged parent needs the same badge on a child that does not start a badge group, and an unbadged one needs nothing more |
| Mdb.ParentAsWrittenIgnoresChildBadge | rust_freertos/src/CNode.rs:627-651 | an endpoint cap with another badge, in a slot that starts no badge group, counts as a child of a badged endpoint as written, and not in the kernel's test |
| Mdb.ParentAsWrittenDiffersOnlyOnBadges | rust_freertos/src/CNode.rs:627-651 | the as-written and kernel parent tests differ only on endpoint caps whose badges differ |
| Mdb.LoneCapIsFinal | rust_freertos/seL4_src_C/object/cnode.c:842-870 | a cap with no list neighbours is the final cap to its object |
| Mdb.CopySlots | rust_freertos/seL4_src_C/object/cnode.c:411-444 | copying a slot's own cap leaves the source pointing on to the copy and the copy, not revocable, between the source and its old successor |
| Mdb.CopiedCapNotFinal | rust_freertos/seL4_src_C/object/cnode.c:842-870 | after a cap is copied, neither the original nor the copy is the final cap to the object |
| Mdb.FinalAsWrittenAfterCopy | rust_freertos/src/CNode.rs:675-693 | the as-written test, which lost the negation on the next slot, calls the original final right after a copy, where the kernel's test does not |
| Mdb.EnsureEmptySlot | rust_freertos/seL4_src_C/object/cnode.c:832-840 | the only failure is `DeleteFirst` |
| Mdb.EnsureEmptySlotAdmits | rust_freertos/seL4_src_C/object/cnode.c:832-840 | in a well-formed list a slot passes exactly when it is empty and unlinked, and an emptied slot passes |
| Mdb.EnsureNoChildren | rust_freertos/seL4_src_C/object/cnode.c:817-830 | the only failure is `RevokeFirst` |
| Mdb.LastSlotHasNoChildren | rust_freertos/seL4_src_C/object/cnode.c:817-830 | a slot without a successor has no children |
| Mdb.CopyOfRevocableIsChild | rust_freertos/seL4_src_C/object/cnode.c:817-830 | a copy of a revocable cap is its child, so the original must then be revoked first |
| ThreadLifecycle.Suspend | rust_freertos/seL4_src_C/kernel/thread.c:74-91 | the thread becomes inactive and leaves the ready queues, no other thread's state changes, and every other thread stays as visible to the scheduler as it was |
| ThreadLifecycle.Restart | rust_freertos/seL4_src_C/kernel/thread.c:93-110 | a stopped thread is set to restart and becomes visible to the scheduler, no thread becomes invisible, and a thread that is not stopped is left alone |
| ThreadLifecycle.SuspendKeepsIpcOk | rust_freertos/seL4_src_C/kernel/thread.c:74-91 | suspending keeps the IPC invariant |
| ThreadLifecycle.RestartKeepsIpcOk | rust_freertos/seL4_src_C/kernel/thread.c:93-110 | restarting keeps the IPC invariant |
| ThreadLifecycle.SuspendedWaitsNowhere | rust_freertos/seL4_src_C/kernel/thread.c:74-91 | a suspended thread waits in no endpoint or notification queue |
| ThreadLifecycle.SuspendIdempotent | rust_freertos/seL4_src_C/kernel/thread.c:74-91 | suspending a suspended thread changes nothing |
| ThreadLifecycle.SuspendInactive | rust_freertos/seL4_src_C/kernel/thread.c:74-91 | suspending an inactive, unqueued thread the scheduler will not resume changes nothing |
| ThreadLifecycle.ResumeAfterSuspend | rust_freertos/seL4_src_C/kernel/thread.c:74-110 | a suspended thread that is restarted is set to restart and visible to the scheduler, with the IPC invariant kept and no endpoint or notification changed on the way back |
| Untyped.AlignUp | rust_freertos/seL4_src_C/object/untyped.c:21-24 | the result is a multiple of 2^a within a word, and without wrap-around lies at or above `v` and less than 2^a above it |
| Untyped.AlignUpLeast | rust_freertos/seL4_src_C/object/untyped.c:21-24 | without wrap-around, `alignUp` gives the least multiple of 2^a at or above `v` |
| Untyped.AlignUpAligned | rust_freertos/seL4_src_C/object/untyped.c:21-24 | an aligned address stays where it is |
| Untyped.CheckObject | rust_freertos/seL4_src_C/object/untyped.c:69-103 | the type and size pass exactly when the type number names a type, the size is below 64 with the object at most `seL4_MaxUntypedBits`, a CNode has a size and an untyped is at least `seL4_MinUntypedBits`; a bad type number is `InvalidArgument(0)` |
| Untyped.DestinationNode | rust_freertos/seL4_src_C/object/untyped.c:115-134 | the destination is always a CNode cap, and at depth 0 it is the first extra cap itself |
| Untyped.NodeSize | rust_freertos/seL4_src_C/object/untyped.c:137-143 | a CNode has at least one slot |
| Untyped.CheckWindow | rust_freertos/seL4_src_C/object/untyped.c:137-173 | the window passes exactly when it holds 1 to `CONFIG_RETYPE_FAN_OUT_LIMIT` slots inside the node, all empty; an occupied slot in an otherwise good window is `DeleteFirst` |
| Untyped.Allocate | rust_freertos/seL4_src_C/object/untyped.c:187-230 | memory passes exactly when the free space, counted in objects, holds the window and a device untyped asks only for frames or untypeds; too little is `NotEnoughMemory(free)`; the first object is the aligned free reference |
| Untyped.DecodeUntyped | rust_freertos/seL4_src_C/object/untyped.c:26-237 | a label other than retype is an illegal operation, a short message or no extra cap is truncated, and every decoded retype is admitted by all the checks |
| Untyped.AdmittedRetype | rust_freertos/seL4_src_C/object/untyped.c:26-237 | an admitted retype has a window of 1 to the fan-out limit of empty slots inside the node, objects of at most `seL4_MaxUntypedBits` whose number fits the free space, device memory only for frames and untypeds, and an aligned first object |
| Untyped.NotEnoughMemoryExactly | rust_freertos/seL4_src_C/object/untyped.c:187-214 | a request that passed the earlier checks fails with `NotEnoughMemory` exactly when the free space holds fewer objects than the window, and otherwise succeeds unless device memory is asked for another type |
| Untyped.RetypedUntyped | rust_freertos/seL4_src_C/object/untyped.c:277-311 | the retyped untyped keeps its block, with the free index moved past the new objects |
| Untyped.FreeBytesExact | rust_freertos/seL4_src_C/object/untyped.c:187-206 | the free space of a valid untyped is its size less the used offset, with no wrap-around |
| Untyped.AllocationFits | rust_freertos/seL4_src_C/object/untyped.c:187-230 | an admitted allocation's first object is aligned to its size at or above the used part, and all the objects end within the block |
| Untyped.AllocationAdvances | rust_freertos/seL4_src_C/object/untyped.c:277-311 | after an admitted allocation the untyped stays valid and its free index covers the new objects, never moving back without a reset, and exactly at their end for objects of at least 16 bytes |
| Untyped.RetypeFitsInUntyped | rust_freertos/seL4_src_C/object/untyped.c:26-237 | whatever a decode admits fits in the untyped it is carved from |
| Untyped.RetypeKeepsUntypedValid | rust_freertos/seL4_src_C/object/untyped.c:277-311 | decoding then invoking a retype keeps the untyped valid, moves the free index back only on a reset, and leaves it at the end of the new objects |
| Boot.MergeRegionsFacts | rust_freertos/seL4_src_C/kernel/boot.c:26-44 | after merging no two neighbours touch; a well-formed list covers exactly the points it did, and a well-formed, non-empty or ascending list stays so |
| Boot.MergeFromFacts | rust_freertos/seL4_src_C/kernel/boot.c:26-44 | merging from any index neither adds nor removes a covered point and keeps the list's shape |
| Boot.ReserveFromCovers | rust_freertos/seL4_src_C/kernel/boot.c:46-95 | on success the reserved list covers exactly the old points and those of the region |
| Boot.ReserveFromAscending | rust_freertos/seL4_src_C/kernel/boot.c:46-95 | a region apart from an ascending list of non-empty regions keeps it ascending |
| Boot.ReserveFromCapacity | rust_freertos/seL4_src_C/kernel/boot.c:46-95 | the list grows by at most one region and stays below capacity |
| Boot.ReserveFrom | rust_freertos/seL4_src_C/kernel/boot.c:46-95 | a refusal leaves the list as it was and happens only one short of capacity |
| Boot.ReserveRegionFacts | rust_freertos/seL4_src_C/kernel/boot.c:46-95 | an empty region changes nothing; a refusal leaves the list as it was; success covers exactly the old points and the region; capacity and ascending order are kept |
| Boot.FirstEmptySlot | rust_freertos/seL4_src_C/kernel/boot.c:97-126 | the slot found is empty, and no empty slot comes before it |
| Boot.InsertRegionFacts | rust_freertos/seL4_src_C/kernel/boot.c:97-126 | inserting succeeds exactly when the region is empty or a slot is free; a non-empty region sits in the first empty slot, other slots are kept, and the reserved list gains exactly the region's physical points |
| Boot.AllocStep | rust_freertos/seL4_src_C/kernel/boot.c:128-138 | one allocation from aligned memory with room hands out its start and leaves the rest aligned |
| Boot.SmallObjectsFit | rust_freertos/seL4_src_C/kernel/boot.c:195-219 | the small objects are all placed, each aligned, and the final assertion holds exactly when they use up the memory |
| Boot.SmallObjectsAt | rust_freertos/seL4_src_C/kernel/boot.c:195-219 | the ASID pool, IPC buffer, boot info, paging tables, TCB and scheduling context follow one another from the start of the remaining memory |
| Boot.LargeNoExtra | rust_freertos/seL4_src_C/kernel/boot.c:170-194 | an extra boot information below page size is not placed; the CNode and VSpace are |
| Boot.CreateThenSmall | rust_freertos/seL4_src_C/kernel/boot.c:170-220 | once the large objects are placed, creation goes on to the small ones |
| Boot.StagesFit | rust_freertos/seL4_src_C/kernel/boot.c:147-220 | large objects laid out in memory of exactly the right size leave room to finish the layout |
| Boot.RootserverFromLarge | rust_freertos/seL4_src_C/kernel/boot.c:147-220 | large objects laid out in the memory the size calculation reserved complete the whole layout |
| Boot.RootserverObjectsFit | rust_freertos/seL4_src_C/kernel/boot.c:140-220 | from a start aligned to the largest object, with extra boot information of a page or more or none, every object is placed aligned and the memory is used up, so the assertions hold |
| Boot.SubPageExtraHalts | rust_freertos/seL4_src_C/kernel/boot.c:170-220 | extra boot information below a page is never placed, so the final assertion fails; `calculate_extra_bi_size_bits` never asks for one |
| Boot.SubPageLeftover | rust_freertos/seL4_src_C/kernel/boot.c:170-220 | memory sized for an extra boot information that was not placed is not used up |
| KernelState.NotBlockedInNoQueue | rust_freertos/seL4_src_C/object/endpoint.c:17-462 | a thread that is not blocked on an endpoint or notification waits in no queue |
| KernelState.Enqueue | rust_freertos/seL4_object/tcb.c:82-114 | the thread joins the head of the queue of its own domain and priority, or stays put if already queued; the invariant holds and nothing but the ready queues changes |
| KernelState.Append | rust_freertos/seL4_object/tcb.c:117-149 | the thread joins the end of the queue of its own domain and priority, or stays put if already queued; the invariant holds and nothing but the ready queues changes |
| KernelState.Dequeue | rust_freertos/seL4_object/tcb.c:152-184 | the thread leaves the ready queues and no other thread does; an unqueued thread changes nothing |
| KernelState.WithState | rust_freertos/seL4_src_C/kernel/thread.c:580-584 | only the thread's state changes; every thread keeps its domain, priority and bound notification |
| KernelState.SetState | rust_freertos/seL4_src_C/kernel/thread.c:580-584 | the thread's state is set and nothing else changes; a thread waiting in no queue may take any state that needs none without breaking the IPC invariant |
| KernelState.StateOfUnqueuedThread | rust_freertos/seL4_src_C/kernel/thread.c:580-584 | changing the state of a thread in no queue to a state that needs none keeps every queue consistent |
| KernelState.SameStatesKeepIpcOk | rust_freertos/seL4_src_C/object/endpoint.c:17-462 | changes that keep every thread's state and binding, with the objects untouched, keep every queue consistent |
| KernelState.SetBadgeReg | rust_freertos/src/regs.rs:6-8 | the badge register of the thread is set and nothing else changes |
| TcbDecode.CheckPrio | rust_freertos/seL4_object/tcb.c:32-50 | a priority passes exactly when it is at most the maximum controlled priority, and otherwise the range error names that maximum |
| TcbDecode.CheckPrioDownwardClosed | rust_freertos/seL4_object/tcb.c:32-50 | every priority below an admitted one is admitted, and so is the maximum itself |
| TcbDecode.DecodeReadRegisters | rust_freertos/seL4_object/tcb.c:936-979 | a read succeeds exactly with two words, a count from 1 to the number of registers and a target other than the caller; each failure has its error |
| TcbDecode.DecodeWriteRegisters | rust_freertos/seL4_object/tcb.c:985-1020 | a write succeeds exactly when the message holds the header and the values and the target is not the caller; a short message is truncated and the caller itself is an illegal operation |
| TcbDecode.WriteStaysInMessage | rust_freertos/seL4_object/tcb.c:985-1020 | the values a write carries all lie inside the message |
| TcbDecode.BpNum | rust_freertos/seL4_object/tcb.c:572-687 | the breakpoint number is the message word cut to 16 bits |
| TcbDecode.AlignedIsMultiple | rust_freertos/seL4_object/tcb.c:655-665 | the mask test the decode applies is divisibility by the size, for each size it admits |
| TcbDecode.SetBreakpointAcceptsExactly | rust_freertos/seL4_object/tcb.c:572-687 | a breakpoint is programmed exactly when the request is acceptable and the architecture agrees, and then with the requested parameters |
| TcbDecode.UnalignedWatchpointRejected | rust_freertos/seL4_object/tcb.c:655-665 | a watchpoint at an address that is not a multiple of its size gets `AlignmentError` once every earlier check passes |
| TcbDecode.X86InstructionNumbersFree | rust_freertos/seL4_object/tcb.c:572-687 | with x86's numbering every instruction breakpoint number passes the numbering check |
| ReadyQueues.Unlink | rust_freertos/seL4_object/tcb.c:240-255 | a queue with the thread cut out keeps every other thread and its order, loses exactly one entry when it held the thread, and is unchanged otherwise |
| ReadyQueues.SameBitSamePrio | rust_freertos/seL4_object/tcb.c:52-66 | the level-1 index and the level-2 bit determine the priority |
| ReadyQueues.AddToBitmap | rust_freertos/seL4_object/tcb.c:52-66 | exactly the bit of `(d, p)` is added, at level 2 and at level 1 |
| ReadyQueues.RemoveFromBitmap | rust_freertos/seL4_object/tcb.c:68-79 | exactly the bit of `(d, p)` is cleared, and the level-1 bit goes only when its level-2 word becomes zero |
| ReadyQueues.RemoveUndoesAdd | rust_freertos/seL4_object/tcb.c:52-79 | clearing a bit just set in a consistent bitmap restores it |
| ReadyQueues.SchedEnqueue | rust_freertos/seL4_object/tcb.c:82-114 | an unqueued thread goes to the head of its queue and is marked queued, no other queue changes, a queued thread is left alone, and the bitmap stays consistent |
| ReadyQueues.SchedAppend | rust_freertos/seL4_object/tcb.c:117-149 | an unqueued thread goes to the end of its queue and is marked queued, no other queue changes, a queued thread is left alone, and the bitmap stays consistent |
| ReadyQueues.SchedDequeue | rust_freertos/seL4_object/tcb.c:152-184 | a queued thread is unlinked from its queue and unmarked, no other queue changes, an unqueued one is left alone, and the bitmap stays consistent |
| ReadyQueues.DequeueUndoesEnqueue | rust_freertos/seL4_object/tcb.c:82-184 | dequeuing a thread just enqueued restores the ready queues |
| ReadyQueues.DequeueUndoesAppend | rust_freertos/seL4_object/tcb.c:117-184 | dequeuing a thread just appended restores the ready queues |
| ReadyQueues.UnlinkAdded | rust_freertos/seL4_object/tcb.c:82-184 | unlinking a thread from either end of a queue it was added to gives the queue back |
| ReadyQueues.EpAppend | rust_freertos/seL4_object/tcb.c:224-236 | the thread joins the end of the endpoint queue, which keeps its earlier order |
| ReadyQueues.EpDequeue | rust_freertos/seL4_object/tcb.c:240-255 | the thread leaves the endpoint queue and no other thread does |
| ReadyQueues.EpDequeueHead | rust_freertos/seL4_object/tcb.c:240-255 | dequeuing the head makes the next thread the head |
| ReadyQueues.EpDequeueEnd | rust_freertos/seL4_object/tcb.c:240-255 | dequeuing the end makes the previous thread the end |
| ReadyQueues.EpDequeueUndoesAppend | rust_freertos/seL4_object/tcb.c:224-255 | a thread appended and then dequeued leaves the queue as it was |
| ReadyQueues.Msb | rust_freertos/seL4_src_C/kernel/thread.c:441-466 | the highest set bit at or below `top`, or -1 when there is none |
| ReadyQueues.HighestPrioIsHighest | rust_freertos/seL4_src_C/kernel/thread.c:441-466 | the bitmap finds a non-empty queue of the domain with every higher queue empty |
| ReadyQueues.EmptyL1MeansNoneReady | rust_freertos/seL4_src_C/kernel/thread.c:441-466 | an empty level-1 word means every queue of the domain is empty, and back |
| ReleaseQueue.Place | rust_freertos/seL4_object/tcb.c:280-311 | placing adds exactly the new entry to the queue |
| ReleaseQueue.PlaceIndex | rust_freertos/seL4_object/tcb.c:288-293 | the new entry goes after every entry due no later and before the first one due later |
| ReleaseQueue.ReleaseEnqueue | rust_freertos/seL4_object/tcb.c:280-311 | the walk links the thread in where `Place` puts it, and reprogramming is asked for exactly when it became the head |
| ReleaseQueue.PlaceKeepsSorted | rust_freertos/seL4_object/tcb.c:280-311 | placing keeps the queue sorted by release time |
| ReleaseQueue.PlaceKeepsDistinct | rust_freertos/seL4_object/tcb.c:280-311 | placing a thread not yet queued keeps every thread queued once |
| ReleaseQueue.PlaceAfterEqualTimes | rust_freertos/seL4_object/tcb.c:288-293 | the new entry follows every entry due at the same time |
| Sel4Scheduler.RescheduleRequired | rust_freertos/seL4_src_C/kernel/thread.c:690-705 | a pending candidate is put back in the ready queues so that no thread the scheduler could pick is lost, and the action becomes "choose new thread"; with no candidate the ready queues are untouched |
| Sel4Scheduler.ScheduleTcb | rust_freertos/seL4_src_C/kernel/thread.c:586-593 | afterwards the scheduler never resumes a current thread that cannot run; when nothing forces a change the state is unchanged, and the set of threads the scheduler considers is the same |
| Sel4Scheduler.SetThreadState | rust_freertos/seL4_src_C/kernel/thread.c:580-584 | only the thread's state changes, plus the rescheduling that keeps a non-runnable current thread from being resumed; a thread leaving every queue for a non-queued state keeps the endpoint and notification queues consistent |
| Sel4Scheduler.PossibleSwitchTo | rust_freertos/seL4_src_C/kernel/thread.c:559-578 | a woken thread of the current domain with no decision pending becomes the candidate; otherwise it is queued; either way it is added to what the scheduler considers and nothing else is, and a candidate is always of the current domain |
| Sel4Scheduler.NextDomain | rust_freertos/seL4_src_C/kernel/thread.c:303-319 | the domain index moves to the next schedule entry modulo the schedule's length, and the current domain and its time come from that entry, with the work units reset |
| Sel4Scheduler.DomainScheduleCycles | rust_freertos/seL4_src_C/kernel/thread.c:303-319 | within one round, n domain switches advance the index by n, wrapping once past the end of the schedule |
| Sel4Scheduler.FullRoundReturns | rust_freertos/seL4_src_C/kernel/thread.c:303-319 | a full round of the domain schedule comes back to the entry it started from |
| Sel4Scheduler.SwitchToThread | rust_freertos/seL4_src_C/kernel/thread.c:468-483 | the thread becomes current and leaves the ready queues; every other queued thread stays queued |
| Sel4Scheduler.SwitchToIdleThread | rust_freertos/seL4_src_C/kernel/thread.c:485-492 | the idle thread becomes current and nothing else changes |
| Sel4Scheduler.ChooseThreadChoosesBest | rust_freertos/seL4_src_C/kernel/thread.c:441-466 | the thread chosen is the head of the highest non-empty priority queue of the chosen domain, or the idle thread when that domain has no ready thread |
| Sel4Scheduler.ChooseNewThreadDomain | rust_freertos/seL4_src_C/kernel/thread.c:343-349 | choosing anew moves to the next domain exactly when the current domain's time is used up, and then makes the best choice in the resulting domain |
| Sel4Scheduler.ChooseNewFacts | rust_freertos/seL4_src_C/kernel/thread.c:343-349 | after choosing anew no ready thread of the domain outranks the running one, no queued thread is lost, none is invented, and the running thread is not also queued |
| Sel4Scheduler.ChooseAgainFacts | rust_freertos/seL4_src_C/kernel/thread.c:406-418 | putting the candidate back, at the head or at the end of its queue, and choosing anew keeps every considered thread and runs one that no ready thread outranks |
| Sel4Scheduler.CandidateFacts | rust_freertos/seL4_src_C/kernel/thread.c:397-422 | in the candidate branch, either the running thread is outranked by no ready thread, or it is the candidate and the current thread was not idle and did not outrank it; no considered thread is lost |
| Sel4Scheduler.CandidateRuns | rust_freertos/seL4_src_C/kernel/thread.c:403-422 | a candidate switched to directly is outranked by no ready thread, unless the current thread was not idle and did not outrank it |
| Sel4Scheduler.RequeueFacts | rust_freertos/seL4_src_C/kernel/thread.c:387-392 | a runnable current thread goes back into the ready queues, which adds exactly that thread to what the scheduler considers and changes nothing else it looks at |
| Sel4Scheduler.Schedule | rust_freertos/seL4_src_C/kernel/thread.c:379-439 | afterwards the action is "resume current thread"; thread records, endpoints, notifications and the domain schedule are unchanged; with nothing pending the state is unchanged |
| Sel4Scheduler.ScheduleFacts | rust_freertos/seL4_src_C/kernel/thread.c:379-439 | no thread that could run is lost and none is invented; a fresh choice runs a thread no ready thread of the domain outranks; a candidate runs only on the terms of the candidate branch; the idle thread is never queued |
| Sel4Scheduler.SliceTick | rust_freertos/seL4_src_C/kernel/thread.c:665-679 | a running thread loses one tick of its slice; on its last tick it gets a fresh slice of CONFIG_TIME_SLICE, goes back to the ready queues and a reschedule is asked for; a thread that is not running is left alone |
| Sel4Scheduler.WordDec | rust_freertos/seL4_src_C/kernel/thread.c:682 | decrementing a word_t gives one less, except that 0 wraps to the largest word |
| Sel4Scheduler.DomainTick | rust_freertos/seL4_src_C/kernel/thread.c:681-686 | the domain time counts down as a word_t, and reaching 0 asks for a new choice; otherwise only the domain time changes |
| Sel4Scheduler.TimerTick | rust_freertos/seL4_src_C/kernel/thread.c:663-687 | only the current thread's slice, the ready queues, the domain time and the scheduler action change; the domain time counts down only when there is more than one domain |
| Sel4Scheduler.TimerTickKeeps | rust_freertos/seL4_src_C/kernel/thread.c:663-687 | a tick loses no thread the scheduler would consider and keeps the endpoint and notification queues consistent |
| Sel4Scheduler.TimerTickSlice | rust_freertos/seL4_src_C/kernel/thread.c:665-679 | the slice effect of one tick: one tick off for a running thread, a fresh slice, a place at the back of the queue and a reschedule on its last tick, and nothing for a thread that is not running |
| Sel4Scheduler.TickCountsDown | rust_freertos/seL4_src_C/kernel/thread.c:672-673 | a running thread with n > 1 ticks left still runs with n - 1 ticks after a tick |
| Sel4Scheduler.TickExpires | rust_freertos/seL4_src_C/kernel/thread.c:674-678 | a running thread with 1 tick left has a fresh slice, is queued, and a reschedule is pending after the tick |
| Sel4Scheduler.SliceCountsDown | rust_freertos/seL4_src_C/kernel/thread.c:663-687 | round robin: along a run of ticks, a thread that starts with k ticks of slice still runs with k - i ticks after i < k ticks |
| Sel4Scheduler.SliceExpires | rust_freertos/seL4_src_C/kernel/thread.c:663-687 | on the k-th tick of a run started with k ticks of slice, the thread gets a fresh slice, waits in the ready queues, and the scheduler must choose anew |
| Sel4Scheduler.ActivateThread | rust_freertos/seL4_src_C/kernel/thread.c:40-72 | succeeds exactly when the current thread is runnable or idle; a restarted thread becomes running, a running or idle thread is left alone, and a blocked or inactive current thread halts the kernel; only that thread's state changes |
| WaitQueues.LeaveAbsentEp | rust_freertos/seL4_object/tcb.c:240-255 | dequeuing a thread from an endpoint queue it is not in leaves the endpoint unchanged |
| WaitQueues.LeaveAbsentNtfn | rust_freertos/seL4_object/tcb.c:240-255 | dequeuing a thread from a notification queue it is not in leaves the notification unchanged |
| WaitQueues.LeaveKeepsIpcOk | rust_freertos/seL4_object/tcb.c:240-255 | a thread that is dequeued from every queue it waits in and takes a state that needs no queue keeps every endpoint, notification, binding and blocked thread consistent |
| WaitQueues.LeaveNtfnKeepsIpcOk | rust_freertos/seL4_src_C/object/notification.c:233-252 | a thread blocked on a notification that is dequeued from it into a state that needs no queue keeps the IPC invariant |
| WaitQueues.LeaveEpKeepsIpcOk | rust_freertos/seL4_src_C/object/endpoint.c:287-354 | a thread blocked on an endpoint that is dequeued from it into a state that needs no queue keeps the IPC invariant |
| WaitQueues.JoinEpKeepsIpcOk | rust_freertos/seL4_object/tcb.c:224-236 | a thread that waits nowhere and is appended to an idle endpoint, or to one already in the matching send or receive state, blocked on it, keeps the IPC invariant |
| WaitQueues.JoinNtfnKeepsIpcOk | rust_freertos/seL4_object/tcb.c:224-236 | a thread that waits nowhere and is appended to a notification's queue, blocked on it, keeps the IPC invariant, and the notification is then waiting |
| WaitQueues.LeaveOnlyEp | rust_freertos/seL4_object/tcb.c:240-255 | a thread blocked on one endpoint is in no other endpoint queue and no notification queue, so dequeuing it anywhere else changes nothing |
| WaitQueues.LeaveOnlyNtfn | rust_freertos/seL4_object/tcb.c:240-255 | a thread blocked on one notification is in no endpoint queue and no other notification queue, so dequeuing it anywhere else changes nothing |
| WaitQueues.RestartEpWaitersOk | rust_freertos/seL4_src_C/object/endpoint.c:356-393 | emptying an endpoint and restarting all its waiters keeps every part of the IPC invariant |
| WaitQueues.RestartNtfnWaitersOk | rust_freertos/seL4_src_C/object/notification.c:211-231 | emptying a notification and restarting all its waiters keeps every part of the IPC invariant |
| WaitQueues.RestartAllStates | rust_freertos/seL4_src_C/object/endpoint.c:371-387 | the restart loop sets exactly the threads of the queue to Restart and changes nothing else about any thread |
| WaitQueues.RestartAllReady | rust_freertos/seL4_src_C/object/notification.c:221-228 | after the restart loop the ready threads are those ready before plus the threads of the queue |
| Endpoints.SetupCallerCap | rust_freertos/seL4_object/tcb.c:351-370 | the sender waits for the reply and the receiver's caller slot holds a reply capability naming the sender, with the grant right given; no other thread changes, the receiver keeps its state, and a sender that waited nowhere keeps the IPC invariant |
| Endpoints.DropCallersOf | rust_freertos/seL4_src_C/object/endpoint.c:332-352 | afterwards no caller slot holds a reply capability naming the thread, caller slots naming anyone else are kept, nothing but caller slots changes, and the IPC invariant is kept |
| Endpoints.BlockOnKeepsIpcOk | rust_freertos/seL4_src_C/object/endpoint.c:38-62 | a thread that waits nowhere and is appended to an endpoint's queue, blocked the matching way, keeps the IPC invariant |
| Endpoints.ReleaseKeepsIpcOk | rust_freertos/seL4_src_C/object/endpoint.c:298-325 | a thread blocked on an endpoint that is dequeued from it, the endpoint falling idle when nobody is left, into a state needing no queue keeps the IPC invariant |
| Endpoints.WakeReceiverFacts | rust_freertos/seL4_src_C/object/endpoint.c:65-113 | the receiver at the head of a receiving endpoint leaves the queue, holds the sender's badge, runs and is visible to the scheduler; no other thread changes and the IPC invariant is kept |
| Endpoints.SendToReceiverFacts | rust_freertos/seL4_src_C/object/endpoint.c:65-122 | with a receiver waiting, a send hands it the badge, dequeues it and makes it runnable; a plain send leaves the sender alone, a call that may grant leaves it waiting for the reply with the receiver holding the reply capability, and a call that may not leaves it inactive |
| Endpoints.SendToReceiverKeepsIpcOk | rust_freertos/seL4_src_C/object/endpoint.c:65-122 | a sender that waits nowhere keeps the IPC invariant when it meets a waiting receiver |
| Endpoints.CallTailKeepsIpcOk | rust_freertos/seL4_src_C/object/endpoint.c:114-121 | the call, grant and reply handling at the end of a send keeps the IPC invariant for a sender that waits nowhere |
| Endpoints.SendIPCBlocks | rust_freertos/seL4_src_C/object/endpoint.c:36-63 | with no receiver waiting, a blocking send appends the sender to the queue, blocked with its badge, rights and call flag, and the endpoint is sending; a non-blocking send changes nothing |
| Endpoints.SendIPCKeepsIpcOk | rust_freertos/seL4_src_C/object/endpoint.c:31-126 | a sender that waits nowhere keeps the IPC invariant whichever branch the send takes |
| Endpoints.TakeSenderFacts | rust_freertos/seL4_src_C/object/endpoint.c:192-255 | the sender at the head leaves the queue and its badge reaches the receiver; a sender that did not call runs again; a calling sender that may grant waits for the reply, with the receiver holding the reply capability; one that may not becomes inactive |
| Endpoints.TakeSenderKeepsIpcOk | rust_freertos/seL4_src_C/object/endpoint.c:192-255 | taking a message from the head sender keeps the IPC invariant |
| Endpoints.ReceiveIPCTakesSignalFirst | rust_freertos/seL4_src_C/object/endpoint.c:153-157 | a signal pending on the receiver's bound notification is taken before the endpoint: the receiver gets its badge, the notification falls idle, and the endpoint is untouched |
| Endpoints.ReceiveIPCBlocks | rust_freertos/seL4_src_C/object/endpoint.c:160-190 | with no signal pending and no sender waiting, a blocking receive appends the receiver to the queue, blocked with the grant right, and a non-blocking one only sets the badge register to 0 |
| Endpoints.ReceiveIPCKeepsIpcOk | rust_freertos/seL4_src_C/object/endpoint.c:132-257 | a receiver that waits nowhere keeps the IPC invariant whichever branch the receive takes |
| Endpoints.IpcOkCancelOk | rust_freertos/seL4_src_C/object/endpoint.c:305-306 | the IPC invariant guarantees that the endpoint a thread is blocked on is not idle |
| Endpoints.CancelIPC | rust_freertos/seL4_src_C/object/endpoint.c:287-354 | afterwards the thread waits in no queue: a thread blocked on an endpoint or a notification becomes inactive and no other thread's state changes; a thread waiting for a reply loses every reply capability naming it; any other thread is left as it was |
| Endpoints.CancelIPCKeepsIpcOk | rust_freertos/seL4_src_C/object/endpoint.c:287-354 | cancelling keeps the IPC invariant, and the thread afterwards waits in no queue |
| Endpoints.CancelUndoesSend | rust_freertos/seL4_src_C/object/endpoint.c:298-325 | a blocking send to an endpoint with no receiver waiting, cancelled before anyone receives, leaves every endpoint as it was; the sender ends up inactive |
| Endpoints.ReceiveFromLoneSender | rust_freertos/seL4_src_C/object/endpoint.c:192-255 | a receive on an endpoint whose only waiter is a sender that did not call gets that sender's badge; the sender runs again and the endpoint falls idle |
| Endpoints.SendToLoneReceiver | rust_freertos/seL4_src_C/object/endpoint.c:65-122 | a send to an endpoint whose only waiter is a receiver delivers the badge; the receiver runs and the endpoint falls idle |
| Endpoints.SendThenReceive | rust_freertos/seL4_src_C/object/endpoint.c:26-257 | after a blocking send to an idle endpoint, a receive with no signal pending gets the badge, the sender runs again and the endpoint is as it was before the send |
| Endpoints.ReceiveThenSend | rust_freertos/seL4_src_C/object/endpoint.c:26-257 | after a blocking receive on an idle endpoint with no signal pending, a send delivers the badge, the receiver runs and the endpoint is as it was before the receive |
| Endpoints.CancelAllIPC | rust_freertos/seL4_src_C/object/endpoint.c:356-393 | an idle endpoint is left alone and nothing changes |
| Endpoints.CancelAllIPCFacts | rust_freertos/seL4_src_C/object/endpoint.c:356-393 | an endpoint with waiters falls idle with an empty queue; exactly its waiters are set to Restart and made ready, no thread the scheduler considered is lost, and a new choice is asked for |
| Endpoints.CancelAllIPCKeepsIpcOk | rust_freertos/seL4_src_C/object/endpoint.c:356-393 | cancelling all IPC on an endpoint keeps the IPC invariant |
| Endpoints.Matching | rust_freertos/seL4_src_C/object/endpoint.c:414-431 | the senders of the queue carrying the badge, exactly, without duplicates when the queue has none |
| Endpoints.Unmatched | rust_freertos/seL4_src_C/object/endpoint.c:414-431 | the senders of the queue carrying another badge, exactly, without duplicates when the queue has none |
| Endpoints.DequeueAll | rust_freertos/seL4_src_C/object/endpoint.c:413-437 | dequeuing a set of threads one by one leaves exactly the queue's other threads |
| Endpoints.DequeueMatchingLeavesUnmatched | rust_freertos/seL4_src_C/object/endpoint.c:413-437 | dequeuing the senders carrying the badge one by one leaves exactly the other senders, in their original order |
| Endpoints.CancelBadgedSends | rust_freertos/seL4_src_C/object/endpoint.c:397-400 | an endpoint that is not sending is left alone and nothing changes |
| Endpoints.CancelBadgedSendsFacts | rust_freertos/seL4_src_C/object/endpoint.c:395-452 | on a sending endpoint, exactly the senders carrying the badge are restarted and made ready; the queue keeps the others in order and stays sending only if it is not empty; a new choice is asked for |
| Endpoints.CancelBadgedSendsKeepsIpcOk | rust_freertos/seL4_src_C/object/endpoint.c:395-452 | cancelling the badged sends keeps the IPC invariant |
| Ipc.GetSyscallArg | rust_freertos/src/task_ipc.rs:82-87 | the argument read is the message word at that index: a message register below n_msgRegisters, the buffer word one past the index otherwise |
| Ipc.AddU32 | rust_freertos/src/task_control_cap.rs:1678 | u32 addition stays below 2^32 |
| Ipc.SetMR | rust_freertos/src/task_control_cap.rs:1669-1686 | the next offset is one more, as a u32, when the word could be written; past the registers without a buffer nothing is written and the answer is n_msgRegisters; whether there is a buffer never changes |
| Ipc.SetThenGet | rust_freertos/src/task_control_cap.rs:1669-1686 | a word written at an offset below the u32 limit is the word read back there |
| Ipc.SetLeavesOthers | rust_freertos/src/task_control_cap.rs:1669-1686 | writing one message word changes no other message word |
| Ipc.SetMRWrapsToTag | rust_freertos/src/task_control_cap.rs:1677-1678 | at offset 0xFFFFFFFF the u32 index wraps: the word lands in buffer word 0, the message tag, and the next offset is 0 |
| Ipc.CopyMRs | rust_freertos/src/task_ipc.rs:52-76 | the count is n, or min(n, n_msgRegisters) when either side lacks a buffer; the first count message words are the sender's, every later word, and the receiver's message tag, are the receiver's own |
| Ipc.CopyRegisters | rust_freertos/src/task_ipc.rs:59-67 | the first loop copies exactly the registers below min(n, n_msgRegisters) and keeps the rest |
| Ipc.CopyBufferWords | rust_freertos/src/task_ipc.rs:71-74 | the second loop copies exactly the buffer words after the registers up to n and keeps every other word |
| Ipc.ExtraCapCount | rust_freertos/src/task_ipc.rs:33 | the number of extra capabilities a message declares is at most seL4_MsgMaxExtraCaps |
| Ipc.LookupExtraCaps | rust_freertos/src/task_ipc.rs:24-49 | without a buffer there are no extra capabilities; on success one slot is found per declared pointer, each the lookup of that pointer; on failure the fault names the first pointer whose lookup failed, with that lookup's status, all earlier ones having succeeded |
| Notifications.Deliver | rust_freertos/seL4_src_C/object/notification.c:199-207 | the pending badge goes to the receiver's badge register and the notification falls idle; no other thread or notification changes |
| Notifications.DeliverKeepsIpcOk | rust_freertos/seL4_src_C/object/notification.c:199-207 | taking the pending badge of an active notification keeps the IPC invariant |
| Notifications.CompleteSignal | rust_freertos/seL4_src_C/object/notification.c:254-265 | succeeds exactly when there is a thread and the notification is active, delivering the badge and leaving the notification idle; otherwise the kernel halts |
| Notifications.ReceiveSignal | rust_freertos/seL4_src_C/object/notification.c:164-209 | an active notification hands over its badge and falls idle; otherwise a blocking receiver is appended to the queue, blocked on the notification, which is then waiting, and a non-blocking one only gets badge 0; no other thread or notification changes |
| Notifications.WaitOnNtfn | rust_freertos/seL4_src_C/object/notification.c:175-191 | the receiver blocks on the notification and is appended to its queue, which is then waiting |
| Notifications.ReceiveSignalKeepsIpcOk | rust_freertos/seL4_src_C/object/notification.c:164-209 | a receiver that waits nowhere keeps the IPC invariant whichever branch the receive takes |
| Notifications.CancelSignal | rust_freertos/seL4_src_C/object/notification.c:233-252 | the thread becomes inactive and leaves the queue, every other waiter stays, and the notification is idle exactly when its queue is empty |
| Notifications.CancelSignalKeepsIpcOk | rust_freertos/seL4_src_C/object/notification.c:233-252 | cancelling the wait of a thread blocked on the notification keeps the IPC invariant |
| Notifications.CancelUndoesWait | rust_freertos/seL4_src_C/object/notification.c:164-252 | blocking on a notification with no signal pending and then having the wait cancelled leaves every notification as it was; the receiver ends up inactive |
| Notifications.CancelAllSignals | rust_freertos/seL4_src_C/object/notification.c:211-231 | a notification that is not waiting is left alone and nothing changes |
| Notifications.CancelAllSignalsFacts | rust_freertos/seL4_src_C/object/notification.c:211-231 | a waiting notification falls idle with an empty queue; exactly its waiters are set to Restart and made ready, no thread the scheduler considered is lost, and a new choice is asked for |
| Notifications.CancelAllSignalsKeepsIpcOk | rust_freertos/seL4_src_C/object/notification.c:211-231 | cancelling all signals keeps the IPC invariant |
| Notifications.BindNotification | rust_freertos/seL4_src_C/object/notification.c:293-297 | afterwards the thread records the notification and the notification records the thread |
| Notifications.DoUnbind | rust_freertos/seL4_src_C/object/notification.c:267-271 | afterwards neither side records the binding |
| Notifications.UnbindNotification | rust_freertos/seL4_src_C/object/notification.c:283-291 | a bound thread and its notification both lose the binding; an unbound thread is left alone and nothing changes |
| Notifications.UnbindMaybeNotification | rust_freertos/seL4_src_C/object/notification.c:273-281 | a bound notification and its thread both lose the binding; an unbound notification is left alone and nothing changes |
| Notifications.UnbindUndoesBind | rust_freertos/seL4_src_C/object/notification.c:273-297 | unbinding, from either side, undoes a binding between two unbound objects exactly |
| Notifications.BindKeepsIpcOk | rust_freertos/seL4_src_C/object/notification.c:293-297 | binding two unbound objects keeps the IPC invariant |
| Notifications.UnbindKeepsIpcOk | rust_freertos/seL4_src_C/object/notification.c:283-291 | unbinding a thread keeps the IPC invariant |
| Notifications.UnbindMaybeKeepsIpcOk | rust_freertos/seL4_src_C/object/notification.c:273-281 | unbinding a notification keeps the IPC invariant |
| Notifications.DoUnbindKeepsIpcOk | rust_freertos/seL4_src_C/object/notification.c:267-271 | clearing both records of an existing binding keeps the IPC invariant |
| Notifications.DecodeBindNotification | rust_freertos/seL4_object/tcb.c:1609-1655 | succeeds exactly when an extra capability is given, the thread is unbound, and the capability is a receive-capable notification capability whose notification has no waiters and no bound thread; no extra capability is a truncated message, every other refusal an illegal operation; on success both sides record the binding |
| Notifications.DecodeUnbindNotification | rust_freertos/seL4_object/tcb.c:1657-1671 | succeeds exactly when the thread is bound, and then both sides lose the binding; an unbound thread is an illegal operation |
| Signals.IpcOkSignalOk | rust_freertos/seL4_src_C/object/notification.c:125-133 | the IPC invariant guarantees that a waiting notification has a head waiter and that a bound thread blocked receiving is on an endpoint |
| Signals.WakeWithBadge | rust_freertos/seL4_src_C/object/notification.c:144-148 | the woken thread runs with the badge in its badge register and is added to what the scheduler considers; no other thread changes |
| Signals.SetActive | rust_freertos/seL4_src_C/object/notification.c:35-39 | the notification is active with the badge pending, and keeps its queue and binding |
| Signals.SignalWakesBoundReceiver | rust_freertos/seL4_src_C/object/notification.c:84-92 | a signal on an idle notification whose bound thread is blocked receiving takes that thread off its endpoint queue and runs it with the badge; the notification stays as it was |
| Signals.SignalPends | rust_freertos/seL4_src_C/object/notification.c:110-122 | without a receiving bound thread, a signal on an idle notification becomes the pending badge and one on an active notification is ORed into it; no thread or endpoint changes |
| Signals.SignalWakesWaiter | rust_freertos/seL4_src_C/object/notification.c:125-150 | a waiting notification hands the badge to its first waiter, which leaves the queue and runs; the notification stays waiting exactly when another waiter is left |
| Signals.SendSignalKeepsIpcOk | rust_freertos/seL4_src_C/object/notification.c:78-162 | sending a signal keeps the IPC invariant |
| Signals.SignalsAccumulate | rust_freertos/seL4_src_C/object/notification.c:152-160 | two signals on a notification with one already pending OR both badges into the pending badge |
| Signals.SignalsAccumulateFromIdle | rust_freertos/seL4_src_C/object/notification.c:110-160 | two signals on an idle notification with no receiving bound thread leave the OR of both badges pending |
| Signals.SignalPendsMsg | rust_freertos/seL4_src_C/object/notification.c:152-160 | a signal on an active notification ORs its badge into the pending badge and changes no thread |
| Signals.SignalThenReceive | rust_freertos/seL4_src_C/object/notification.c:78-209 | a signal left pending on an idle notification is what the next receive gets, and the notification is idle again |
| Signals.WaitThenSignal | rust_freertos/seL4_src_C/object/notification.c:78-209 | after a blocking receive on an idle notification, a signal wakes the receiver with the badge and the notification is as it was before the receive |
| Interrupts.MaskInterrupt | rust_freertos/seL4_src_C/object/interrupt.c:271 | afterwards the IRQ is masked exactly when masking was asked for, and no other IRQ's mask changes |
| Interrupts.AckInterrupt | rust_freertos/seL4_src_C/object/interrupt.c:254 | the IRQ is added to the controller's acknowledgements and nothing else changes |
| Interrupts.SetIrqState | rust_freertos/seL4_src_C/object/interrupt.c:262-272 | the IRQ's table entry becomes the new state, and the IRQ is masked exactly when that state is inactive; no other IRQ changes |
| Interrupts.DeletedIrqHandler | rust_freertos/seL4_src_C/object/interrupt.c:179-182 | afterwards the IRQ is inactive and masked, and no other IRQ changes |
| Interrupts.SetIrqStateThenActive | rust_freertos/seL4_src_C/object/interrupt.c:257-272 | after setting a state the IRQ is active exactly when that state is not inactive, and masked exactly when it is not active |
| Interrupts.SetIrqStateKeepsInactiveMasked | rust_freertos/seL4_src_C/object/interrupt.c:262-272 | setting an IRQ state keeps every inactive IRQ masked |
| Interrupts.DecodeIssueIrqHandler | rust_freertos/seL4_src_C/object/interrupt.c:23-77 | fewer than three message words or no extra capability is a truncated message; an IRQ that already has a handler must be revoked first; on success the IRQ exists and is inactive and the destination slot, found by the CNode lookup, is empty |
| Interrupts.InvokeIrqControl | rust_freertos/seL4_src_C/object/interrupt.c:79-85 | the IRQ becomes a signalling IRQ, and the insertion succeeds exactly when both slots exist and the destination is unlinked |
| Interrupts.IssueInsertsChild | rust_freertos/seL4_src_C/object/interrupt.c:79-85 | in a well-linked slot table the handler capability lands in the empty destination as the next entry after the control capability, and the table stays well linked |
| Interrupts.IssueTwiceRevokeFirst | rust_freertos/seL4_src_C/object/interrupt.c:46-54 | an IRQ that has been issued a handler cannot be issued another: the second request is told to revoke first |
| Interrupts.DecodeIrqHandler | rust_freertos/seL4_src_C/object/interrupt.c:87-134 | acknowledge and clear always decode; setting a handler without an extra capability is a truncated message, and succeeds exactly when that capability is a notification capability that may send, else it is an invalid capability; any other label is an illegal operation |
| Interrupts.InvokeIrqHandler | rust_freertos/seL4_src_C/object/interrupt.c:136-168 | acknowledging unmasks the IRQ; setting a handler puts the notification capability in the IRQ's node slot; clearing empties it; no other node slot and no table entry changes |
| Interrupts.SetThenClearHandler | rust_freertos/seL4_src_C/object/interrupt.c:151-168 | a handler set and then cleared leaves the IRQ's node slot empty, whatever it held before |
| Interrupts.HandleInterrupt | rust_freertos/seL4_src_C/object/interrupt.c:184-255 | every interrupt is acknowledged; it ends masked exactly when it was already, is beyond maxIRQ, or is signalling or inactive; an out-of-range, inactive or reserved IRQ or a signalling one without a sendable capability changes no thread; a timer IRQ is a timer tick |
| Interrupts.InterruptSignals | rust_freertos/seL4_src_C/object/interrupt.c:197-215 | a signalling IRQ whose node capability may send signals that capability's notification with its badge |
| Interrupts.HandleInterruptKeepsIpcOk | rust_freertos/seL4_src_C/object/interrupt.c:184-255 | an interrupt keeps the IPC invariant |
| Interrupts.HandleInterruptKeepsInactiveMasked | rust_freertos/seL4_src_C/object/interrupt.c:184-255 | an interrupt keeps every inactive IRQ masked |
| Interrupts.SignalMaskedUntilAck | rust_freertos/seL4_src_C/object/interrupt.c:136-215 | a signalling IRQ stays masked from its delivery until its handler acknowledges it; the acknowledgement unmasks it and changes neither the IRQ table nor the node slots |
| SchedContexts.Resume | rust_freertos/seL4_src_C/object/schedcontext.c:261-270 | a schedulable thread whose budget is not ready moves from the ready queues to the release queue, so that afterwards a bound schedulable thread has a ready budget; one whose budget is ready is left alone; no other thread's queues change |
| SchedContexts.BindTcb | rust_freertos/seL4_src_C/object/schedcontext.c:272-292 | both sides record the binding; the thread ends up in the ready queues with a reschedule when it can run, which needs a ready budget; no other thread's queues change |
| SchedContexts.UnbindTcb | rust_freertos/seL4_src_C/object/schedcontext.c:294-308 | both links are cleared, the thread leaves the ready and release queues, and a reschedule is asked for exactly when it was already or the thread is current |
| SchedContexts.UnbindAllTcbs | rust_freertos/seL4_src_C/object/schedcontext.c:310-316 | the context's thread, if any, is unbound and leaves both queues; a context without one is left alone |
| SchedContexts.Donate | rust_freertos/seL4_src_C/object/schedcontext.c:318-337 | the context leaves its old thread, which is dequeued with a reschedule if it is current, and is linked to the new one |
| SchedContexts.BindNtfn | rust_freertos/seL4_src_C/object/schedcontext.c:339-343 | both sides of the notification link are recorded and no thread or queue changes |
| SchedContexts.UnbindNtfn | rust_freertos/seL4_src_C/object/schedcontext.c:345-351 | both sides of the context's notification link are cleared; a context without one is left alone |
| SchedContexts.CancelYieldTo | rust_freertos/seL4_src_C/object/schedcontext.c:365-371 | both sides of the thread's yield link are cleared; a thread without one is left alone |
| SchedContexts.BindTcbKeepsLinks | rust_freertos/seL4_src_C/object/schedcontext.c:272-292 | binding an unbound thread to an unbound context keeps every link two-way |
| SchedContexts.UnbindTcbKeepsLinks | rust_freertos/seL4_src_C/object/schedcontext.c:294-308 | unbinding a context's thread keeps every link two-way |
| SchedContexts.DonateKeepsLinks | rust_freertos/seL4_src_C/object/schedcontext.c:318-337 | donating a context to a thread without one keeps every link two-way |
| SchedContexts.BindNtfnKeepsLinks | rust_freertos/seL4_src_C/object/schedcontext.c:339-343 | binding an unbound notification to a context without one keeps every link two-way |
| SchedContexts.UnbindNtfnKeepsLinks | rust_freertos/seL4_src_C/object/schedcontext.c:345-351 | unbinding a context's notification keeps every link two-way |
| SchedContexts.CancelYieldToKeepsLinks | rust_freertos/seL4_src_C/object/schedcontext.c:365-371 | cancelling a yield keeps every link two-way |
| SchedContexts.BindThenUnbind | rust_freertos/seL4_src_C/object/schedcontext.c:272-308 | binding a thread and unbinding it again restores every link, and the thread is in neither queue |
| SchedContexts.DonateMovesContext | rust_freertos/seL4_src_C/object/schedcontext.c:318-337 | a donated context is found again by its new thread, and the old thread no longer has one |
| SchedContexts.UpdateConsumedAsWritten | rust_freertos/seL4_src_C/object/schedcontext.c:353-363 | only the consumed count changes, and it never grows |
| SchedContexts.UpdateConsumedMixesUnits | rust_freertos/seL4_src_C/object/schedcontext.c:353-363 | with two ticks to the microsecond, a saturated counter reports twice the time that is taken from it |
| SchedContexts.UpdateConsumed | rust_freertos/seL4_src_C/object/schedcontext.c:353-363 | the microseconds returned are those of the ticks taken from the counter; below the conversion limit the whole count is taken, at or above it exactly the limit is taken |
| SchedContexts.ConsumedReadTwice | rust_freertos/seL4_src_C/object/schedcontext.c:353-363 | every tick is billed exactly once: a first read below the limit bills the whole count and a second read bills nothing |
| SchedContexts.UpdateConsumedAgreesAtOneTickPerUs | rust_freertos/seL4_src_C/object/schedcontext.c:353-363 | where the conversion is the identity, the code as written and the corrected version agree |
| SchedControl.CheckTimes | rust_freertos/seL4_src_C/object/schedcontrol.c:117-139 | the times pass exactly when budget and period both lie between MIN_BUDGET_US and the largest convertible time and the budget does not exceed the period; a budget or period out of range reports that range, a budget above the period reports the period as the maximum |
| SchedControl.DecodeTimes | rust_freertos/seL4_src_C/object/schedcontrol.c:92-139 | no extra capability or too few message words is a truncated message; a target that is not a scheduling-context capability is invalid capability 1; otherwise the time checks decide, and passing them yields the budget, period and extra refill count |
| SchedControl.DecodeConfigureAsWritten | rust_freertos/seL4_src_C/object/schedcontrol.c:141-157 | the shared checks fail the same way; an accepted configuration's refill count is a word no larger than the capability's maximum |
| SchedControl.RefillCountWraps | rust_freertos/seL4_src_C/object/schedcontrol.c:141 | an extra refill count of 2^64 - 2 wraps the refill count to 0, so the message is accepted with no refills, where the unwrapped check refuses it |
| SchedControl.DecodersAgreeWithoutWrap | rust_freertos/seL4_src_C/object/schedcontrol.c:141-157 | where the sum does not wrap, the code as written and the corrected decoder agree |
| SchedControl.DecodeConfigure | rust_freertos/seL4_src_C/object/schedcontrol.c:90-158 | after the shared checks the request succeeds exactly when the extra refills plus MIN_REFILLS fit the capability's maximum, else a range error up to that maximum less MIN_REFILLS; an accepted configuration names the context, carries the badge, has between MIN_REFILLS and the maximum refills, and converts budget and period to ticks with the budget at least the least budget and within the period |
| SchedControl.DecodeSchedControl | rust_freertos/seL4_src_C/object/schedcontrol.c:160-171 | Configure decodes as above and every other label is an illegal operation |
| SchedControl.NewRefills | rust_freertos/seL4_src_C/object/schedcontrol.c:46-64 | the new refills are well formed, ordered and sum to the budget; a budget equal to the period gives a round-robin context with MIN_REFILLS refills, any other keeps the period and the refill maximum asked for |
| SchedControl.Requeue | rust_freertos/seL4_src_C/object/schedcontrol.c:73-85 | no other thread's queues change; the current thread asks for a reschedule; another thread that can run is queued with a reschedule due and a ready budget; one that cannot run is not queued |
| SchedControl.InvokeConfigure | rust_freertos/seL4_src_C/object/schedcontrol.c:13-88 | only the target context changes, getting the badge and the new refills; without a thread the queues are kept; with one, the thread is requeued as Requeue states and no other thread's queues change |
| SchedControl.ConfigureKeepsLinks | rust_freertos/seL4_src_C/object/schedcontrol.c:13-88 | reconfiguring keeps every link two-way and every configured context's refills well formed |
| SchedControl.ConfigureKeepsLinkFields | rust_freertos/seL4_src_C/object/schedcontrol.c:13-88 | reconfiguring changes no context's thread, notification or yielder, and no thread |
| SchedControl.ConfigureKeepsRefillsOk | rust_freertos/seL4_src_C/object/schedcontrol.c:13-88 | reconfiguring keeps every configured context's refills well formed |
| SchedControl.DecodeThenConfigure | rust_freertos/seL4_src_C/object/schedcontrol.c:90-158 | any configuration the decoder accepts can be invoked, and leaves the context with the badge and ordered refills summing to the budget in ticks, with every link two-way |
| SchedContextMethods.DecodeBind | rust_freertos/seL4_src_C/object/schedcontext.c:84-125 | no extra capability is a truncated message; a context already bound to a thread or notification is an illegal operation, as is a thread or notification that already has a context; otherwise a thread or notification capability decodes to a bind of that object, and any other capability is invalid capability 1 |
| SchedContextMethods.DecodeUnbindObject | rust_freertos/seL4_src_C/object/schedcontext.c:26-66 | no extra capability is a truncated message; a thread capability must name the bound thread, which must not be the current one, and a notification capability the bound notification, else an illegal operation; any other capability is invalid capability 1 |
| SchedContextMethods.DecodeYieldTo | rust_freertos/seL4_src_C/object/schedcontext.c:203-226 | a yield decodes exactly when the context has a thread that is not the caller and whose priority does not exceed the caller's maximum controlled priority; every refusal is an illegal operation |
| SchedContextMethods.DecodeSchedContext | rust_freertos/seL4_src_C/object/schedcontext.c:228-259 | reading the consumed time always decodes; unbinding everything decodes unless the context is the current thread's; unknown labels are illegal operations; whatever decodes is admissible for that context |
| SchedContextMethods.ReadConsumed | rust_freertos/seL4_src_C/object/schedcontext.c:147-158 | only the context's consumed count changes, and the time read is the microseconds billed for it |
| SchedContextMethods.CompleteYieldTo | rust_freertos/seL4_src_C/object/schedcontext.c:373-379 | the yielder's link and its context's back link are cleared, no other link or queue changes, and the yield links stay two-way |
| SchedContextMethods.ClearYielder | rust_freertos/seL4_src_C/object/schedcontext.c:163-166 | afterwards nothing yields to the context, its thread is kept, nothing but yield links and consumed counts changes, and the yield links stay two-way |
| SchedContextMethods.Yield | rust_freertos/seL4_src_C/object/schedcontext.c:181-192 | the caller and the context are linked both ways, both threads are queued, and a reschedule is due |
| SchedContextMethods.Unblock | rust_freertos/seL4_src_C/kernel/sporadic.c:333-362 | only the context's refills change, and they stay well formed with the same total budget |
| SchedContextMethods.YieldRunnable | rust_freertos/seL4_src_C/object/schedcontext.c:175-193 | a thread of lower priority than the caller is only queued and the consumed time is read at once; otherwise the caller yields to it; bindings never change |
| SchedContextMethods.YieldOrReturn | rust_freertos/seL4_src_C/object/schedcontext.c:174-198 | the caller yields, linked both ways with both threads queued and a reschedule due, exactly when the thread can run and is not of lower priority; otherwise the consumed time is reported at once and no yield link is made |
| SchedContextMethods.ReadConsumedKeeps | rust_freertos/seL4_src_C/object/schedcontext.c:147-158 | reading the consumed time keeps every binding and every yield link |
| SchedContextMethods.YieldOrReturnFrame | rust_freertos/seL4_src_C/object/schedcontext.c:174-198 | the second half of a yield keeps every binding, and the only yield link it can add is the caller's to the context |
| SchedContextMethods.YieldRunnableFrame | rust_freertos/seL4_src_C/object/schedcontext.c:175-193 | queueing a runnable thread or yielding to it keeps every binding, and only the context's yield link can change |
| SchedContextMethods.InvokeYieldTo | rust_freertos/seL4_src_C/object/schedcontext.c:161-201 | a yield that does not report at once links caller and context both ways, queues both threads with a reschedule due, and needs the context's thread to be of no lower priority with a ready budget; one that reports at once leaves no yield link between them |
| SchedContextMethods.InvokeYieldToKeepsLinks | rust_freertos/seL4_src_C/object/schedcontext.c:161-201 | a yield by a caller that yields to nothing keeps every link two-way and every configured context's refills well formed |
| SchedContextMethods.YieldOrReturnKeepsYieldLinks | rust_freertos/seL4_src_C/object/schedcontext.c:174-198 | the second half of a yield keeps the yield links two-way when the caller yields to nothing |
| SchedContextMethods.PrepareYieldFrame | rust_freertos/seL4_src_C/object/schedcontext.c:163-172 | completing the earlier yield to the context and resuming it keeps every binding and frees both ends of the new yield |
| SchedContextMethods.InvokeBinding | rust_freertos/seL4_src_C/object/schedcontext.c:10-136 | a bind links both sides; an unbind clears both sides and an unbound thread leaves the ready queues; unbinding everything clears both the thread and the notification; no refills change |
| SchedContextMethods.UnbindAll | rust_freertos/seL4_src_C/object/schedcontext.c:127-136 | the context loses its thread and its notification, the thread loses the context and leaves the ready queues, and no other context changes |
| SchedContextMethods.InvokeSchedContext | rust_freertos/seL4_src_C/object/schedcontext.c:154-201 | reading the consumed time reports at once and never grows the count; binding methods report nothing; a yield that does not report links caller and context |
| SchedContextMethods.InvokeBindingKeepsLinks | rust_freertos/seL4_src_C/object/schedcontext.c:10-136 | binding and unbinding keep every link two-way and every configured context's refills well formed |
| SchedContextMethods.UnbindAllKeepsLinks | rust_freertos/seL4_src_C/object/schedcontext.c:127-136 | unbinding everything keeps every link two-way |
| SchedContextMethods.InvokeKeepsLinks | rust_freertos/seL4_src_C/object/schedcontext.c:10-201 | every scheduling-context method keeps every link two-way and every configured context's refills well formed, when the caller yields to nothing as it calls |
| SchedContextMethods.DecodeThenInvokeKeepsLinks | rust_freertos/seL4_src_C/object/schedcontext.c:228-259 | whatever message the decoder accepts is admissible, and invoking it keeps every link two-way |
| SchedContextMethods.BindThenUnbindObject | rust_freertos/seL4_src_C/object/schedcontext.c:26-125 | whatever a bind message binds, an unbind message with the same capability then names for unbinding, unless it names the current thread |
| Sporadic.RefillNext | rust_freertos/seL4_src_C/kernel/sporadic.c:36-39 | the index after i wraps at scRefillMax and stays below it |
| Sporadic.Size | rust_freertos/seL4_src_C/kernel/sporadic.c:309 | the number of refills from head to tail lies between 1 and scRefillMax, and the last of them is the tail |
| Sporadic.SingleIffOne | rust_freertos/seL4_src_C/kernel/sporadic.c:241 | a queue is single exactly when it holds one refill |
| Sporadic.PopHead | rust_freertos/seL4_src_C/kernel/sporadic.c:116-129 | with more than one refill, the head is returned and the queue holds the rest, one fewer, with the tail, period and maximum unchanged |
| Sporadic.AddTail | rust_freertos/seL4_src_C/kernel/sporadic.c:132-143 | with room left, the refill becomes the new tail: the queue holds what it held plus that refill, one more, with the head unchanged |
| Sporadic.SetHead | rust_freertos/seL4_src_C/kernel/sporadic.c:315 | the first refill is replaced and the rest of the queue is unchanged |
| Sporadic.SetTail | rust_freertos/seL4_src_C/kernel/sporadic.c:139 | the last refill is replaced and the rest of the queue is unchanged |
| Sporadic.Capacity | rust_freertos/seL4_src_C/kernel/sporadic.c:268 | what is left of the head after the usage: positive exactly when the usage is below the head's amount, and then usage plus capacity is that amount; never more than the head's amount |
| Sporadic.MaybeAddEmptyTail | rust_freertos/seL4_src_C/kernel/sporadic.c:145-153 | a round-robin context gets one empty refill behind its refills, released at the time given; any other context is unchanged |
| Sporadic.RefillNew | rust_freertos/seL4_src_C/kernel/sporadic.c:156-172 | the queue starts afresh with the whole budget available now, plus an empty tail for a round-robin context, which then holds exactly MIN_REFILLS refills; the sum is the budget and the queue is ordered |
| Sporadic.RefillUpdateWith | rust_freertos/seL4_src_C/kernel/sporadic.c:174-212 | the queue is truncated to its head, restarted at index 0 with the new period and maximum, and sums to the new budget; the head keeps the smaller of its amount and the new budget, and a ready head is released now; at most MIN_REFILLS refills remain |
| Sporadic.RefillUpdateAsWritten | rust_freertos/seL4_src_C/kernel/sporadic.c:174-212 | the refills are well formed and sum to the new budget, and they are ordered unless the context becomes round robin while its head is not ready |
| Sporadic.UpdateUnorderedWhenThrottled | rust_freertos/seL4_src_C/kernel/sporadic.c:195-202 | a throttled context reconfigured as round robin keeps its future head and gets an empty tail released now, before the head, so the queue is out of order |
| Sporadic.RefillUpdate | rust_freertos/seL4_src_C/kernel/sporadic.c:174-212 | the updated refills are well formed, ordered and sum to the new budget, with the new period and maximum |
| Sporadic.ScheduleUsed | rust_freertos/seL4_src_C/kernel/sporadic.c:214-226 | used budget returns to the queue: too small an amount, or one released no later than the tail, merges into the tail and leaves the rest alone, otherwise it is appended; the sum grows by the amount, order and positive amounts are kept, and the tail is released no earlier than the returned refill |
| Sporadic.FoldRemnant | rust_freertos/seL4_src_C/kernel/sporadic.c:316-320 | the head is dropped and its remnant joins the next refill: one refill fewer, the sum changes by the remnant less the head's amount, and order and positive amounts are kept |
| Sporadic.SplitCheck | rust_freertos/seL4_src_C/kernel/sporadic.c:288-331 | charging a usage of the head keeps the sum of the refills, their order and their positive amounts |
| Sporadic.MergeReady | rust_freertos/seL4_src_C/kernel/sporadic.c:348-357 | refills already released merge into the head, released now: the sum is kept, the queue is ordered, and afterwards the head is single or the next refill is released after the head's amount runs out |
| Sporadic.UnblockCheck | rust_freertos/seL4_src_C/kernel/sporadic.c:333-362 | a round-robin context, or one whose head is not ready, is unchanged; otherwise the head is released now and the timer must be reprogrammed; the sum and the order are kept |
| Sporadic.Exhaust | rust_freertos/seL4_src_C/kernel/sporadic.c:238-249 | each refill used up entirely is rescheduled one period on; the sum and positive amounts are kept, and the usage left is below the new head's amount |
| Sporadic.ChargeHead | rust_freertos/seL4_src_C/kernel/sporadic.c:240-248 | one round of that loop keeps the sum and positive amounts |
| Sporadic.Overrun | rust_freertos/seL4_src_C/kernel/sporadic.c:251-265 | overrun usage delays the head, merging it with the next refill when they overlap; the sum and positive amounts are kept, and no overrun changes nothing |
| Sporadic.OverrunContents | rust_freertos/seL4_src_C/kernel/sporadic.c:251-265 | after an overrun the queue is the delayed head followed by the rest, or, when the delayed head overlaps the next refill, a single refill at the delayed time holding both amounts followed by the rest |
| Sporadic.OverrunKeepsOrder | rust_freertos/seL4_src_C/kernel/sporadic.c:251-265 | an overrun smaller than the head keeps an ordered queue ordered when the head's budget runs out by the release of the next refill |
| Sporadic.OverrunUnorders | rust_freertos/seL4_src_C/kernel/sporadic.c:255-264 | the ordered queue [(1,100), (2,30), (3,30)] with an overrun of 50 becomes [(51,130), (3,30)], out of order |
| Sporadic.FixHead | rust_freertos/seL4_src_C/kernel/sporadic.c:275-280 | the loop ends with a head of at least MIN_BUDGET and room in the queue, keeping the sum and positive amounts |
| Sporadic.BudgetCharge | rust_freertos/seL4_src_C/kernel/sporadic.c:237-271 | the charge before the final loop keeps the sum of the refills, and it is always defined when the empty split is skipped |
| Sporadic.BudgetCheckAsWritten | rust_freertos/seL4_src_C/kernel/sporadic.c:228-283 | when it gets through, the refills keep their sum and the head holds at least MIN_BUDGET with room in the queue |
| Sporadic.EmptySplitReached | rust_freertos/seL4_src_C/kernel/sporadic.c:268-270 | usage exactly equal to the head's amount with the next refill ready leaves no usage and a ready head with capacity, so the split check is called with a usage of 0 and its assertion fails |
| Sporadic.BudgetCheck | rust_freertos/seL4_src_C/kernel/sporadic.c:228-283 | charging the usage keeps the sum of the refills, the period and the maximum, and leaves a head of at least MIN_BUDGET with room in the queue |
| Sporadic.BudgetCheckUnorders | rust_freertos/seL4_src_C/kernel/sporadic.c:237-282 | charging 70 to the ordered queue [(0,20), (1,100), (2,30), (3,30)] with period 1000 leaves it out of order |
| BootUntypeds.Log2Floor | rust_freertos/seL4_src_C/kernel/boot.c:304-305 | the chosen bit is the highest one of n: 2^r <= n < 2^(r+1) |
| BootUntypeds.TrailingZeros | rust_freertos/seL4_src_C/kernel/boot.c:599-600 | n is a multiple of 2^r and an odd multiple of it, so r counts exactly the trailing zero bits |
| BootUntypeds.BlockBits | rust_freertos/seL4_src_C/kernel/boot.c:596-611 | the block cut next fits in the region and is at most seL4_MaxUntypedBits bits |
| BootUntypeds.BlockBitsLargest | rust_freertos/seL4_src_C/kernel/boot.c:596-611 | the block is aligned to its own size at the region's start, and doubling it would overrun the region, break the alignment or exceed the cap |
| BootUntypeds.Remaining | rust_freertos/seL4_src_C/kernel/boot.c:617 | cutting a block strictly advances the region's start and keeps its end |
| BootUntypeds.CarveTiles | rust_freertos/seL4_src_C/kernel/boot.c:594-619 | the blocks cut from a region lie back to back from its start and end exactly at its end |
| BootUntypeds.CarveLargest | rust_freertos/seL4_src_C/kernel/boot.c:594-619 | every block of the carving is the largest aligned block that fits in what was left of the region, up to the cap |
| BootUntypeds.TilesPartition | rust_freertos/seL4_src_C/kernel/boot.c:594-619 | in a tiling every address of the region lies in some block, and the blocks are disjoint and ascending |
| BootUntypeds.TilesAscend | rust_freertos/seL4_src_C/kernel/boot.c:594-619 | every tiled block lies inside the region and ends before the next begins |
| BootUntypeds.KeptMembers | rust_freertos/seL4_src_C/kernel/boot.c:612 | the blocks that become caps are exactly the blocks of at least seL4_MinUntypedBits bits |
| BootUntypeds.ProvideCap | rust_freertos/seL4_src_C/kernel/boot.c:333-342 | with no free slot boot fails; otherwise the cap lands in the next free slot, the free pointer moves on by one and the limit is kept |
| BootUntypeds.ProvideCapKeepsOthers | rust_freertos/seL4_src_C/kernel/boot.c:333-342 | no slot other than the next free one changes |
| BootUntypeds.ProvideUntypedCap | rust_freertos/seL4_src_C/kernel/boot.c:561-582 | with the boot-info list full nothing changes and boot goes on; otherwise the block is described at the next entry, its cap is provided, and boot fails exactly when no slot is free |
| BootUntypeds.ProvideUntypedCapKeepsOthers | rust_freertos/seL4_src_C/kernel/boot.c:561-582 | no slot but the next free one and no boot-info entry but the next one changes |
| BootUntypeds.HandOut | rust_freertos/seL4_src_C/kernel/boot.c:594-619 | a hand-out that succeeds keeps the slot limit and the list capacity and never moves the free-slot pointer back |
| BootUntypeds.HandOutKept | rust_freertos/seL4_src_C/kernel/boot.c:561-621 | with room for every block of at least seL4_MinUntypedBits bits, exactly those blocks become caps and entries, in order, from the next free slot and entry, and the pointer moves past them |
| BootUntypeds.LaterSlotsKeep | rust_freertos/seL4_src_C/kernel/boot.c:561-621 | slots and boot-info entries filled before the hand-out are not overwritten |
| BootUntypeds.SlotKept | rust_freertos/seL4_src_C/kernel/boot.c:561-621 | any single slot below the free pointer and entry below the next index survives the hand-out |
| BootUntypeds.FullListDropsBlocks | rust_freertos/seL4_src_C/kernel/boot.c:568-581 | once the boot-info list is full every further block is dropped and boot goes on unchanged |
| BootUntypeds.HandOutFailsIffOutOfSlots | rust_freertos/seL4_src_C/kernel/boot.c:561-621 | with room in the boot-info list, boot fails exactly when the root CNode has fewer free slots than there are blocks to hand out |
| BootUntypeds.CreateHandsOutRegion | rust_freertos/seL4_src_C/kernel/boot.c:584-621 | a region with enough slots and entries is tiled by maximal aligned blocks and every large one is handed out in address order |
| BootUntypeds.ExtraBitsSmallestFrame | rust_freertos/seL4_src_C/kernel/boot.c:298-311 | the extra boot-info frame holds all the extra bytes, is at least a page, and half of it would not do unless it is a page; there is no answer exactly when rounding up to a page wraps the word |
| BootUntypeds.ExtraBitsNeverSubPage | rust_freertos/seL4_src_C/kernel/boot.c:298-311 | the frame size is 0 exactly for no extra bytes and otherwise at least a page |

## Left out

- Queues.SendPass: models the evidently intended send, not the code as written, in four places. The entry assertion is the intended `OverwriteAdmitted`, not the inverted test of all.rs:2764 (see `Queues.OverwriteAssertInverted`). Storage is the ring of `queue_ring.dfy`, not the `VecDeque` insert of all.rs:3306 and 3319 (see `QueueRing.RawQueueReturnsStaleMessage`). The wait uses `EventLists.CheckForTimeout`, not the as-written check of task_queue.rs:108-130. Inheritance uses `MutexInheritance.PriorityInherit`, not the as-written task_queue.rs:172-225.
- Queues.ReceivePass: models the evidently intended receive, not the code as written. After a peek it wakes a waiting receiver through `Queues.WakeAny`; all.rs:3207 panics with no receiver waiting and leaves a waiting one blocked (see `Queues.PeekWakeAsWritten`). A mutex receive returns the stored message, not the holder that all.rs:3277-3286 reads after all.rs:3299 inserts it. Disinheritance is `MutexInheritance.PriorityDisinherit`, not the as-written ranking of task_queue.rs:280. It has the storage and time-out differences listed under `Queues.SendPass`.
- Semaphores.SemaphoreUp: inherits the corrected storage, disinheritance and mutex item of `Queues.ReceivePass`; for a mutex the returned item is the stored message, not the holder.
- Semaphores.SemaphoreDown: inherits the corrected time-out check and inheritance of `Queues.SendPass`.
- TickInterrupt.IncrementTick: at a tick wrap it uses the corrected `TickInterrupt.SwitchDelayedLists`, not the content swap of all.rs:5533-5546 that kernel.rs:665-667 calls (see `TickInterrupt.SwitchAsWrittenMisfilesItems`).
- TickInterrupt.AdvanceTick: uses `TickInterrupt.SwitchDelayedLists` instead of the content swap of all.rs:5533-5546 that kernel.rs:665-667 calls as written (see `TickInterrupt.SwitchAsWrittenMisfilesItems` and `TickInterrupt.SwitchAsWrittenKeepsStaleBound`).
- TickInterrupt.RunningTick: advances the tick through `TickInterrupt.AdvanceTick`, so a tick wrap uses the corrected switch.
- TickInterrupt.ProcessPended: replays each pended tick through `TickInterrupt.IncrementTick`, so a tick wrap uses the corrected switch.
- TickInterrupt.ResumeScheduler: replays pended ticks through `TickInterrupt.ProcessPended` and inherits its corrected switch.
- TickInterrupt.ResumeAll: ends in `TickInterrupt.ResumeScheduler` and inherits its corrected switch.
- Delay.TaskDelay: resumes through `TickInterrupt.ResumeAll` and inherits its corrected switch.
- Queues.UnlockAndResume: resumes through `TickInterrupt.ResumeAll` and inherits its corrected switch.
- Queues.GiveUp: resumes through `Queues.UnlockAndResume` and inherits its corrected switch.
- Queues.Block: resumes through `Queues.UnlockAndResume` and inherits its corrected switch.
- Queues.SuspendAndCheck: uses `EventLists.CheckForTimeout` instead of task_queue.rs:108-130 as written, which loses the abort and expires a `portMAX_DELAY` wait (see `EventLists.CheckAsWrittenLosesAbort` and `EventLists.CheckAsWrittenExpiresUnboundedWait`).
- Queues.WaitStep: uses `Queues.SuspendAndCheck` and so the corrected `EventLists.CheckForTimeout` instead of task_queue.rs:108-130 as written; it also resumes through `Queues.GiveUp` or `Queues.Block` (see `EventLists.CheckAsWrittenLosesAbort`).
- Queues.Lend: uses `MutexInheritance.PriorityInherit` instead of task_queue.rs:172-225 as written, which leaves a holder that is not ready at its lower priority (see `MutexInheritance.InheritAsWrittenSkipsBlockedHolder`).
- Queues.SendWhenFull: uses `Queues.Lend` and `Queues.WaitStep`, so the corrected inheritance and time-out check instead of task_queue.rs:108-130 and 172-225 as written (see `MutexInheritance.InheritAsWrittenSkipsBlockedHolder` and `EventLists.CheckAsWrittenLosesAbort`).
- Queues.SendFromIsr: begins with the overwrite assertion of `xQueueGenericSendFromISR` (an overwrite needs a one-slot queue), which all.rs:2942-2945 does not make; as written, an interrupt's overwrite of a longer queue is copied in and breaks the storage (see `Queues.IsrOverwriteUnchecked`), and the model refuses it with `AssertionFailed` instead.
- Queues.Put: stores through the ring of `QueueRing.CopyIn`, the corrected storage, not the `VecDeque::insert` of all.rs:3306 and 3319 as written (see `QueueRing.RawQueueReturnsStaleMessage`).
- Queues.Deposit: stores through `Queues.Put` and so through the corrected ring `QueueRing.CopyIn`, not the `VecDeque::insert` of all.rs:3306 and 3319 as written (see `QueueRing.RawQueueReturnsStaleMessage`).
- Queues.NewQueue: requires `length > 0`. all.rs:2716 computes `pcHead + uxLength - 1`, which for a length of 0 underflows a `u64`: a debug build panics, and a release build wraps and gives a queue with no slots that is always full. The ring model has no storage of no slots, so that queue is not modelled.
- Semaphores.CreateSemaphore: requires `max > 0` for a counting semaphore, for the reason given for `Queues.NewQueue`: a counting semaphore of maximum 0 is a queue of length 0, whose reset underflows at all.rs:2716.
- Queues.Deliver: uses `Queues.OverwriteAdmitted` and the ring storage instead of the inverted test of all.rs:2764 and the `VecDeque` insert of all.rs:3306 and 3319 as written (see `Queues.OverwriteAssertInverted` and `QueueRing.RawQueueReturnsStaleMessage`).
- Queues.Release: uses `MutexInheritance.PriorityDisinherit` instead of task_queue.rs:280 as written, which ranks the task by the priority it gave up (see `MutexInheritance.DisinheritAsWrittenMisranks`).
- Queues.Withdraw: uses the ring storage and `Queues.Release` instead of the `VecDeque` of all.rs:3288-3356 and task_queue.rs:280 as written; a mutex receive returns the stored message, not the holder of all.rs:3277-3299 (see `QueueRing.RawQueueReturnsStaleMessage` and `MutexInheritance.DisinheritAsWrittenMisranks`).
- Queues.Glance: uses `Queues.WakeAny` instead of all.rs:3207-3217 as written, which panics with no receiver waiting and wakes nobody otherwise (see `Queues.PeekWakeAsWritten`).
- Sporadic.BudgetCheck: promises the sum of the refills but not their order, because the overrun merge at sporadic.c:255-264 gives the merged head the delayed release time, later than the refill behind it when the first two refills overlapped (see `Sporadic.BudgetCheckUnorders` and `Sporadic.OverrunUnorders`); `Sporadic.OverrunKeepsOrder` states when the order survives.
- Sporadic.BudgetCheckAsWritten: promises no order of the refills, for the same reason as `Sporadic.BudgetCheck`.
- SchedControl.NewRefills: uses `Sporadic.RefillUpdate` instead of sporadic.c:195-202 as written, which leaves a throttled round-robin queue out of order (see `Sporadic.UpdateUnorderedWhenThrottled`).
- SchedControl.InvokeConfigure: installs `SchedControl.NewRefills` and so the corrected `Sporadic.RefillUpdate` instead of sporadic.c:174-212 as written (see `Sporadic.UpdateUnorderedWhenThrottled`).
- SchedControl.DecodeSchedControl: dispatches a configure request to `SchedControl.DecodeConfigure` instead of the wrapping `word_t` sum of schedcontrol.c:141 as written (see `SchedControl.RefillCountWraps`).
- SchedControl.DecodeThenConfigure: composes the corrected `SchedControl.DecodeConfigure` and `Sporadic.RefillUpdate` instead of schedcontrol.c:141 and sporadic.c:195-202 as written (see `SchedControl.RefillCountWraps` and `Sporadic.UpdateUnorderedWhenThrottled`).
- SchedContextMethods.ReadConsumed: uses `SchedContexts.UpdateConsumed` instead of schedcontext.c:353-363 as written, whose line 358 returns the tick limit as microseconds (see `SchedContexts.UpdateConsumedMixesUnits`).
- CNodeDecode.AdmissibleInsertKeepsLinked: proves the in-place insertion of cnode.c:336-341. The Rust decoder instead hands `invokeCNodeInsert` (CNode.rs:365-385) a fresh `Arc::new(RwLock::new(*slot))` copy of the destination slot (CNode.rs:79), and of the source slot for a transfer (CNode.rs:104), so the writes to those slots land in the copies; that aliasing is not modelled.
- CNodeDecode.AdmissibleMoveKeepsLinked: proves the in-place move of cnode.c:343-348. The Rust `invokeCNodeMove` (CNode.rs:388-402) receives the same fresh `Arc` copies of the slots (CNode.rs:79, 104), so its writes land in the copies; that aliasing is not modelled.
- CNodeDecode.AdmissibleRotateKeepsLinked: proves the rotation of cnode.c:350-361. The Rust decoder hands `invokeCNodeRotate` (CNode.rs:315-329) fresh `Arc` copies of the source, pivot and destination slots (CNode.rs:79, 225, 269), so `Arc::ptr_eq(&slot1, &slot3)` at CNode.rs:322 is never true, the swap branch for a source that is also the destination is never taken, and the writes land in the copies; the same holds for the fresh `Arc` that `capCyclicZombie` compares at CNode.rs:517. None of that aliasing is modelled.
- CNodeDecode.DecodeForSlot: its rotate branch is the C `CNodeDecode.DecodeRotate`, not CNode.rs:248-252 as written, which reports an empty pivot as a failed lookup of the source (see `CNodeDecode.RotateAsWrittenBlamesSource`).
- CNodeDecode.DecodeCNodeInvocation: composes `CNodeDecode.DecodeForSlot` and so the C rotation error instead of CNode.rs:248-252 as written (see `CNodeDecode.EmptyPivotReportedDifferently`).
- Any other member that composes one of the members above, such as the semaphore and recursive-mutex operations, inherits the same substitutions.
- ThreadLifecycle.Suspend: does not model `updateRestartPC` (thread.c:83), which copies a running thread's next instruction pointer into its restart register; registers other than the badge register are not part of the state. The MCS-only `tcbReleaseRemove` and `schedContext_cancelYieldTo` are not modelled either.
- ThreadLifecycle.Restart: does not model `setupReplyMaster` (thread.c:104), which puts a master reply capability into the thread's reply slot when none is there; the model's thread has no reply slot. The MCS branch (`schedContext_resume`, `isSchedulable`) is not modelled either.
- `get_recursive_count` and the queue-set, stream-buffer, tickless-idle and tick-hook features: outside the kernel core.
- The `u32` tick counter wraps modulo 2^32, as a release build does; a debug build's overflow panic is not modelled.
- The generic send and receive loop `loop { … }` is one pass with an `entry` flag; the caller repeats the pass after a wait, and unbounded repetition is not modelled.
- A mutex's holder is a field of the queue instead of the first storage slot that the Rust code reuses for it.
- The port layer: critical sections, context-switch requests and yields are flags in the kernel state, not machine operations.
- SMP, virtualisation (VTX) and architecture hooks: `maskInterrupt` and `ackInterrupt` only record their effect in the state.
- IPC fault transfer, `transferCaps` and the message body beyond the badge and the message info.
- Preconditions the kernel states only as Haskell-model assertions are `requires` clauses, not checked paths.
- The IRQ handler slot is written without a capability-derivation link; `resetTimer` and `handleReservedIRQ` are not modelled.
- Timer conversions are a `Clock` parameter of ticks per microsecond and its limits; `MIN_BUDGET_US` and `refill_absolute_max` come from that parameter and from the capability.
- Configuring a scheduling context runs without the `commitTime`/`checkBudget` of the running thread; unbinding a context omits the reply stack.
- `possibleSwitchTo` and `rescheduleRequired` are recorded as requests in the MCS modules, not run.
- The consumed time written into message registers is returned, not stored.
- Clearing memory when an untyped object is reset is not modelled; only the free index changes.
- The headers that define `refill_size`, `refill_capacity` and `refill_single` are not part of this model; those helpers follow sporadic.c's uses of them.
- ROUND_UP's header is not part of this model; `BootUntypeds.RoundUpPage` is the usual mask-based rounding on a 64-bit word.
- Mapping of the boot frames into the root server's address space.
- The preemption points of `finaliseSlot` and `cteRevoke`: each runs to completion.
- `CONFIG_MAX_NUM_BOOTINFO_UNTYPED_CAPS` and the root CNode's size are parameters of the state, not constants.

## Findings

| source | as written | input that shows it | evidently intended | confidence | as-written member | corrected member |
|---|---|---|---|---|---|---|
| rust_freertos/src/all.rs:3066-3073 | a wake-up replayed by `unlock_queue` calls `task_missed_yield`, which clears the pending yield | a locked queue with a counted send and a waiting receiver that outranks the running task | the replay sets the pending yield so the switch happens | medium, not executed | Queues.ReplayAsWrittenDropsYield | Queues.ReplayWake |
| rust_freertos/src/all.rs:2764 | the overwrite assertion refuses a length-1 queue and admits longer ones | an overwrite send to a queue of length 1 or of length 2 | overwrite only on a queue of length 1 | high, not executed | Queues.OverwriteAssertInverted | Queues.OverwriteAdmitted |
| rust_freertos/src/all.rs:2942-2945 | the interrupt send has no overwrite assertion, so its room test lets an overwrite of any queue through | an overwrite from an interrupt to a queue of length 2 holding a message | an overwrite needs a one-slot queue, as `xQueueGenericSendFromISR` asserts | medium, not executed | Queues.IsrOverwriteUnchecked | Queues.SendFromIsr |
| rust_freertos/src/task_queue.rs:108-130 | a `portMAX_DELAY` wait expires after a tick wrap, and an abort before the time runs out is cleared but not reported | a MAX_DELAY wait after the overflow count changed with the tick at or past the entry tick; an aborted delay not yet expired | an unbounded wait never expires, and an abort ends the wait | high, not executed | EventLists.CheckAsWrittenExpiresUnboundedWait, EventLists.CheckAsWrittenLosesAbort | EventLists.CheckForTimeout |
| rust_freertos/src/task_queue.rs:172-225 | only a holder in its ready list inherits the waiter's priority | a lower-priority holder that is delayed, suspended or itself waiting | every lower-priority holder is raised | medium, not executed | MutexInheritance.InheritAsWrittenSkipsBlockedHolder | MutexInheritance.PriorityInherit |
| rust_freertos/src/task_queue.rs:280 | giving back the last mutex ranks the event item by the inherited priority | a task holding one mutex after an inheritance, on an event list | the item is ranked by the base priority it now runs at | medium, not executed | MutexInheritance.DisinheritAsWrittenMisranks | MutexInheritance.PriorityDisinherit |
| rust_freertos/src/all.rs:5534-5545 | `switch_delayed_lists` exchanges the lists' contents, leaving items whose tasks record the other list | a tick wrap with a task in the overflow list | the list roles are exchanged and the next unblock time recomputed | high, not executed | TickInterrupt.SwitchAsWrittenMisfilesItems | TickInterrupt.SwitchDelayedLists |
| rust_freertos/src/task_control_cap.rs:1424-1498 | a running task that deletes itself is not asked to yield | the running task deletes itself with the scheduler running | the deletion asks for a yield | medium, not executed | TaskLifecycle.DeleteAsWrittenSkipsYield | TaskLifecycle.Delete |
| rust_freertos/src/all.rs:3665-3684 | giving a recursive mutex nobody holds unwraps the missing holder and panics | a free recursive mutex | the give reports failure | high, not executed | Semaphores.GiveFreeRecursive | Semaphores.GiveRecursive |
| rust_freertos/src/all.rs:3698-3729 | the holder retaking a full recursive mutex without waiting counts the level and then fails | the holder retakes its full recursive mutex with wait 0 | the retake succeeds | high, not executed | Semaphores.RetakeRecursive | Semaphores.TakeRecursive |
| rust_freertos/src/all.rs:3540-3552 | asking for a mutex's holder removes from an empty event list and panics | a mutex with no task waiting to give it | the holder is returned | high, not executed | Semaphores.HolderQueryPanics | Semaphores.GetMutexHolder |
| rust_freertos/src/all.rs:3288-3356 | the storage inserts into a `VecDeque` at the write index, shifting stale messages | length 2: send 1, receive, send 2, send 3, receive returns 1 | the queue returns messages first in, first out | high, not executed | QueueRing.RawQueueReturnsStaleMessage | QueueRing.CopyIn |
| rust_freertos/src/all.rs:3207-3217 | after a peek the receivers' list test is inverted | a peek with no receiver waiting; a peek with one waiting | a waiting receiver is woken and an empty list is left alone | high, not executed | Queues.PeekWakeAsWritten | Queues.WakeAny |
| rust_freertos/src/CSpace.rs:180-238 | the lookup loop lacks the assertion that a level resolves at least one bit | a CNode cap with radix 0 and guard 0 whose slot 0 holds that cap | the walk halts on a level that resolves nothing | medium, not executed | CSpace.ZeroLevelLoopsForever | CSpace.LevelStep |
| rust_freertos/src/types.rs:187 | the size reader sends untyped caps to the architecture hook | `UntypedCap(0x10_0000, 12, 0, false)` | an untyped cap reports its block size | medium, not executed | Capabilities.UntypedSizeCounterexample, Capabilities.SizeBitsAsWrittenLosesUntyped | Capabilities.SizeBits |
| rust_freertos/src/CNode.rs:627-651 | the parent test ignores the child's badge for endpoint caps | a badged endpoint cap and one with another badge in a slot that starts no badge group | the child must carry the same badge | medium, not executed | Mdb.ParentAsWrittenIgnoresChildBadge | Mdb.ParentOfCharacterised |
| rust_freertos/src/CNode.rs:675-693 | the finality test looks at the original right after a copy | a copy of a cap whose previous slot holds no cap to the same object | a cap with a copy is not final | medium, not executed | Mdb.FinalAsWrittenAfterCopy | Mdb.CopiedCapNotFinal |
| rust_freertos/src/CNode.rs:248-252 | an empty pivot slot is reported against the source | a rotate whose pivot slot is empty | the lookup error names the pivot | medium, not executed | CNodeDecode.RotateAsWrittenBlamesSource | CNodeDecode.DecodeRotate |
| rust_freertos/seL4_src_C/kernel/sporadic.c:195-202 | a throttled head keeps its future release time while the new tail is released now | `SchedContext(10,0,0,2,[Refill(100,50),Refill(0,0)])` updated with period 0, budget 30, 2 refills | the refills stay ordered by release time | medium, not executed | Sporadic.UpdateUnorderedWhenThrottled | Sporadic.RefillUpdate |
| rust_freertos/seL4_src_C/kernel/sporadic.c:268-270 | the budget check can reach `refill_split_check` with no usage left | `SchedContext(100,0,1,2,[Refill(0,30),Refill(5,30)])` charged 30 at time 5 | no split of an empty usage | low, not executed | Sporadic.EmptySplitReached | Sporadic.BudgetCheck |
| rust_freertos/seL4_src_C/object/schedcontext.c:353-363 | a saturated consumed counter takes `getMaxTicksToUs()` ticks from the tick counter, consistently, but line 358 returns that tick limit itself as the microsecond count | `Clock(2,100,50)` with 150 ticks consumed returns 100 for 100 ticks taken, which are 50 µs | return `ticksToUs` of the ticks taken from the counter | medium, not executed | SchedContexts.UpdateConsumedMixesUnits | SchedContexts.UpdateConsumed |
| rust_freertos/seL4_src_C/object/schedcontrol.c:141-156 | the extra-refill count plus the minimum wraps the word before the range check | extra refills `0xFFFF_FFFF_FFFF_FFFE` in `[100, 200, …, 7]` | the range check sees the unwrapped count | medium, not executed | SchedControl.RefillCountWraps | SchedControl.DecodeConfigure |
