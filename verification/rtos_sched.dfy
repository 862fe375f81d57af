/**
 * The scheduler state of the FreeRTOS-style kernel (the globals of
 * `task_global`) and the scheduler operations of `kernel.rs`: suspending and
 * resuming the scheduler, draining the pending-ready list, the tick
 * interrupt with its delayed-list wake-ups, and task selection.
 *
 * A yield request (`portYIELD`) is returned to the caller as a flag; the
 * context switch it eventually triggers is `SwitchContext`.
 */
module Scheduler {
  import opened Wrappers
  import opened Ticks
  import opened PriorityList
  import opened RtosKernel

  datatype Kernel = Kernel(
    store: Store,
    delayed: ListId,
    overflow: ListId,
    tick: Tick,
    overflows: nat,
    suspended: nat,
    pendedTicks: nat,
    yieldPending: bool,
    current: Option<TaskId>,
    topReady: nat,
    nextUnblock: Tick,
    numTasks: nat,
    running: bool,
    deletedWaiting: nat,
    taskNumber: nat)

  /** The delayed and overflow-delayed names designate the two delayed lists. */
  predicate DelayedPair(k: Kernel)
  {
    (k.delayed == DelayedA && k.overflow == DelayedB) || (k.delayed == DelayedB && k.overflow == DelayedA)
  }

  function DelayedItems(k: Kernel): seq<Item>
    requires HasSystemLists(k.store) && DelayedPair(k)
  {
    k.store.lists[k.delayed].items
  }

  function ReadyLen(st: Store, p: nat): nat
    requires HasSystemLists(st) && p < MAX_PRIORITIES
  {
    |st.lists[Ready(p)].items|
  }

  /** `next_task_unblock_time` never lies after the earliest wake time. */
  ghost predicate NextUnblockOk(k: Kernel)
    requires HasSystemLists(k.store) && DelayedPair(k)
  {
    |DelayedItems(k)| > 0 ==> k.nextUnblock <= DelayedItems(k)[0].value
  }

  /**
   * The scheduler invariant: consistent lists, delayed lists ordered by wake
   * time, the current task exists, no ready task above `top_ready_priority`,
   * and a wake-up bound that is never late.
   */
  ghost predicate KernelOk(k: Kernel)
  {
    Consistent(k.store) && DelayedPair(k)
    && Sorted(k.store.lists[k.delayed].items) && Sorted(k.store.lists[k.overflow].items)
    && (k.current.Some? ==> k.current.value in k.store.tasks)
    && k.topReady < MAX_PRIORITIES
    && (forall p: nat :: k.topReady < p < MAX_PRIORITIES ==> ReadyLen(k.store, p) == 0)
    && NextUnblockOk(k)
  }

  /** `get_current_task_priority!`, which unwraps the current task. */
  function CurrentPriority(k: Kernel): (r: Result<nat, Panic>)
    requires KernelOk(k)
    ensures r.Success? <==> k.current.Some?
    ensures r.Failure? ==> r.error == NoCurrentTask
    ensures r.Success? ==> r.value == k.store.tasks[k.current.value].priority && r.value < MAX_PRIORITIES
  {
    match k.current
    case None => Failure(NoCurrentTask)
    case Some(c) =>
      assert TaskOk(k.store, c);
      Success(k.store.tasks[c].priority)
  }

  /** Only the store changed, and only at task `u` and list `id`. */
  predicate StoreStep(k: Kernel, k': Kernel, u: TaskId, id: ListId)
  {
    k' == k.(store := k'.store) && FramedExcept(k.store, k'.store, u, id)
  }

  /** `list_remove` on one of `u`'s items, lifted to the scheduler state. */
  function UnlinkTask(k: Kernel, u: TaskId, event: bool): (r: Result<Kernel, Panic>)
    requires KernelOk(k) && u in k.store.tasks
    ensures Container(k.store.tasks[u], event).None? <==> r.Failure?
    ensures r.Failure? ==> r.error == ContainerNotSet
    ensures r.Success? ==>
              var id := Container(k.store.tasks[u], event).value;
              var k' := r.value;
              KernelOk(k') && StoreStep(k, k', u, id)
              && k'.store.tasks[u] == WithContainer(k.store.tasks[u], event, None)
              && multiset(k'.store.lists[id].items) == multiset(k.store.lists[id].items) - multiset{Item(u, ItemValue(k.store.tasks[u], event))}
              && |k'.store.lists[id].items| == |k.store.lists[id].items| - 1
              && !Contains(k'.store.lists[id], u)
  {
    var (st', _) :- Unlink(k.store, u, event);
    var k' := k.(store := st');
    RemovalKeepsKernelOk(k, k', u, Container(k.store.tasks[u], event).value);
    Success(k')
  }

  /** Removing one item from list `id` keeps the scheduler invariant. */
  lemma RemovalKeepsKernelOk(k: Kernel, k': Kernel, u: TaskId, id: ListId)
    requires KernelOk(k) && k' == k.(store := k'.store) && Consistent(k'.store)
    requires FramedExcept(k.store, k'.store, u, id) && id in k.store.lists
    requires |k.store.lists[id].items| > 0 && |k'.store.lists[id].items| == |k.store.lists[id].items| - 1
    requires Sorted(k.store.lists[id].items) ==> Sorted(k'.store.lists[id].items)
    requires Sorted(k.store.lists[id].items) && |k'.store.lists[id].items| > 0 ==>
               k'.store.lists[id].items[0].value >= k.store.lists[id].items[0].value
    requires k.current.Some? ==> k.current.value in k'.store.tasks
    ensures KernelOk(k')
  {
    var st := k.store;
    var st' := k'.store;
    ReadyLensAfterRemoval(k, k', u, id);
    if id == k.delayed {
      assert st'.lists[k.overflow] == st.lists[k.overflow];
    } else if id == k.overflow {
      assert st'.lists[k.delayed] == st.lists[k.delayed];
    } else {
      assert st'.lists[k.delayed] == st.lists[k.delayed];
      assert st'.lists[k.overflow] == st.lists[k.overflow];
    }
  }

  /** Removing an item never makes a ready list above the top ready priority non-empty. */
  lemma ReadyLensAfterRemoval(k: Kernel, k': Kernel, u: TaskId, id: ListId)
    requires KernelOk(k) && HasSystemLists(k'.store) && k'.topReady == k.topReady
    requires FramedExcept(k.store, k'.store, u, id) && id in k.store.lists
    requires |k'.store.lists[id].items| == |k.store.lists[id].items| - 1
    ensures forall p: nat :: k'.topReady < p < MAX_PRIORITIES ==> ReadyLen(k'.store, p) == 0
  {
    forall p: nat | k.topReady < p < MAX_PRIORITIES ensures ReadyLen(k'.store, p) == 0 {
      assert ReadyLen(k.store, p) == 0;
    }
  }

  /**
   * `append_task_to_ready_list`: records the priority as a ready priority
   * and links the unlinked state item at the end of its ready list.
   */
  function AppendToReady(k: Kernel, u: TaskId): (k': Kernel)
    requires KernelOk(k) && u in k.store.tasks && k.store.tasks[u].stateIn.None?
    ensures KernelOk(k')
    ensures var t := k.store.tasks[u];
            t.priority < MAX_PRIORITIES
            && k' == k.(store := k'.store, topReady := k'.topReady)
            && k'.topReady == (if t.priority > k.topReady then t.priority else k.topReady)
            && FramedExcept(k.store, k'.store, u, Ready(t.priority))
            && k'.store.tasks[u] == t.(stateIn := Some(Ready(t.priority)))
            && k'.store.lists[Ready(t.priority)] == InsertEnd(k.store.lists[Ready(t.priority)], Item(u, t.stateValue))
  {
    var t := k.store.tasks[u];
    assert TaskOk(k.store, u);
    var p := t.priority;
    var st' := LinkEnd(k.store, u, false, Ready(p));
    var k' := k.(store := st', topReady := if p > k.topReady then p else k.topReady);
    AppendKeepsKernelOk(k, u, k');
    k'
  }

  lemma AppendKeepsKernelOk(k: Kernel, u: TaskId, k': Kernel)
    requires KernelOk(k) && u in k.store.tasks && k.store.tasks[u].stateIn.None?
    requires k.store.tasks[u].priority < MAX_PRIORITIES
    requires var p := k.store.tasks[u].priority;
             k' == k.(store := LinkEnd(k.store, u, false, Ready(p)), topReady := if p > k.topReady then p else k.topReady)
    ensures KernelOk(k')
  {
    var p := k.store.tasks[u].priority;
    var st' := k'.store;
    assert Consistent(st') && HasSystemLists(st');
    forall q: nat | k'.topReady < q < MAX_PRIORITIES ensures ReadyLen(st', q) == 0 {
      assert ReadyLen(k.store, q) == 0;
    }
    assert st'.lists[k.delayed] == k.store.lists[k.delayed];
    assert st'.lists[k.overflow] == k.store.lists[k.overflow];
    assert NextUnblockOk(k');
  }

  /** `task_suspend_all`: one more level of scheduler suspension. */
  function SuspendAll(k: Kernel): (k': Kernel)
    ensures k'.suspended == k.suspended + 1
    ensures k'.(suspended := k.suspended) == k
    ensures KernelOk(k) ==> KernelOk(k')
  {
    k.(suspended := k.suspended + 1)
  }

  /**
   * `reset_next_task_unblock_time`: the wake-up bound becomes the earliest
   * wake time in the delayed list, or `portMAX_DELAY` when it is empty.
   */
  function ResetNextUnblock(k: Kernel): (k': Kernel)
    requires KernelOk(k)
    ensures KernelOk(k') && k' == k.(nextUnblock := k'.nextUnblock)
    ensures |DelayedItems(k)| == 0 ==> k'.nextUnblock == MAX_DELAY
    ensures forall i :: 0 <= i < |DelayedItems(k)| ==> k'.nextUnblock <= DelayedItems(k)[i].value
    ensures |DelayedItems(k)| > 0 ==> Item(DelayedItems(k)[0].owner, k'.nextUnblock) in DelayedItems(k)
  {
    match HeadEntry(k.store.lists[k.delayed])
    case None => k.(nextUnblock := MAX_DELAY)
    case Some(head) => k.(nextUnblock := head.value)
  }

  /**
   * The scan of `task_select_highest_priority_task`: from priority `p`
   * downwards to the first non-empty ready list, failing the assertion when
   * priority 0 is reached with nothing ready.
   */
  function HighestReadyFrom(k: Kernel, p: nat): (r: Result<nat, Panic>)
    requires HasSystemLists(k.store) && p < MAX_PRIORITIES
    ensures r.Success? ==> r.value <= p && ReadyLen(k.store, r.value) > 0
                           && forall q: nat :: r.value < q <= p ==> ReadyLen(k.store, q) == 0
    ensures r.Failure? <==> forall q: nat :: q <= p ==> ReadyLen(k.store, q) == 0
    ensures r.Failure? ==> r.error == NoReadyTask
  {
    if ReadyLen(k.store, p) > 0 then Success(p)
    else if p == 0 then Failure(NoReadyTask)
    else HighestReadyFrom(k, p - 1)
  }

  /** Replacing only list cursors keeps a store consistent. */
  lemma CursorMoveKeepsConsistent(st: Store, st': Store)
    requires Consistent(st) && st'.tasks == st.tasks && st'.lists.Keys == st.lists.Keys
    requires forall id :: id in st.lists ==> st'.lists[id].items == st.lists[id].items && Valid(st'.lists[id])
    ensures Consistent(st')
  {
    assert HasSystemLists(st');
    forall id | id in st'.lists ensures ListOk(st', id) {
      assert ListOk(st, id);
    }
    forall u | u in st'.tasks ensures TaskOk(st', u) {
      assert TaskOk(st, u);
      assert SlotOk(st, u, st.tasks[u], false) && SlotOk(st, u, st.tasks[u], true);
    }
  }

  /**
   * `task_select_highest_priority_task`: the current task becomes the next
   * entry, round robin, of the highest-priority non-empty ready list, and
   * that priority becomes the top ready priority.
   */
  function SelectHighest(k: Kernel): (r: Result<Kernel, Panic>)
    requires KernelOk(k)
    ensures r.Failure? <==> forall q: nat :: q < MAX_PRIORITIES ==> ReadyLen(k.store, q) == 0
    ensures r.Failure? ==> r.error == NoReadyTask
    ensures r.Success? ==>
              var p := r.value.topReady;
              KernelOk(r.value)
              && p <= k.topReady && ReadyLen(k.store, p) > 0
              && (forall q: nat :: p < q < MAX_PRIORITIES ==> ReadyLen(k.store, q) == 0)
    ensures r.Success? ==>
              var k' := r.value;
              var (l', next) := NextEntry(k.store.lists[Ready(k'.topReady)]);
              k' == k.(store := k'.store, current := k'.current, topReady := k'.topReady)
              && k'.store == Store(k.store.tasks, k.store.lists[Ready(k'.topReady) := l'])
              && next.Some? && k'.current == Some(next.value.owner)
  {
    var p :- HighestReadyFrom(k, k.topReady);
    var (l', next) := NextEntry(k.store.lists[Ready(p)]);
    var k' := k.(store := Store(k.store.tasks, k.store.lists[Ready(p) := l']),
                 current := Some(next.value.owner), topReady := p);
    SelectKeepsKernelOk(k, p, k');
    Success(k')
  }

  lemma SelectKeepsKernelOk(k: Kernel, p: nat, k': Kernel)
    requires KernelOk(k) && p <= k.topReady && ReadyLen(k.store, p) > 0
    requires forall q: nat :: p < q <= k.topReady ==> ReadyLen(k.store, q) == 0
    requires var (l', next) := NextEntry(k.store.lists[Ready(p)]);
             k' == k.(store := Store(k.store.tasks, k.store.lists[Ready(p) := l']),
                      current := Some(next.value.owner), topReady := p)
    ensures KernelOk(k')
  {
    var (l', next) := NextEntry(k.store.lists[Ready(p)]);
    var st' := k'.store;
    CursorMoveKeepsConsistent(k.store, st');
    assert next.value in multiset(k.store.lists[Ready(p)].items);
    assert ListOk(k.store, Ready(p));
    assert ItemOk(k.store, Ready(p), next.value);
    assert HasSystemLists(st');
    forall q: nat | p < q < MAX_PRIORITIES ensures ReadyLen(st', q) == 0 {
      assert Ready(q) != Ready(p);
      assert ReadyLen(k.store, q) == 0;
    }
    assert st'.lists[k.delayed] == k.store.lists[k.delayed];
    assert st'.lists[k.overflow] == k.store.lists[k.overflow];
  }

  /**
   * `task_switch_context`: while the scheduler is suspended only a yield is
   * left pending; otherwise the pending yield is cleared and the highest
   * priority ready task is selected.
   */
  function SwitchContext(k: Kernel): (r: Result<Kernel, Panic>)
    requires KernelOk(k)
    ensures k.suspended > 0 ==> r == Success(k.(yieldPending := true))
    ensures k.suspended == 0 ==> r == SelectHighest(k.(yieldPending := false))
    ensures r.Success? ==> KernelOk(r.value)
  {
    if k.suspended > 0 then Success(k.(yieldPending := true))
    else SelectHighest(k.(yieldPending := false))
  }

  /** The invariant only looks at the lists and the fields that index them. */
  lemma KernelOkFields(k: Kernel, k': Kernel)
    requires KernelOk(k)
    requires k'.store == k.store && k'.delayed == k.delayed && k'.overflow == k.overflow
    requires k'.current == k.current && k'.topReady == k.topReady && k'.nextUnblock == k.nextUnblock
    ensures KernelOk(k')
  {
  }

  /** The tasks whose event item waits on the pending-ready list. */
  ghost predicate IsPending(k: Kernel, w: TaskId)
  {
    w in k.store.tasks && k.store.tasks[w].eventIn == Some(PendingReady)
  }

  /** The head of a non-empty list is linked there by its owner. */
  lemma HeadIsLinked(st: Store, id: ListId)
    requires Consistent(st) && id in st.lists && |st.lists[id].items| > 0
    ensures var it := st.lists[id].items[0];
            it.owner in st.tasks && Container(st.tasks[it.owner], HoldsEventItems(id)) == Some(id)
            && it == ItemFor(it.owner, st.tasks[it.owner], id)
  {
    assert st.lists[id].items[0] in multiset(st.lists[id].items);
    assert ListOk(st, id);
  }

  /**
   * Unlinks the state item and then, if `event` is set, the event item of
   * `u`; panics when an item to unlink has no container.
   */
  function Detach(k: Kernel, u: TaskId, event: bool): (r: Result<Kernel, Panic>)
    requires KernelOk(k) && u in k.store.tasks
    ensures var t := k.store.tasks[u];
            r.Failure? <==> t.stateIn.None? || (event && t.eventIn.None?)
    ensures r.Failure? ==> r.error == ContainerNotSet
    ensures r.Success? ==>
              var t := k.store.tasks[u];
              var k' := r.value;
              KernelOk(k') && k' == k.(store := k'.store)
              && k'.store.tasks.Keys == k.store.tasks.Keys && k'.store.lists.Keys == k.store.lists.Keys
              && k'.store.tasks[u] == t.(stateIn := None, eventIn := if event then None else t.eventIn)
              && (forall w :: w in k.store.tasks && w != u ==> k'.store.tasks[w] == k.store.tasks[w])
              && (forall id :: id in k.store.lists && Some(id) != t.stateIn && (!event || Some(id) != t.eventIn) ==>
                    k'.store.lists[id] == k.store.lists[id])
              && (event ==> |k'.store.lists[t.eventIn.value].items| == |k.store.lists[t.eventIn.value].items| - 1)
              && |k'.store.lists[t.stateIn.value].items| == |k.store.lists[t.stateIn.value].items| - 1
  {
    var t := k.store.tasks[u];
    var k1 :- UnlinkTask(k, u, false);
    if !event then Success(k1)
    else
      assert TaskOk(k.store, u);
      assert SlotOk(k.store, u, t, false) && SlotOk(k.store, u, t, true);
      var k2 :- UnlinkTask(k1, u, true);
      DetachFrame(k, k1, k2, u);
      Success(k2)
  }

  lemma DetachFrame(k: Kernel, k1: Kernel, k2: Kernel, u: TaskId)
    requires u in k.store.tasks && k.store.tasks[u].stateIn.Some? && k.store.tasks[u].eventIn.Some?
    requires k.store.tasks[u].stateIn != k.store.tasks[u].eventIn && k.store.tasks[u].eventIn.value in k.store.lists
    requires FramedExcept(k.store, k1.store, u, k.store.tasks[u].stateIn.value)
    requires FramedExcept(k1.store, k2.store, u, k.store.tasks[u].eventIn.value)
    requires |k2.store.lists[k.store.tasks[u].eventIn.value].items| == |k1.store.lists[k.store.tasks[u].eventIn.value].items| - 1
    requires k.store.tasks[u].stateIn.value in k.store.lists
    requires |k1.store.lists[k.store.tasks[u].stateIn.value].items| == |k.store.lists[k.store.tasks[u].stateIn.value].items| - 1
    ensures var t := k.store.tasks[u];
            |k2.store.lists[t.stateIn.value].items| == |k.store.lists[t.stateIn.value].items| - 1
    ensures var t := k.store.tasks[u];
            (forall id :: id in k.store.lists && Some(id) != t.stateIn && Some(id) != t.eventIn ==>
               k2.store.lists[id] == k.store.lists[id])
            && |k2.store.lists[t.eventIn.value].items| == |k.store.lists[t.eventIn.value].items| - 1
  {
  }

  /**
   * One iteration of `move_tasks_to_ready_list`: the head of the
   * pending-ready list leaves both of its lists, is appended to its ready
   * list, and leaves a yield pending if its priority is at least the current
   * task's.
   */
  function MoveOne(k: Kernel): (r: Result<Kernel, Panic>)
    requires KernelOk(k) && |k.store.lists[PendingReady].items| > 0
    ensures var u := k.store.lists[PendingReady].items[0].owner;
            u in k.store.tasks && IsPending(k, u)
            && (r.Failure? <==> k.store.tasks[u].stateIn.None? || k.current.None?)
            && (r.Failure? ==> r.error == ContainerNotSet || r.error == NoCurrentTask)
    ensures r.Success? ==>
              var u := k.store.lists[PendingReady].items[0].owner;
              var t := k.store.tasks[u];
              var k' := r.value;
              KernelOk(k')
              && |k'.store.lists[PendingReady].items| == |k.store.lists[PendingReady].items| - 1
              && k'.store.tasks.Keys == k.store.tasks.Keys && k'.store.lists.Keys == k.store.lists.Keys
              && k'.store.tasks[u] == t.(stateIn := Some(Ready(t.priority)), eventIn := None)
              && (forall w :: w in k.store.tasks && w != u ==> k'.store.tasks[w] == k.store.tasks[w])
              && k' == k.(store := k'.store, topReady := k'.topReady, yieldPending := k'.yieldPending)
              && k.current.Some?
              && k'.yieldPending == (k.yieldPending || t.priority >= k.store.tasks[k.current.value].priority)
  {
    var u := k.store.lists[PendingReady].items[0].owner;
    HeadIsLinked(k.store, PendingReady);
    var t := k.store.tasks[u];
    var d := Detach(k, u, true);
    if d.Failure? then Failure(d.error)
    else if k.current.None? then Failure(NoCurrentTask)
    else
      var k3 := AppendToReady(d.value, u);
      MoveOneFrame(k, d.value, k3, u);
      var cur := k.store.tasks[k.current.value].priority;
      var k4 := k3.(yieldPending := k.yieldPending || t.priority >= cur);
      KernelOkFields(k3, k4);
      Success(k4)
  }

  lemma MoveOneFrame(k: Kernel, k2: Kernel, k3: Kernel, u: TaskId)
    requires u in k.store.tasks && k.store.tasks[u].eventIn == Some(PendingReady)
    requires k.store.tasks[u].stateIn.Some? && k.store.tasks[u].priority < MAX_PRIORITIES
    requires HasSystemLists(k.store) && HasSystemLists(k2.store)
    requires k2 == k.(store := k2.store) && k2.store.tasks.Keys == k.store.tasks.Keys
    requires k2.store.lists.Keys == k.store.lists.Keys
    requires k2.store.tasks[u] == k.store.tasks[u].(stateIn := None, eventIn := None)
    requires forall w :: w in k.store.tasks && w != u ==> k2.store.tasks[w] == k.store.tasks[w]
    requires |k2.store.lists[PendingReady].items| == |k.store.lists[PendingReady].items| - 1
    requires k3 == k2.(store := k3.store, topReady := k3.topReady)
    requires FramedExcept(k2.store, k3.store, u, Ready(k.store.tasks[u].priority))
    requires k3.store.tasks[u] == k2.store.tasks[u].(stateIn := Some(Ready(k.store.tasks[u].priority)))
    ensures var t := k.store.tasks[u];
            |k3.store.lists[PendingReady].items| == |k.store.lists[PendingReady].items| - 1
            && k3.store.tasks.Keys == k.store.tasks.Keys && k3.store.lists.Keys == k.store.lists.Keys
            && k3.store.tasks[u] == t.(stateIn := Some(Ready(t.priority)), eventIn := None)
            && (forall w :: w in k.store.tasks && w != u ==> k3.store.tasks[w] == k.store.tasks[w])
            && k3 == k.(store := k3.store, topReady := k3.topReady)
  {
  }

  /** A task as `move_tasks_to_ready_list` leaves it: ready, off every event list. */
  function Readied(t: Tcb): Tcb
  {
    t.(stateIn := Some(Ready(t.priority)), eventIn := None)
  }

  /** The pending-ready list is non-empty exactly when some task's event item waits there. */
  lemma PendingListNonEmpty(k: Kernel)
    requires KernelOk(k)
    ensures |k.store.lists[PendingReady].items| > 0 <==> exists w :: IsPending(k, w)
  {
    if |k.store.lists[PendingReady].items| > 0 {
      HeadIsLinked(k.store, PendingReady);
      assert IsPending(k, k.store.lists[PendingReady].items[0].owner);
    }
    if w :| IsPending(k, w) {
      assert TaskOk(k.store, w);
      assert SlotOk(k.store, w, k.store.tasks[w], true);
    }
  }

  /**
   * `move_tasks_to_ready_list`: drains the pending-ready list head first and
   * reports whether anything was moved.
   */
  function MoveTasks(k: Kernel): (r: Result<(Kernel, bool), Panic>)
    requires KernelOk(k)
    decreases |k.store.lists[PendingReady].items|
    ensures r.Success? ==> KernelOk(r.value.0) && |r.value.0.store.lists[PendingReady].items| == 0
                           && r.value.1 == (|k.store.lists[PendingReady].items| > 0)
    ensures r.Failure? ==> r.error == ContainerNotSet || r.error == NoCurrentTask
  {
    if |k.store.lists[PendingReady].items| == 0 then Success((k, false))
    else
      var k1 :- MoveOne(k);
      var (k2, _) :- MoveTasks(k1);
      Success((k2, true))
  }

  /** After one move the pending tasks are the earlier ones less the moved head. */
  lemma MoveOnePending(k: Kernel, k1: Kernel, u: TaskId)
    requires u in k.store.tasks && k1.store.tasks.Keys == k.store.tasks.Keys
    requires k1.store.tasks[u].eventIn.None?
    requires forall w :: w in k.store.tasks && w != u ==> k1.store.tasks[w] == k.store.tasks[w]
    ensures forall w :: IsPending(k1, w) <==> IsPending(k, w) && w != u
  {
  }

  /**
   * Draining panics exactly when a pending task has no state item to unlink
   * or a task is moved while there is no current task.
   */
  lemma {:induction false} MoveTasksFailure(k: Kernel)
    requires KernelOk(k)
    decreases |k.store.lists[PendingReady].items|
    ensures MoveTasks(k).Failure? <==>
              (exists w :: IsPending(k, w) && k.store.tasks[w].stateIn.None?)
              || (|k.store.lists[PendingReady].items| > 0 && k.current.None?)
  {
    if |k.store.lists[PendingReady].items| == 0 {
      PendingListNonEmpty(k);
    } else {
      var u := k.store.lists[PendingReady].items[0].owner;
      var m := MoveOne(k);
      if m.Failure? {
        assert MoveTasks(k).Failure?;
        assert IsPending(k, u);
      } else {
        var k1 := m.value;
        assert MoveTasks(k).Failure? == MoveTasks(k1).Failure?;
        MoveTasksFailure(k1);
        MoveOnePending(k, k1, k.store.lists[PendingReady].items[0].owner);
        StuckPendingAfterMove(k, k1, u);
      }
    }
  }

  lemma StuckPendingAfterMove(k: Kernel, k1: Kernel, u: TaskId)
    requires u in k.store.tasks && k.store.tasks[u].stateIn.Some? && k1.store.tasks.Keys == k.store.tasks.Keys
    requires forall w :: w in k.store.tasks && w != u ==> k1.store.tasks[w] == k.store.tasks[w]
    requires forall w :: IsPending(k1, w) <==> IsPending(k, w) && w != u
    ensures (exists w :: IsPending(k1, w) && k1.store.tasks[w].stateIn.None?)
            <==> (exists w :: IsPending(k, w) && k.store.tasks[w].stateIn.None?)
  {
    if w :| IsPending(k, w) && k.store.tasks[w].stateIn.None? {
      assert IsPending(k1, w);
    }
  }

  /**
   * Draining readies exactly the tasks that were pending and touches no other
   * task or scheduler field but the top ready priority and the yield flag.
   */
  lemma {:induction false} MoveTasksReadies(k: Kernel)
    requires KernelOk(k)
    decreases |k.store.lists[PendingReady].items|
    ensures MoveTasks(k).Success? ==> ReadiedPending(k, MoveTasks(k).value.0)
  {
    if |k.store.lists[PendingReady].items| > 0 && MoveTasks(k).Success? {
      var u := k.store.lists[PendingReady].items[0].owner;
      MoveTasksStep(k);
      var k1 := MoveOne(k).value;
      var k2 := MoveTasks(k1).value.0;
      MoveTasksReadies(k1);
      MoveOnePending(k, k1, k.store.lists[PendingReady].items[0].owner);
      ReadiedCompose(k, k1, k2, u);
    }
  }

  /** A drain that succeeds moves the head and then drains the rest. */
  lemma MoveTasksStep(k: Kernel)
    requires KernelOk(k) && |k.store.lists[PendingReady].items| > 0 && MoveTasks(k).Success?
    ensures MoveOne(k).Success? && MoveTasks(MoveOne(k).value).Success?
    ensures MoveTasks(k).value.0 == MoveTasks(MoveOne(k).value).value.0
  {
  }

  /** `k'` is `k` with its pending tasks readied. */
  ghost predicate ReadiedPending(k: Kernel, k': Kernel)
  {
    k' == k.(store := k'.store, topReady := k'.topReady, yieldPending := k'.yieldPending)
    && k'.store.tasks.Keys == k.store.tasks.Keys && k'.store.lists.Keys == k.store.lists.Keys
    && forall w :: w in k.store.tasks ==>
         k'.store.tasks[w] == if IsPending(k, w) then Readied(k.store.tasks[w]) else k.store.tasks[w]
  }

  lemma ReadiedCompose(k: Kernel, k1: Kernel, k2: Kernel, u: TaskId)
    requires IsPending(k, u)
    requires k1 == k.(store := k1.store, topReady := k1.topReady, yieldPending := k1.yieldPending)
    requires k1.store.tasks.Keys == k.store.tasks.Keys && k1.store.lists.Keys == k.store.lists.Keys
    requires k1.store.tasks[u] == Readied(k.store.tasks[u])
    requires forall w :: w in k.store.tasks && w != u ==> k1.store.tasks[w] == k.store.tasks[w]
    requires forall w :: IsPending(k1, w) <==> IsPending(k, w) && w != u
    requires ReadiedPending(k1, k2)
    ensures ReadiedPending(k, k2)
  {
    assert !IsPending(k1, u);
  }

  /**
   * After draining a yield is pending exactly when one was before or some
   * pending task had at least the current task's priority.
   */
  lemma {:induction false} MoveTasksYield(k: Kernel)
    requires KernelOk(k)
    decreases |k.store.lists[PendingReady].items|
    ensures MoveTasks(k).Success? ==>
              MoveTasks(k).value.0.yieldPending == (k.yieldPending || PendingOutranks(k))
  {
    if |k.store.lists[PendingReady].items| == 0 {
      PendingListNonEmpty(k);
    } else if MoveTasks(k).Success? {
      var u := k.store.lists[PendingReady].items[0].owner;
      var k1 := MoveOne(k).value;
      var k2 := MoveTasks(k1).value.0;
      assert MoveTasks(k).value.0 == k2;
      MoveTasksYield(k1);
      MoveOnePending(k, k1, k.store.lists[PendingReady].items[0].owner);
      OutranksAfterMove(k, k1, u);
    }
  }

  /** Some pending task has at least the current task's priority. */
  ghost predicate PendingOutranks(k: Kernel)
  {
    k.current.Some? && k.current.value in k.store.tasks
    && exists w :: IsPending(k, w) && k.store.tasks[w].priority >= k.store.tasks[k.current.value].priority
  }

  lemma OutranksAfterMove(k: Kernel, k1: Kernel, u: TaskId)
    requires IsPending(k, u) && k.current.Some? && k.current.value in k.store.tasks
    requires k1.current == k.current && k1.store.tasks.Keys == k.store.tasks.Keys
    requires k1.store.tasks[u].priority == k.store.tasks[u].priority
    requires forall w :: w in k.store.tasks && w != u ==> k1.store.tasks[w] == k.store.tasks[w]
    requires forall w :: IsPending(k1, w) <==> IsPending(k, w) && w != u
    requires k1.yieldPending == (k.yieldPending || k.store.tasks[u].priority >= k.store.tasks[k.current.value].priority)
    ensures (k1.yieldPending || PendingOutranks(k1)) == (k.yieldPending || PendingOutranks(k))
  {
    var c := k.current.value;
    assert k1.store.tasks[c].priority == k.store.tasks[c].priority;
    if w :| IsPending(k, w) && k.store.tasks[w].priority >= k.store.tasks[c].priority {
      if w != u {
        assert IsPending(k1, w);
      }
    }
  }
}
