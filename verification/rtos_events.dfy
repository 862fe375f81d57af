/**
 * The event-list services of `task_queue.rs`: waking the most urgent waiter
 * of an event list, the timeout bookkeeping of blocking calls, and placing the
 * current task on an event list.
 */
module EventLists {
  import opened Wrappers
  import opened Ticks
  import opened PriorityList
  import opened RtosKernel
  import opened Scheduler
  import opened TaskLifecycle

  /**
   * `taskEVENT_LIST_ITEM_VALUE_IN_USE` for 32-bit ticks: an event item value
   * with this bit set is borrowed by another module and must not be
   * overwritten with a priority.
   */
  const VALUE_IN_USE: Tick := 0x8000_0000

  /** The lists a task can wait on for a queue event. */
  predicate IsEventList(id: ListId)
  {
    id.WaitingToSend? || id.WaitingToReceive?
  }

  /** The event item value that ranks a task of priority `p` on event lists. */
  function RankValue(p: nat): (v: Tick)
    requires p < MAX_PRIORITIES
    ensures 0 < v <= MAX_PRIORITIES
  {
    MAX_PRIORITIES - p
  }

  /** A higher priority gives a smaller, hence earlier, event item value. */
  lemma RankValueOrdersByPriority(p: nat, q: nat)
    requires p < MAX_PRIORITIES && q < MAX_PRIORITIES
    ensures RankValue(p) <= RankValue(q) <==> q <= p
  {
  }

  /** `list::set_list_item_value` on the event item of `u`, lifted to the scheduler state. */
  function SetEventValue(k: Kernel, u: TaskId, v: Tick): (k': Kernel)
    requires KernelOk(k) && u in k.store.tasks
    ensures KernelOk(k') && k' == k.(store := k'.store)
    ensures k'.store.tasks.Keys == k.store.tasks.Keys && k'.store.lists.Keys == k.store.lists.Keys
    ensures k'.store.tasks[u] == k.store.tasks[u].(eventValue := v)
    ensures forall w :: w in k.store.tasks && w != u ==> k'.store.tasks[w] == k.store.tasks[w]
  {
    var k' := k.(store := SetItemValue(k.store, u, true, v));
    EventValueKeepsKernelOk(k, u, v, k');
    k'
  }

  /** Event items live in lists the scheduler invariant does not order, so their values are free. */
  lemma EventValueKeepsKernelOk(k: Kernel, u: TaskId, v: Tick, k': Kernel)
    requires KernelOk(k) && u in k.store.tasks
    requires k' == k.(store := SetItemValue(k.store, u, true, v))
    ensures KernelOk(k')
  {
    var id := if k.store.tasks[u].eventIn.Some? then k.store.tasks[u].eventIn.value else PendingReady;
    assert TaskOk(k.store, u);
    assert HoldsEventItems(id);
    PassiveChangeKeepsShape(k, k', id);
  }

  /** `list_insert_end` of the unlinked event item of `u` into an event-holding list. */
  function ParkEvent(k: Kernel, u: TaskId, id: ListId): (k': Kernel)
    requires KernelOk(k) && u in k.store.tasks && k.store.tasks[u].eventIn.None?
    requires HoldsEventItems(id) && id in k.store.lists
    ensures KernelOk(k') && StoreStep(k, k', u, id)
    ensures k'.store.tasks[u] == k.store.tasks[u].(eventIn := Some(id))
    ensures k'.store.lists[id] == InsertEnd(k.store.lists[id], Item(u, k.store.tasks[u].eventValue))
  {
    assert ListOk(k.store, id);
    var k' := k.(store := LinkEnd(k.store, u, true, id));
    PassiveChangeKeepsKernelOk(k, k', u, id);
    k'
  }

  /**
   * What releasing the task `u` keeps: the invariant, every field of the
   * kernel but the store and the top ready priority, every other task, and
   * every event list.
   */
  ghost predicate ReleaseFrame(k: Kernel, k': Kernel, u: TaskId)
    requires u in k.store.tasks
  {
    KernelOk(k') && k' == k.(store := k'.store, topReady := k'.topReady)
    && k'.store.tasks.Keys == k.store.tasks.Keys
    && (forall w :: w in k.store.tasks && w != u ==> k'.store.tasks[w] == k.store.tasks[w])
    && k'.store.lists.Keys == k.store.lists.Keys
    && (forall id :: id in k.store.lists && IsEventList(id) ==> k'.store.lists[id] == k.store.lists[id])
  }

  /** With the scheduler running, the released task leaves its delayed or suspended list for its ready list. */
  function ReleaseToReady(k: Kernel, u: TaskId): (r: Result<Kernel, Panic>)
    requires KernelOk(k) && u in k.store.tasks && k.store.tasks[u].eventIn.None? && k.suspended == 0
    ensures r.Failure? <==> k.store.tasks[u].stateIn.None?
    ensures r.Failure? ==> r.error == ContainerNotSet
    ensures r.Success? ==> ReleaseFrame(k, r.value, u) && r.value.store.tasks[u] == Readied(k.store.tasks[u])
  {
    var r := Requeue(k, u);
    if r.Success? then RequeueReleases(k, u); r else r
  }

  /** A successful `Requeue` of a task waiting on no event list is a release. */
  lemma RequeueReleases(k: Kernel, u: TaskId)
    requires KernelOk(k) && u in k.store.tasks && k.store.tasks[u].eventIn.None? && Requeue(k, u).Success?
    ensures ReleaseFrame(k, Requeue(k, u).value, u) && Requeue(k, u).value.store.tasks[u] == Readied(k.store.tasks[u])
  {
    RequeueKeepsEventLists(k, u);
  }

  /** With the scheduler suspended, the released task's event item is parked on the pending-ready list. */
  function ParkReleased(k: Kernel, u: TaskId): (k': Kernel)
    requires KernelOk(k) && u in k.store.tasks && k.store.tasks[u].eventIn.None? && k.suspended > 0
    ensures ReleaseFrame(k, k', u) && k'.store.tasks[u] == k.store.tasks[u].(eventIn := Some(PendingReady))
  {
    var k' := ParkEvent(k, u, PendingReady);
    KernelOkFields(k', k'.(topReady := k.topReady));
    k'
  }

  /**
   * What `task_remove_from_event_list` does with the task `u` whose event
   * item it has just unlinked: with the scheduler running the task leaves
   * its delayed or suspended list for its ready list; with the scheduler
   * suspended the ready lists may not be touched, so the event item is
   * parked on the pending-ready list instead.
   */
  function Release(k: Kernel, u: TaskId): (r: Result<Kernel, Panic>)
    requires KernelOk(k) && u in k.store.tasks && k.store.tasks[u].eventIn.None?
    ensures r.Failure? <==> k.suspended == 0 && k.store.tasks[u].stateIn.None?
    ensures r.Failure? ==> r.error == ContainerNotSet
    ensures r.Success? ==> ReleaseFrame(k, r.value, u)
    ensures r.Success? && k.suspended == 0 ==> r.value.store.tasks[u] == Readied(k.store.tasks[u])
    ensures r.Success? && k.suspended > 0 ==> r.value.store.tasks[u] == k.store.tasks[u].(eventIn := Some(PendingReady))
  {
    if k.suspended == 0 then ReleaseToReady(k, u)
    else Success(ParkReleased(k, u))
  }

  /**
   * `task_remove_from_event_list`: the owner of the head of the event list
   * (its most urgent waiter) leaves the list and is released; the flag says
   * whether it outranks the current task, and then a yield is also left
   * pending.  An empty list has no owner to wake.
   */
  function RemoveFromEventList(k: Kernel, id: ListId): (r: Result<(Kernel, bool), Panic>)
    requires KernelOk(k) && IsEventList(id) && id in k.store.lists
    ensures |k.store.lists[id].items| == 0 ==> r == Failure(OwnerNotSet)
    ensures |k.store.lists[id].items| > 0 ==>
              var u := k.store.lists[id].items[0].owner;
              u in k.store.tasks && k.store.tasks[u].eventIn == Some(id)
              && (r.Failure? <==> (k.suspended == 0 && k.store.tasks[u].stateIn.None?) || k.current.None?)
    ensures r.Failure? ==> r.error in {OwnerNotSet, ContainerNotSet, NoCurrentTask}
    ensures r.Success? ==>
              var u := k.store.lists[id].items[0].owner;
              var t := k.store.tasks[u];
              var k' := r.value.0;
              KernelOk(k') && k'.current == k.current && k.current.Some?
              && k'.suspended == k.suspended && k'.tick == k.tick
              && k'.store.tasks.Keys == k.store.tasks.Keys
              && (forall w :: w in k.store.tasks && w != u ==> k'.store.tasks[w] == k.store.tasks[w])
              && (k.suspended == 0 ==> k'.store.tasks[u] == Readied(t))
              && (k.suspended > 0 ==> k'.store.tasks[u] == t.(eventIn := Some(PendingReady)))
              && r.value.1 == (t.priority > k.store.tasks[k.current.value].priority)
              && k'.yieldPending == (k.yieldPending || r.value.1)
  {
    var l := k.store.lists[id];
    if |l.items| == 0 then Failure(OwnerNotSet)
    else
      var u := l.items[0].owner;
      HeadIsLinked(k.store, id);
      match UnlinkTask(k, u, true)
      case Failure(e) => Failure(e)
      case Success(k1) =>
        match Release(k1, u)
        case Failure(e) => Failure(e)
        case Success(k2) =>
          match k.current
          case None => Failure(NoCurrentTask)
          case Some(c) =>
            assert TaskOk(k.store, c) && TaskOk(k.store, u);
            var higher := k.store.tasks[u].priority > k.store.tasks[c].priority;
            var k3 := k2.(yieldPending := k.yieldPending || higher);
            KernelOkFields(k2, k3);
            Success((k3, higher))
  }

  /**
   * Waking a waiter takes exactly one item off its event list, creates or
   * destroys no list, and leaves every other queue waiting list alone.
   */
  lemma RemoveFromEventListFrame(k: Kernel, id: ListId)
    requires KernelOk(k) && IsEventList(id) && id in k.store.lists
    requires RemoveFromEventList(k, id).Success?
    ensures var k' := RemoveFromEventList(k, id).value.0;
            k'.store.lists.Keys == k.store.lists.Keys
            && |k'.store.lists[id].items| == |k.store.lists[id].items| - 1
            && forall id2 :: id2 in k.store.lists && IsEventList(id2) && id2 != id ==>
                 k'.store.lists[id2] == k.store.lists[id2]
  {
    var u := k.store.lists[id].items[0].owner;
    HeadIsLinked(k.store, id);
  }

  /** Readying a task touches its old state list and its ready list, neither an event list. */
  lemma RequeueKeepsEventLists(k: Kernel, u: TaskId)
    requires KernelOk(k) && u in k.store.tasks && Requeue(k, u).Success?
    ensures forall id :: id in k.store.lists && IsEventList(id) ==> Requeue(k, u).value.store.lists[id] == k.store.lists[id]
  {
    forall id | id in k.store.lists && IsEventList(id)
      ensures Requeue(k, u).value.store.lists[id] == k.store.lists[id]
    {
      RequeueKeepsEventList(k, u, id);
    }
  }

  lemma RequeueKeepsEventList(k: Kernel, u: TaskId, id: ListId)
    requires KernelOk(k) && u in k.store.tasks && Requeue(k, u).Success?
    requires IsEventList(id) && id in k.store.lists
    ensures Requeue(k, u).value.store.lists[id] == k.store.lists[id]
  {
    var t := k.store.tasks[u];
    assert TaskOk(k.store, u) && SlotOk(k.store, u, t, false);
    var k1 := UnlinkTask(k, u, false).value;
    var k2 := AppendToReady(k1, u);
  }

  /**
   * The task an event wakes is the most urgent waiter: while the event list
   * is ordered and its waiters' values are their rank values, no waiter has
   * a higher priority than the one at the head.
   */
  lemma WokenIsMostUrgent(k: Kernel, id: ListId)
    requires KernelOk(k) && IsEventList(id) && id in k.store.lists && |k.store.lists[id].items| > 0
    requires Sorted(k.store.lists[id].items)
    requires forall w :: w in k.store.tasks && k.store.tasks[w].eventIn == Some(id) ==>
               k.store.tasks[w].priority < MAX_PRIORITIES && k.store.tasks[w].eventValue == RankValue(k.store.tasks[w].priority)
    ensures var u := k.store.lists[id].items[0].owner;
            u in k.store.tasks
            && forall w :: w in k.store.tasks && k.store.tasks[w].eventIn == Some(id) ==>
                 k.store.tasks[w].priority <= k.store.tasks[u].priority
  {
    var l := k.store.lists[id];
    HeadIsLinked(k.store, id);
    var u := l.items[0].owner;
    forall w | w in k.store.tasks && k.store.tasks[w].eventIn == Some(id)
      ensures k.store.tasks[w].priority <= k.store.tasks[u].priority
    {
      assert TaskOk(k.store, w);
      assert SlotOk(k.store, w, k.store.tasks[w], true);
      var it := Item(w, k.store.tasks[w].eventValue);
      assert it in multiset(l.items);
      var i :| 0 <= i < |l.items| && l.items[i] == it;
      assert l.items[0].value <= l.items[i].value;
      RankValueOrdersByPriority(k.store.tasks[u].priority, k.store.tasks[w].priority);
    }
  }

  /**
   * A release deferred while the scheduler is suspended completes when the
   * pending-ready list is drained: the woken task ends up ready.
   */
  lemma DeferredReleaseReadies(k: Kernel, id: ListId)
    requires KernelOk(k) && IsEventList(id) && id in k.store.lists && k.suspended > 0
    requires RemoveFromEventList(k, id).Success?
    ensures var u := k.store.lists[id].items[0].owner;
            var k' := RemoveFromEventList(k, id).value.0;
            MoveTasks(k').Success? ==>
              var k'' := MoveTasks(k').value.0;
              u in k''.store.tasks && k''.store.tasks[u] == Readied(k.store.tasks[u])
  {
    var k' := RemoveFromEventList(k, id).value.0;
    MoveTasksReadies(k');
  }

  /** `time_out`: the overflow count and the tick count when a timed wait began. */
  datatype TimeOut = TimeOut(overflows: nat, entered: Tick)

  /** `task_set_time_out_state`: records the present overflow count and tick count. */
  function SetTimeOutState(k: Kernel): (to: TimeOut)
    ensures to.overflows == k.overflows && to.entered == k.tick
  {
    TimeOut(k.overflows, k.tick)
  }

  /**
   * The outcome of `task_check_for_timeout`: the kernel (the current task's
   * delay-aborted flag may be cleared), the possibly re-armed time-out, the
   * ticks still to wait, and whether the wait is over.
   */
  datatype Check = Check(kernel: Kernel, timeOut: TimeOut, remaining: Tick, expired: bool)

  /** Clears the current task's delay-aborted flag when it is set. */
  function ClearAbort(k: Kernel, c: TaskId): (k': Kernel)
    requires KernelOk(k) && c in k.store.tasks
    ensures KernelOk(k') && k' == k.(store := k'.store) && k'.store.lists == k.store.lists
    ensures k'.store.tasks.Keys == k.store.tasks.Keys
    ensures k'.store.tasks[c] == k.store.tasks[c].(delayAborted := false)
    ensures forall w :: w in k.store.tasks && w != c ==> k'.store.tasks[w] == k.store.tasks[w]
  {
    assert TaskOk(k.store, c);
    if k.store.tasks[c].delayAborted then UpdateTask(k, c, k.store.tasks[c].(delayAborted := false)) else k
  }

  /**
   * The tick-count test shared by both readings of the check: the wait is
   * over when the tick count wrapped since the time-out was taken and has
   * come back to the entry tick, or when the ticks elapsed since entry (mod
   * 2^32) reach the ticks to wait; otherwise the remaining wait shrinks by
   * the elapsed ticks and the time-out is re-armed at the present tick.
   */
  function Elapse(k: Kernel, k1: Kernel, to: TimeOut, wait: Tick): (r: Check)
    ensures r.kernel == k1
    ensures r.expired ==> r.timeOut == to && r.remaining == wait
    ensures !r.expired ==>
              r.timeOut == SetTimeOutState(k) && 0 < r.remaining <= wait
              && AddTick(r.timeOut.entered, r.remaining) == AddTick(to.entered, wait)
    ensures k.overflows == to.overflows && to.entered <= k.tick ==> (r.expired <==> to.entered + wait <= k.tick)
  {
    var elapsed := SubTick(k.tick, to.entered);
    if k.overflows != to.overflows && k.tick >= to.entered then Check(k1, to, wait, true)
    else if elapsed < wait then Check(k1, SetTimeOutState(k), wait - elapsed, false)
    else Check(k1, to, wait, true)
  }

  /**
   * `task_check_for_timeout` as written: the delay-aborted and
   * `portMAX_DELAY` cases assign a result that the following tick-count
   * test always overwrites, so an abort only clears its flag and an
   * unbounded wait can expire.
   */
  function CheckForTimeoutAsWritten(k: Kernel, to: TimeOut, wait: Tick): (r: Result<Check, Panic>)
    requires KernelOk(k)
    ensures r.Failure? <==> k.current.None?
    ensures r.Failure? ==> r.error == NoCurrentTask
    ensures r.Success? ==>
              KernelOk(r.value.kernel) && k.current.Some? && k.current.value in r.value.kernel.store.tasks
              && !r.value.kernel.store.tasks[k.current.value].delayAborted
  {
    match k.current
    case None => Failure(NoCurrentTask)
    case Some(c) => Success(Elapse(k, ClearAbort(k, c), to, wait))
  }

  /**
   * `task_check_for_timeout` as FreeRTOS's `xTaskCheckForTimeOut` orders
   * it: an aborted delay ends the wait (clearing the flag), a
   * `portMAX_DELAY` wait never expires, and only then is the tick count
   * consulted.
   */
  function CheckForTimeout(k: Kernel, to: TimeOut, wait: Tick): (r: Result<Check, Panic>)
    requires KernelOk(k)
    ensures r.Failure? <==> k.current.None?
    ensures r.Failure? ==> r.error == NoCurrentTask
    ensures r.Success? ==>
              var c := k.current.value;
              var t := k.store.tasks[c];
              KernelOk(r.value.kernel) && c in r.value.kernel.store.tasks
              && r.value.kernel == k.(store := r.value.kernel.store)
              && r.value.kernel.store.lists == k.store.lists && r.value.kernel.store.tasks.Keys == k.store.tasks.Keys
              && (forall w :: w in k.store.tasks && w != c ==> r.value.kernel.store.tasks[w] == k.store.tasks[w])
              && r.value.kernel.store.tasks[c] == t.(delayAborted := false)
              && (t.delayAborted ==> r.value.expired && r.value.timeOut == to && r.value.remaining == wait)
              && (!t.delayAborted && wait == MAX_DELAY ==> r.value == Check(k, to, wait, false))
              && (!r.value.expired ==> AddTick(r.value.timeOut.entered, r.value.remaining) == AddTick(to.entered, wait))
  {
    match k.current
    case None => Failure(NoCurrentTask)
    case Some(c) =>
      if k.store.tasks[c].delayAborted then Success(Check(ClearAbort(k, c), to, wait, true))
      else if wait == MAX_DELAY then Success(Check(k, to, wait, false))
      else Success(Elapse(k, k, to, wait))
  }

  /**
   * Finding: as written, a `portMAX_DELAY` wait expires once the tick
   * count has wrapped past its entry tick, where the intended check never
   * expires it.
   */
  lemma CheckAsWrittenExpiresUnboundedWait(k: Kernel, to: TimeOut)
    requires KernelOk(k) && k.current.Some? && !k.store.tasks[k.current.value].delayAborted
    requires k.overflows != to.overflows && k.tick >= to.entered
    ensures CheckForTimeoutAsWritten(k, to, MAX_DELAY).value.expired
    ensures !CheckForTimeout(k, to, MAX_DELAY).value.expired
  {
  }

  /**
   * Finding: as written, an aborted delay whose time has not run out is not
   * reported; the flag is cleared all the same, so the abort is lost.  The
   * intended check ends the wait.
   */
  lemma CheckAsWrittenLosesAbort(k: Kernel, to: TimeOut, wait: Tick)
    requires KernelOk(k) && k.current.Some? && k.store.tasks[k.current.value].delayAborted
    requires k.overflows == to.overflows && SubTick(k.tick, to.entered) < wait
    ensures var r := CheckForTimeoutAsWritten(k, to, wait).value;
            !r.expired && !r.kernel.store.tasks[k.current.value].delayAborted
    ensures CheckForTimeout(k, to, wait).value.expired
  {
  }

  /** Without an abort and with a bounded wait the two readings agree. */
  lemma CheckReadingsAgree(k: Kernel, to: TimeOut, wait: Tick)
    requires KernelOk(k) && wait != MAX_DELAY
    requires k.current.Some? ==> !k.store.tasks[k.current.value].delayAborted
    ensures CheckForTimeoutAsWritten(k, to, wait) == CheckForTimeout(k, to, wait)
  {
  }

  /** A time-out taken now has not expired for any bounded, non-zero wait. */
  lemma FreshTimeOutRunning(k: Kernel, wait: Tick)
    requires KernelOk(k) && k.current.Some? && !k.store.tasks[k.current.value].delayAborted
    requires 0 < wait
    ensures var r := CheckForTimeout(k, SetTimeOutState(k), wait).value;
            !r.expired && r.remaining == wait
  {
  }

  /**
   * `task_place_on_event_list`: the current task's event item is inserted
   * into the event list in value order (most urgent first) and the task
   * blocks with `add_current_task_to_delayed_list(wait, true)`, so a
   * `portMAX_DELAY` wait parks it on the suspended list.
   */
  method PlaceOnEventList(k: Kernel, id: ListId, wait: Tick) returns (r: Result<Kernel, Panic>)
    requires KernelOk(k) && IsEventList(id) && id in k.store.lists
    requires k.current.Some? ==> k.store.tasks[k.current.value].eventIn.None?
    ensures k.current.None? ==> r == Failure(NoCurrentTask)
    ensures k.current.Some? ==> (r.Failure? <==> k.store.tasks[k.current.value].stateIn.None?)
    ensures r.Failure? ==> r.error == NoCurrentTask || r.error == ContainerNotSet
    ensures r.Success? ==>
              var c := k.current.value;
              var t := k.store.tasks[c];
              var k' := r.value;
              var wake := AddTick(k.tick, wait);
              KernelOk(k') && k.current.Some? && k'.current == k.current && c in k'.store.tasks
              && k'.suspended == k.suspended && k'.tick == k.tick
              && k'.store.tasks.Keys == k.store.tasks.Keys && k'.store.lists.Keys == k.store.lists.Keys
              && (forall w :: w in k.store.tasks && w != c ==> k'.store.tasks[w] == k.store.tasks[w])
              && k'.store.tasks[c].eventIn == Some(id) && k'.store.tasks[c].eventValue == t.eventValue
              && k'.store.tasks[c].priority == t.priority && !k'.store.tasks[c].delayAborted
              && id in k'.store.lists && k'.store.lists[id] == Insert(k.store.lists[id], Item(c, t.eventValue))
              && k'.store.tasks[c].stateIn ==
                   Some(if wait == MAX_DELAY then SuspendedList else if wake < k.tick then k.overflow else k.delayed)
              && (forall id2 :: id2 in k.store.lists && IsEventList(id2) && id2 != id ==>
                    id2 in k'.store.lists && k'.store.lists[id2] == k.store.lists[id2])
  {
    if k.current.None? {
      return Failure(NoCurrentTask);
    }
    var c := k.current.value;
    var t := k.store.tasks[c];
    var k1 := LinkEvent(k, c, id);
    r := BlockCurrent(k1, wait, true);
    if r.Success? {
      assert EventListsKept(k1, r.value);
    }
  }

  /** `list_insert` of a task's free event item into an event list, in value order. */
  method LinkEvent(k: Kernel, u: TaskId, id: ListId) returns (k': Kernel)
    requires KernelOk(k) && IsEventList(id) && id in k.store.lists
    requires u in k.store.tasks && k.store.tasks[u].eventIn.None?
    ensures KernelOk(k') && k' == k.(store := k'.store)
    ensures k'.store.tasks.Keys == k.store.tasks.Keys && k'.store.lists.Keys == k.store.lists.Keys
    ensures forall w :: w in k.store.tasks && w != u ==> k'.store.tasks[w] == k.store.tasks[w]
    ensures k'.store.tasks[u] == k.store.tasks[u].(eventIn := Some(id))
    ensures k'.store.lists[id] == Insert(k.store.lists[id], Item(u, k.store.tasks[u].eventValue))
    ensures forall id2 :: id2 in k.store.lists && id2 != id ==> k'.store.lists[id2] == k.store.lists[id2]
  {
    assert ListOk(k.store, id);
    k' := k.(store := LinkSorted(k.store, u, true, id));
    PassiveChangeKeepsKernelOk(k, k', u, id);
  }

  /**
   * Waiting on an empty event list and being woken by that event while the
   * scheduler runs puts the task back in its ready list, unlinked from the
   * event list, which is empty again.
   */
  method PlaceThenRemoveReadies(k: Kernel, id: ListId, wait: Tick) returns (r: Result<(Kernel, bool), Panic>)
    requires KernelOk(k) && IsEventList(id) && id in k.store.lists && |k.store.lists[id].items| == 0
    requires k.suspended == 0 && k.current.Some?
    requires k.store.tasks[k.current.value].eventIn.None? && k.store.tasks[k.current.value].stateIn.Some?
    ensures r.Success? && k.current.value in r.value.0.store.tasks && id in r.value.0.store.lists
    ensures |r.value.0.store.lists[id].items| == 0
    ensures r.value.0.store.tasks[k.current.value].stateIn == Some(Ready(k.store.tasks[k.current.value].priority))
    ensures r.value.0.store.tasks[k.current.value].eventIn.None? && !r.value.1
  {
    var c := k.current.value;
    var t := k.store.tasks[c];
    var p := PlaceOnEventList(k, id, wait);
    var k1 := p.value;
    assert KernelOk(k1);
    InsertIntoEmpty(k.store.lists[id], Item(c, t.eventValue));
    assert k1.store.lists[id].items == [Item(c, t.eventValue)];
    r := RemoveFromEventList(k1, id);
    assert r.Success?;
    assert KernelOk(r.value.0);
    LastWaiterLeaves(k1.store, r.value.0.store, c, id);
  }

  /** Once the only waiter of an event list has left it, no other task can be on it. */
  lemma LastWaiterLeaves(st1: Store, st2: Store, c: TaskId, id: ListId)
    requires Consistent(st1) && Consistent(st2) && IsEventList(id) && id in st1.lists && id in st2.lists
    requires |st1.lists[id].items| == 1 && st1.lists[id].items[0].owner == c
    requires st2.tasks.Keys == st1.tasks.Keys && c in st2.tasks && st2.tasks[c].eventIn.None?
    requires forall w :: w in st1.tasks && w != c ==> st2.tasks[w] == st1.tasks[w]
    ensures |st2.lists[id].items| == 0
  {
    if |st2.lists[id].items| > 0 {
      var w := st2.lists[id].items[0].owner;
      HeadIsLinked(st2, id);
      LinkedIffContained(st1, w, id);
      assert Contains(st1.lists[id], w);
    }
  }
}
