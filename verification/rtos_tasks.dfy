/**
 * Task lifecycle of the FreeRTOS-style kernel (`task_control_cap.rs`): the
 * priority clamp of the task builder, creation and insertion into the
 * ready lists, blocking the current task on the delayed lists, deletion,
 * and suspension and resumption.
 *
 * Memory allocation and stack initialisation are foreign calls; their
 * outcomes are parameters.  A yield the source requests is returned as a
 * flag.
 */
module TaskLifecycle {
  import opened Wrappers
  import opened Ticks
  import opened PriorityList
  import opened RtosKernel
  import opened Scheduler

  /** `TCB::priority`: a requested priority at or above `configMAX_PRIORITIES` is reduced to the top one. */
  function ClampPriority(p: nat): (r: nat)
    ensures r < MAX_PRIORITIES
    ensures p < MAX_PRIORITIES ==> r == p
    ensures p >= MAX_PRIORITIES ==> r == MAX_PRIORITIES - 1
    ensures r <= p
  {
    if p >= MAX_PRIORITIES then MAX_PRIORITIES - 1 else p
  }

  /** A list that is neither a ready list nor one of the two delayed lists. */
  predicate Passive(k: Kernel, id: ListId)
  {
    !id.Ready? && id != k.delayed && id != k.overflow
  }

  /** Changing a list the invariant does not look at, and one task, keeps the invariant. */
  lemma PassiveChangeKeepsKernelOk(k: Kernel, k': Kernel, u: TaskId, id: ListId)
    requires KernelOk(k) && Passive(k, id)
    requires k' == k.(store := k'.store) && Consistent(k'.store)
    requires FramedExcept(k.store, k'.store, u, id)
    ensures KernelOk(k')
  {
    PassiveChangeKeepsShape(k, k', id);
  }

  /** The ordering and bound parts of the invariant survive a change to a list they do not look at. */
  lemma PassiveChangeKeepsShape(k: Kernel, k': Kernel, id: ListId)
    requires HasSystemLists(k.store) && HasSystemLists(k'.store) && DelayedPair(k) && Passive(k, id)
    requires k' == k.(store := k'.store) && k'.store.tasks.Keys == k.store.tasks.Keys && k'.store.lists.Keys == k.store.lists.Keys
    requires forall id2 :: id2 in k.store.lists && id2 != id ==> k'.store.lists[id2] == k.store.lists[id2]
    requires Sorted(k.store.lists[k.delayed].items) && Sorted(k.store.lists[k.overflow].items)
    requires forall p: nat :: k.topReady < p < MAX_PRIORITIES ==> ReadyLen(k.store, p) == 0
    requires NextUnblockOk(k)
    ensures Sorted(k'.store.lists[k'.delayed].items) && Sorted(k'.store.lists[k'.overflow].items)
    ensures forall p: nat :: k'.topReady < p < MAX_PRIORITIES ==> ReadyLen(k'.store, p) == 0
    ensures NextUnblockOk(k')
  {
    assert k'.store.lists[k.delayed] == k.store.lists[k.delayed];
    assert k'.store.lists[k.overflow] == k.store.lists[k.overflow];
    forall p: nat | k.topReady < p < MAX_PRIORITIES ensures ReadyLen(k'.store, p) == 0 {
      assert ReadyLen(k.store, p) == 0;
    }
  }

  /** Links the unlinked state item of `u` at the end of a list other than the ready and delayed lists. */
  function ParkState(k: Kernel, u: TaskId, id: ListId): (k': Kernel)
    requires KernelOk(k) && u in k.store.tasks && k.store.tasks[u].stateIn.None?
    requires Passive(k, id) && !HoldsEventItems(id) && id in k.store.lists
    ensures KernelOk(k') && StoreStep(k, k', u, id)
    ensures k'.store.tasks[u] == k.store.tasks[u].(stateIn := Some(id))
    ensures k'.store.lists[id] == InsertEnd(k.store.lists[id], Item(u, k.store.tasks[u].stateValue))
  {
    assert ListOk(k.store, id);
    var k' := k.(store := LinkEnd(k.store, u, false, id));
    PassiveChangeKeepsKernelOk(k, k', u, id);
    k'
  }

  /**
   * Changes fields of task `u` that no list records (priority, mutex count,
   * delay-aborted flag).
   */
  function UpdateTask(k: Kernel, u: TaskId, t': Tcb): (k': Kernel)
    requires KernelOk(k) && u in k.store.tasks
    requires t'.stateIn == k.store.tasks[u].stateIn && t'.eventIn == k.store.tasks[u].eventIn
    requires t'.stateValue == k.store.tasks[u].stateValue && t'.eventValue == k.store.tasks[u].eventValue
    requires t'.priority < MAX_PRIORITIES && t'.basePriority < MAX_PRIORITIES
    ensures KernelOk(k') && k' == k.(store := k'.store)
    ensures k'.store.lists == k.store.lists && k'.store.tasks.Keys == k.store.tasks.Keys
    ensures k'.store.tasks[u] == t' && forall w :: w in k.store.tasks && w != u ==> k'.store.tasks[w] == k.store.tasks[w]
  {
    var k' := k.(store := SetTask(k.store, u, t'));
    assert forall p: nat :: p < MAX_PRIORITIES ==> ReadyLen(k'.store, p) == ReadyLen(k.store, p);
    k'
  }

  /**
   * `list_remove` of the state item followed by `append_task_to_ready_list`:
   * panics when the state item is not linked.
   */
  function Requeue(k: Kernel, u: TaskId): (r: Result<Kernel, Panic>)
    requires KernelOk(k) && u in k.store.tasks
    ensures r.Failure? <==> k.store.tasks[u].stateIn.None?
    ensures r.Failure? ==> r.error == ContainerNotSet
    ensures r.Success? ==>
              var t := k.store.tasks[u];
              var k' := r.value;
              KernelOk(k') && k' == k.(store := k'.store, topReady := k'.topReady)
              && k'.topReady == (if t.priority > k.topReady then t.priority else k.topReady)
              && k'.store.tasks.Keys == k.store.tasks.Keys
              && k'.store.tasks[u] == t.(stateIn := Some(Ready(t.priority)))
              && (forall w :: w in k.store.tasks && w != u ==> k'.store.tasks[w] == k.store.tasks[w])
              && k'.store.lists.Keys == k.store.lists.Keys
  {
    match UnlinkTask(k, u, false)
    case Failure(e) => Failure(e)
    case Success(k1) =>
      assert TaskOk(k.store, u);
      Success(AppendToReady(k1, u))
  }

  /** The number of tasks equals the number of task records. */
  predicate Counted(k: Kernel)
  {
    k.numTasks == |k.store.tasks|
  }

  /**
   * `add_new_task_to_ready_list`: counts the new task, makes it the current
   * task when there is none or, before the scheduler runs, when it has at
   * least the current task's priority, and appends it to its ready list.
   * The flag is the yield requested when a running scheduler gets a task of
   * higher priority than the current one.
   */
  function AddNewTask(k: Kernel, u: TaskId): (r: (Kernel, bool))
    requires KernelOk(k) && u in k.store.tasks && Unlinked(k.store.tasks[u])
    ensures var k' := r.0;
            var t := k.store.tasks[u];
            KernelOk(k')
            && k'.numTasks == k.numTasks + 1 && k'.taskNumber == k.taskNumber + 1
            && k'.store.tasks.Keys == k.store.tasks.Keys
            && k'.store.tasks[u] == t.(stateIn := Some(Ready(t.priority)))
            && (forall w :: w in k.store.tasks && w != u ==> k'.store.tasks[w] == k.store.tasks[w])
            && (k.current.None? ==> k'.current == Some(u))
            && (k.current.Some? && k.running ==> k'.current == k.current)
            && (k.current.Some? && !k.running ==>
                  k'.current == (if k.store.tasks[k.current.value].priority <= t.priority then Some(u) else k.current))
            && r.1 == (k.running && k.current.Some? && k.store.tasks[k.current.value].priority < t.priority)
  {
    var t := k.store.tasks[u];
    var cur := if k.current.None? then Some(u)
               else if !k.running && k.store.tasks[k.current.value].priority <= t.priority then Some(u)
               else k.current;
    var k1 := k.(numTasks := k.numTasks + 1, taskNumber := k.taskNumber + 1, current := cur);
    var k2 := AppendToReady(k1, u);
    (k2, k.running && k.current.Some? && k.store.tasks[k.current.value].priority < t.priority)
  }

  /** Why `initialise` creates no task. */
  datatype CreateError = OutOfMemory | StackInitFailed

  /**
   * `TCB::initialise` followed by `add_new_task_to_ready_list`.  `stack` is
   * what `port_malloc` returned (the task's identity, `None` when it
   * failed) and `stackOk` whether `port_initialise_stack` succeeded.  The
   * new task's base priority is its priority, it holds no mutex, and its
   * state item carries `configMAX_PRIORITIES - priority`; the event item
   * keeps the default `portMAX_DELAY`.
   */
  function Initialise(k: Kernel, priority: nat, stack: Option<TaskId>, stackOk: bool): (r: Result<(Kernel, bool), CreateError>)
    requires KernelOk(k) && priority < MAX_PRIORITIES
    requires stack.Some? ==> stack.value !in k.store.tasks
    ensures stack.None? ==> r == Failure(OutOfMemory)
    ensures stack.Some? && !stackOk ==> r == Failure(StackInitFailed)
    ensures stack.Some? && stackOk ==> r.Success?
    ensures r.Success? ==>
              var u := stack.value;
              var k' := r.value.0;
              KernelOk(k') && k'.store.tasks.Keys == k.store.tasks.Keys + {u}
              && k'.store.tasks[u] == NewTcb(priority).(stateIn := Some(Ready(priority)))
              && (forall w :: w in k.store.tasks ==> k'.store.tasks[w] == k.store.tasks[w])
              && k'.numTasks == k.numTasks + 1
  {
    match stack
    case None => Failure(OutOfMemory)
    case Some(u) =>
      if !stackOk then Failure(StackInitFailed)
      else
        var k1 := k.(store := AddTask(k.store, u, NewTcb(priority)));
        NewTaskKeepsKernelOk(k, u, priority, k1);
        var r := AddNewTask(k1, u);
        assert r.0.store.tasks[u] == NewTcb(priority).(stateIn := Some(Ready(priority)));
        Success(r)
  }

  /** The record `initialise` builds, before it is linked anywhere. */
  function NewTcb(priority: nat): Tcb
    requires priority < MAX_PRIORITIES
  {
    Tcb(priority, priority, 0, MAX_PRIORITIES - priority, MAX_DELAY, None, None, false)
  }

  lemma NewTaskKeepsKernelOk(k: Kernel, u: TaskId, priority: nat, k1: Kernel)
    requires KernelOk(k) && priority < MAX_PRIORITIES && u !in k.store.tasks
    requires k1 == k.(store := AddTask(k.store, u, NewTcb(priority)))
    ensures KernelOk(k1) && k1.store.tasks.Keys == k.store.tasks.Keys + {u} && Unlinked(k1.store.tasks[u])
    ensures k1.store.tasks[u] == NewTcb(priority) && forall w :: w in k.store.tasks ==> k1.store.tasks[w] == k.store.tasks[w]
  {
    assert forall p: nat :: p < MAX_PRIORITIES ==> ReadyLen(k1.store, p) == ReadyLen(k.store, p);
  }

  /**
   * While the scheduler is not running, the current task has the highest
   * priority of all tasks in the ready lists.
   */
  ghost predicate CurrentIsHighest(k: Kernel)
  {
    HighestIn(k.store.tasks, k.current)
  }

  ghost predicate HighestIn(tasks: map<TaskId, Tcb>, c: Option<TaskId>)
  {
    c.Some? && c.value in tasks
    && forall w :: w in tasks && tasks[w].stateIn.Some? && tasks[w].stateIn.value.Ready? ==>
         tasks[w].priority <= tasks[c.value].priority
  }

  /** No task of `tasks` is in a ready list. */
  ghost predicate NoneReady(tasks: map<TaskId, Tcb>)
  {
    forall w :: w in tasks && tasks[w].stateIn.Some? ==> !tasks[w].stateIn.value.Ready?
  }

  /**
   * Creating tasks before the scheduler starts leaves the highest-priority
   * task created so far as the current task (the later one on a tie).
   */
  lemma AddNewTaskKeepsHighest(k: Kernel, u: TaskId)
    requires KernelOk(k) && u in k.store.tasks && Unlinked(k.store.tasks[u]) && !k.running
    requires CurrentIsHighest(k) || (k.current.None? && NoneReady(k.store.tasks))
    ensures CurrentIsHighest(AddNewTask(k, u).0)
  {
    var k1 := AddNewTask(k, u).0;
    HighestAfterReadying(k.store.tasks, k1.store.tasks, u, k.current, k1.current);
  }

  lemma HighestAfterReadying(tasks: map<TaskId, Tcb>, tasks': map<TaskId, Tcb>, u: TaskId, c: Option<TaskId>, c': Option<TaskId>)
    requires u in tasks && tasks[u].stateIn.None? && tasks'.Keys == tasks.Keys
    requires tasks'[u] == tasks[u].(stateIn := Some(Ready(tasks[u].priority)))
    requires forall w :: w in tasks && w != u ==> tasks'[w] == tasks[w]
    requires HighestIn(tasks, c) || (c.None? && NoneReady(tasks))
    requires c.None? ==> c' == Some(u)
    requires c.Some? ==> c' == if tasks[c.value].priority <= tasks[u].priority then Some(u) else c
    ensures HighestIn(tasks', c')
  {
    forall w | w in tasks' && tasks'[w].stateIn.Some? && tasks'[w].stateIn.value.Ready?
      ensures tasks'[w].priority <= tasks'[c'.value].priority
    {
      if w != u {
        assert tasks[w] == tasks'[w];
        assert c.Some?;
        if c.value != u {
          assert tasks'[c.value] == tasks[c.value];
        }
      }
    }
  }

  /** Every event list (and the pending-ready list) of `k` is in `k'`, unchanged. */
  ghost predicate EventListsKept(k: Kernel, k': Kernel)
  {
    forall id :: id in k.store.lists && HoldsEventItems(id) ==> id in k'.store.lists && k'.store.lists[id] == k.store.lists[id]
  }

  /**
   * `add_current_task_to_delayed_list`: the current task leaves its state
   * list and waits on the suspended list (an indefinite wait) or, with its
   * wake time `tick + wait` (mod 2^32) as item value, on the overflow list
   * when that time wrapped and on the delayed list otherwise, pulling the
   * wake-up bound forward when it is earlier.
   */
  function BlockCurrent(k: Kernel, wait: Tick, indefinitely: bool): (r: Result<Kernel, Panic>)
    requires KernelOk(k)
    ensures k.current.None? ==> r == Failure(NoCurrentTask)
    ensures k.current.Some? ==> (r.Failure? <==> k.store.tasks[k.current.value].stateIn.None?)
    ensures r.Failure? ==> r.error == NoCurrentTask || r.error == ContainerNotSet
    ensures r.Success? ==>
              var c := k.current.value;
              var t := k.store.tasks[c];
              var k' := r.value;
              var wake := AddTick(k.tick, wait);
              KernelOk(k') && k.current.Some? && k' == k.(store := k'.store, nextUnblock := k'.nextUnblock)
              && k'.store.tasks.Keys == k.store.tasks.Keys
              && (forall w :: w in k.store.tasks && w != c ==> k'.store.tasks[w] == k.store.tasks[w])
              && (wait == MAX_DELAY && indefinitely ==>
                    k'.store.tasks[c] == t.(delayAborted := false, stateIn := Some(SuspendedList))
                    && k'.nextUnblock == k.nextUnblock)
              && (!(wait == MAX_DELAY && indefinitely) && wake < k.tick ==>
                    k'.store.tasks[c] == t.(delayAborted := false, stateIn := Some(k.overflow), stateValue := wake)
                    && k'.nextUnblock == k.nextUnblock)
              && (!(wait == MAX_DELAY && indefinitely) && wake >= k.tick ==>
                    k'.store.tasks[c] == t.(delayAborted := false, stateIn := Some(k.delayed), stateValue := wake)
                    && k'.nextUnblock == (if wake < k.nextUnblock then wake else k.nextUnblock))
    ensures r.Success? ==> EventListsKept(k, r.value)
  {
    match k.current
    case None => Failure(NoCurrentTask)
    case Some(c) =>
      assert TaskOk(k.store, c);
      var t := k.store.tasks[c];
      var k0 := UpdateTask(k, c, t.(delayAborted := false));
      match UnlinkTask(k0, c, false)
      case Failure(e) => Failure(e)
      case Success(k1) =>
        var k2 := PlaceBlocked(k1, c, wait, indefinitely);
        BlockFrame(k, k0, k1, k2, c, t.stateIn.value);
        Success(k2)
  }

  lemma BlockFrame(k: Kernel, k0: Kernel, k1: Kernel, k2: Kernel, c: TaskId, id: ListId)
    requires c in k.store.tasks
    requires k0 == k.(store := k0.store) && k0.store.tasks.Keys == k.store.tasks.Keys
    requires k0.store.tasks[c] == k.store.tasks[c].(delayAborted := false)
    requires forall w :: w in k.store.tasks && w != c ==> k0.store.tasks[w] == k.store.tasks[w]
    requires k1 == k0.(store := k1.store) && FramedExcept(k0.store, k1.store, c, id)
    requires k1.store.tasks[c] == k0.store.tasks[c].(stateIn := None)
    requires k2 == k1.(store := k2.store, nextUnblock := k2.nextUnblock) && k2.store.tasks.Keys == k1.store.tasks.Keys
    requires forall w :: w in k1.store.tasks && w != c ==> k2.store.tasks[w] == k1.store.tasks[w]
    requires k0.store.lists == k.store.lists && !HoldsEventItems(id) && EventListsKept(k1, k2)
    ensures EventListsKept(k, k2)
    ensures k2 == k.(store := k2.store, nextUnblock := k2.nextUnblock) && k2.store.tasks.Keys == k.store.tasks.Keys
    ensures forall w :: w in k.store.tasks && w != c ==> k2.store.tasks[w] == k.store.tasks[w]
    ensures k1.store.tasks[c] == k.store.tasks[c].(delayAborted := false, stateIn := None)
  {
  }

  /**
   * The placement part of `add_current_task_to_delayed_list`, for the
   * current task `c` whose state item has just been unlinked.
   */
  function PlaceBlocked(k: Kernel, c: TaskId, wait: Tick, indefinitely: bool): (k': Kernel)
    requires KernelOk(k) && c in k.store.tasks && k.store.tasks[c].stateIn.None?
    ensures var t := k.store.tasks[c];
            var wake := AddTick(k.tick, wait);
            KernelOk(k') && k' == k.(store := k'.store, nextUnblock := k'.nextUnblock)
            && k'.store.tasks.Keys == k.store.tasks.Keys
            && (forall w :: w in k.store.tasks && w != c ==> k'.store.tasks[w] == k.store.tasks[w])
            && (wait == MAX_DELAY && indefinitely ==>
                  k'.store.tasks[c] == t.(stateIn := Some(SuspendedList)) && k'.nextUnblock == k.nextUnblock)
            && (!(wait == MAX_DELAY && indefinitely) && wake < k.tick ==>
                  k'.store.tasks[c] == t.(stateIn := Some(k.overflow), stateValue := wake)
                  && k'.nextUnblock == k.nextUnblock)
            && (!(wait == MAX_DELAY && indefinitely) && wake >= k.tick ==>
                  k'.store.tasks[c] == t.(stateIn := Some(k.delayed), stateValue := wake)
                  && k'.nextUnblock == (if wake < k.nextUnblock then wake else k.nextUnblock))
    ensures EventListsKept(k, k')
  {
    if wait == MAX_DELAY && indefinitely then
      ParkState(k, c, SuspendedList)
    else
      TimedBlock(k, c, AddTick(k.tick, wait))
  }

  /** A timed wait: the state item takes the wake time and goes into the delayed or, wrapped, the overflow list. */
  function TimedBlock(k: Kernel, c: TaskId, wake: Tick): (k': Kernel)
    requires KernelOk(k) && c in k.store.tasks && k.store.tasks[c].stateIn.None?
    ensures var t := k.store.tasks[c];
            KernelOk(k') && k' == k.(store := k'.store, nextUnblock := k'.nextUnblock)
            && k'.store.tasks.Keys == k.store.tasks.Keys
            && (forall w :: w in k.store.tasks && w != c ==> k'.store.tasks[w] == k.store.tasks[w])
            && k'.store.tasks[c] == t.(stateIn := Some(if wake < k.tick then k.overflow else k.delayed), stateValue := wake)
            && k'.nextUnblock == (if wake >= k.tick && wake < k.nextUnblock then wake else k.nextUnblock)
    ensures EventListsKept(k, k')
  {
    var k2 := k.(store := SetItemValue(k.store, c, false, wake));
    StateValueKeepsKernelOk(k, c, wake, k2);
    InsertDelayed(k2, c, wake >= k.tick)
  }

  /** Setting the value of an unlinked state item keeps the invariant. */
  lemma StateValueKeepsKernelOk(k: Kernel, u: TaskId, v: Tick, k': Kernel)
    requires KernelOk(k) && u in k.store.tasks && k.store.tasks[u].stateIn.None?
    requires k' == k.(store := SetItemValue(k.store, u, false, v))
    ensures KernelOk(k') && k'.store.lists == k.store.lists
  {
    assert forall p: nat :: p < MAX_PRIORITIES ==> ReadyLen(k'.store, p) == ReadyLen(k.store, p);
  }

  /**
   * Sorted insertion of `u`'s unlinked state item into the delayed list
   * (`current`) or the overflow list; the delayed list pulls the wake-up
   * bound forward to the item's value when that is earlier.
   */
  function InsertDelayed(k: Kernel, u: TaskId, current: bool): (k': Kernel)
    requires KernelOk(k) && u in k.store.tasks && k.store.tasks[u].stateIn.None?
    ensures var id := if current then k.delayed else k.overflow;
            var v := k.store.tasks[u].stateValue;
            KernelOk(k') && FramedExcept(k.store, k'.store, u, id)
            && k'.store.tasks[u] == k.store.tasks[u].(stateIn := Some(id))
            && k' == k.(store := k'.store, nextUnblock := k'.nextUnblock)
            && k'.nextUnblock == (if current && v < k.nextUnblock then v else k.nextUnblock)
  {
    var id := if current then k.delayed else k.overflow;
    var v := k.store.tasks[u].stateValue;
    var k' := k.(store := LinkSorted(k.store, u, false, id),
                 nextUnblock := if current && v < k.nextUnblock then v else k.nextUnblock);
    InsertDelayedKeepsKernelOk(k, u, current, k');
    k'
  }

  lemma InsertDelayedKeepsKernelOk(k: Kernel, u: TaskId, current: bool, k': Kernel)
    requires KernelOk(k) && u in k.store.tasks && k.store.tasks[u].stateIn.None?
    requires var id := if current then k.delayed else k.overflow;
             var v := k.store.tasks[u].stateValue;
             k' == k.(store := LinkSorted(k.store, u, false, id),
                      nextUnblock := if current && v < k.nextUnblock then v else k.nextUnblock)
    ensures KernelOk(k')
  {
    var id := if current then k.delayed else k.overflow;
    DelayedInsertKeepsShape(k, k', id, Item(u, k.store.tasks[u].stateValue));
  }

  /** Inserting into one delayed list, ordered, keeps the ordering and bound parts of the invariant. */
  lemma DelayedInsertKeepsShape(k: Kernel, k': Kernel, id: ListId, it: Item)
    requires HasSystemLists(k.store) && HasSystemLists(k'.store) && DelayedPair(k)
    requires id == k.delayed || id == k.overflow
    requires k' == k.(store := k'.store, nextUnblock := k'.nextUnblock)
    requires k'.store.lists.Keys == k.store.lists.Keys
    requires forall id2 :: id2 in k.store.lists && id2 != id ==> k'.store.lists[id2] == k.store.lists[id2]
    requires Sorted(k.store.lists[k.delayed].items) && Sorted(k.store.lists[k.overflow].items)
    requires Sorted(k'.store.lists[id].items)
    requires multiset(k'.store.lists[id].items) == multiset(k.store.lists[id].items) + multiset{it}
    requires forall p: nat :: k.topReady < p < MAX_PRIORITIES ==> ReadyLen(k.store, p) == 0
    requires NextUnblockOk(k)
    requires k'.nextUnblock == if id == k.delayed && it.value < k.nextUnblock then it.value else k.nextUnblock
    ensures Sorted(k'.store.lists[k'.delayed].items) && Sorted(k'.store.lists[k'.overflow].items)
    ensures forall p: nat :: k'.topReady < p < MAX_PRIORITIES ==> ReadyLen(k'.store, p) == 0
    ensures NextUnblockOk(k')
  {
    var other := if id == k.delayed then k.overflow else k.delayed;
    var l := k.store.lists[id];
    var l' := k'.store.lists[id];
    assert k'.store.lists[other] == k.store.lists[other];
    forall p: nat | k.topReady < p < MAX_PRIORITIES ensures ReadyLen(k'.store, p) == 0 {
      assert ReadyLen(k.store, p) == 0;
    }
    if id == k.delayed && |l'.items| > 0 {
      assert l'.items[0] in multiset(l'.items);
      if l'.items[0] != it {
        assert l'.items[0] in multiset(l.items);
        assert l'.items[0] in l.items;
      }
    }
  }

  /**
   * A timed wait lands on the overflow list exactly when its wake time
   * passes 2^32 and wraps.
   */
  lemma BlockedListMatchesWrap(k: Kernel, wait: Tick, indefinitely: bool)
    requires KernelOk(k) && k.current.Some? && k.store.tasks[k.current.value].stateIn.Some?
    requires !(wait == MAX_DELAY && indefinitely)
    ensures var k' := BlockCurrent(k, wait, indefinitely).value;
            k'.store.tasks[k.current.value].stateIn == Some(k.overflow) <==> k.tick + wait >= TICK_MODULUS
    ensures var k' := BlockCurrent(k, wait, indefinitely).value;
            k'.store.tasks[k.current.value].stateValue == TicksLater(k.tick, wait)
  {
    var c := k.current.value;
    var t := k.store.tasks[c];
    var r := BlockCurrent(k, wait, indefinitely);
    assert r.Success?;
    var k' := r.value;
    var wake := AddTick(k.tick, wait);
    assert k.delayed != k.overflow;
    assert wake == TicksLater(k.tick, wait);
    if wake < k.tick {
      assert k'.store.tasks[c] == t.(delayAborted := false, stateIn := Some(k.overflow), stateValue := wake);
    } else {
      assert k'.store.tasks[c] == t.(delayAborted := false, stateIn := Some(k.delayed), stateValue := wake);
    }
  }

  /** The task a handle argument designates: the given task, or the current one for `None`. */
  function Designated(k: Kernel, target: Option<TaskId>): (r: Result<TaskId, Panic>)
    ensures target.Some? ==> r == Success(target.value)
    ensures target.None? ==> r == (if k.current.Some? then Success(k.current.value) else Failure(NoCurrentTask))
  {
    match target
    case Some(u) => Success(u)
    case None => if k.current.Some? then Success(k.current.value) else Failure(NoCurrentTask)
  }

  /** The task a handle argument names, when there is one: the given task, or the current one. */
  function Target(k: Kernel, target: Option<TaskId>): TaskId
    requires target.Some? || k.current.Some?
  {
    if target.Some? then target.value else k.current.value
  }

  /** Forgetting a task that is linked nowhere and is not current keeps the invariant. */
  function ForgetTask(k: Kernel, u: TaskId): (k': Kernel)
    requires KernelOk(k) && u in k.store.tasks && Unlinked(k.store.tasks[u]) && k.current != Some(u)
    ensures KernelOk(k') && k' == k.(store := k'.store)
    ensures k'.store == DropTask(k.store, u)
  {
    var k' := k.(store := DropTask(k.store, u));
    assert forall p: nat :: p < MAX_PRIORITIES ==> ReadyLen(k'.store, p) == ReadyLen(k.store, p);
    k'
  }

  /** In a consistent store every linked item belongs to a known task. */
  lemma OnlyKnownTasksLinked(st: Store, u: TaskId, id: ListId)
    requires Consistent(st) && u !in st.tasks && id in st.lists
    ensures !Contains(st.lists[id], u)
  {
    assert ListOk(st, id);
    var items := st.lists[id].items;
    forall i | 0 <= i < |items| ensures items[i].owner != u {
      assert items[i] in multiset(items);
    }
  }

  /**
   * The second half of `task_delete` for an unlinked task: deleting the
   * current task leaves it on the termination list for the idle task's
   * clean-up; any other task is forgotten, uncounted, and the wake-up bound
   * is recomputed.
   */
  function Retire(k: Kernel, u: TaskId): (k': Kernel)
    requires KernelOk(k) && u in k.store.tasks && Unlinked(k.store.tasks[u]) && k.current.Some?
    ensures KernelOk(k') && k'.current == k.current && k'.suspended == k.suspended && k'.running == k.running
    ensures k'.taskNumber == k.taskNumber
    ensures forall w :: w in k.store.tasks && w != u ==> w in k'.store.tasks && k'.store.tasks[w] == k.store.tasks[w]
    ensures k.current == Some(u) ==>
              k'.store.tasks.Keys == k.store.tasks.Keys
              && k'.store.tasks[u] == k.store.tasks[u].(stateIn := Some(Termination))
              && k'.deletedWaiting == k.deletedWaiting + 1 && k'.numTasks == k.numTasks
    ensures k.current != Some(u) ==>
              k'.store.tasks.Keys == k.store.tasks.Keys - {u}
              && (forall id :: id in k'.store.lists ==> !Contains(k'.store.lists[id], u))
              && k'.deletedWaiting == k.deletedWaiting
              && k'.numTasks == (if k.numTasks > 0 then k.numTasks - 1 else 0)
  {
    if k.current == Some(u) then
      var k1 := ParkState(k, u, Termination);
      var k2 := k1.(deletedWaiting := k.deletedWaiting + 1);
      KernelOkFields(k1, k2);
      k2
    else
      var k1 := ForgetTask(k, u);
      var k2 := k1.(numTasks := if k.numTasks > 0 then k.numTasks - 1 else 0);
      KernelOkFields(k1, k2);
      var k3 := ResetNextUnblock(k2);
      forall id | id in k3.store.lists ensures !Contains(k3.store.lists[id], u) {
        OnlyKnownTasksLinked(k3.store, u, id);
      }
      k3
  }

  /**
   * The list work of `task_delete` on task `u`: both items are unlinked (the
   * event item only if it is linked), the task counter used by debuggers is
   * bumped, and the task is retired.
   */
  function DeleteLists(k: Kernel, u: TaskId): (r: Result<Kernel, Panic>)
    requires KernelOk(k) && u in k.store.tasks
    ensures r.Failure? <==> k.store.tasks[u].stateIn.None? || k.current.None?
    ensures r.Failure? ==> r.error == (if k.store.tasks[u].stateIn.None? then ContainerNotSet else NoCurrentTask)
    ensures r.Success? ==>
              var k' := r.value;
              KernelOk(k') && k'.current == k.current && k'.suspended == k.suspended && k'.running == k.running
              && k'.taskNumber == k.taskNumber + 1
              && (forall w :: w in k.store.tasks && w != u ==> w in k'.store.tasks && k'.store.tasks[w] == k.store.tasks[w])
    ensures r.Success? && k.current == Some(u) ==>
              var k' := r.value;
              k'.store.tasks.Keys == k.store.tasks.Keys
              && k'.store.tasks[u] == k.store.tasks[u].(stateIn := Some(Termination), eventIn := None)
              && k'.deletedWaiting == k.deletedWaiting + 1 && k'.numTasks == k.numTasks
    ensures r.Success? && k.current != Some(u) ==>
              var k' := r.value;
              k'.store.tasks.Keys == k.store.tasks.Keys - {u}
              && (forall id :: id in k'.store.lists ==> !Contains(k'.store.lists[id], u))
              && k'.deletedWaiting == k.deletedWaiting
              && k'.numTasks == (if k.numTasks > 0 then k.numTasks - 1 else 0)
  {
    var t := k.store.tasks[u];
    match Detach(k, u, t.eventIn.Some?)
    case Failure(e) => Failure(e)
    case Success(k1) =>
      match k.current
      case None => Failure(NoCurrentTask)
      case Some(c) =>
        var k2 := k1.(taskNumber := k.taskNumber + 1);
        KernelOkFields(k1, k2);
        Success(Retire(k2, u))
  }

  /**
   * `task_delete` as written: after the list work, a task deleting itself
   * while the scheduler is suspended fails the assertion that the scheduler
   * is not suspended, and no yield is ever requested.
   */
  function DeleteAsWritten(k: Kernel, target: Option<TaskId>): (r: Result<(Kernel, bool), Panic>)
    requires KernelOk(k) && (target.Some? ==> target.value in k.store.tasks)
    ensures target.None? && k.current.None? ==> r == Failure(NoCurrentTask)
    ensures target.Some? || k.current.Some? ==>
              var u := Target(k, target);
              && (r.Failure? <==> k.store.tasks[u].stateIn.None? || k.current.None? || (k.suspended > 0 && k.current == Some(u)))
              && (r.Failure? ==> r.error == (if k.store.tasks[u].stateIn.None? then ContainerNotSet
                                             else if k.current.None? then NoCurrentTask else AssertionFailed))
              && (r.Success? ==> DeleteLists(k, u) == Success(r.value.0))
    ensures r.Success? ==> !r.value.1 && KernelOk(r.value.0)
  {
    var u :- Designated(k, target);
    var k' :- DeleteLists(k, u);
    if k.suspended > 0 && k.current == Some(u) then Failure(AssertionFailed)
    else Success((k', false))
  }

  /**
   * `task_delete` with the reschedule guarded by the scheduler running, as
   * in FreeRTOS's `vTaskDelete`: a running task deleting itself yields, and
   * asserts that the scheduler is not suspended.
   */
  function Delete(k: Kernel, target: Option<TaskId>): (r: Result<(Kernel, bool), Panic>)
    requires KernelOk(k) && (target.Some? ==> target.value in k.store.tasks)
    ensures target.None? && k.current.None? ==> r == Failure(NoCurrentTask)
    ensures target.Some? || k.current.Some? ==>
              var u := Target(k, target);
              && (r.Failure? <==> k.store.tasks[u].stateIn.None? || k.current.None?
                                  || (k.running && k.suspended > 0 && k.current == Some(u)))
              && (r.Failure? ==> r.error == (if k.store.tasks[u].stateIn.None? then ContainerNotSet
                                             else if k.current.None? then NoCurrentTask else AssertionFailed))
              && (r.Success? ==> DeleteLists(k, u) == Success(r.value.0))
    ensures r.Success? ==> KernelOk(r.value.0)
    ensures r.Success? ==> (r.value.1 <==> k.running && (target.None? || target == k.current))
  {
    match Designated(k, target)
    case Failure(e) => Failure(e)
    case Success(u) =>
      match DeleteLists(k, u)
      case Failure(e) => Failure(e)
      case Success(k') =>
        if k.running && k.current == Some(u) then
          if k.suspended > 0 then Failure(AssertionFailed) else Success((k', true))
        else Success((k', false))
  }

  /**
   * Finding: the as-written deletion never asks a running task that deleted
   * itself to yield, so it would keep running after its own deletion.
   */
  lemma DeleteAsWrittenSkipsYield(k: Kernel)
    requires KernelOk(k) && k.current.Some? && k.running && k.suspended == 0
    requires k.store.tasks[k.current.value].stateIn.Some?
    ensures DeleteAsWritten(k, None) == Success((DeleteLists(k, k.current.value).value, false))
    ensures Delete(k, None) == Success((DeleteLists(k, k.current.value).value, true))
  {
  }

  /**
   * Finding: before the scheduler runs, a task deleting itself while the
   * scheduler is suspended fails the as-written assertion, where the
   * corrected deletion succeeds.
   */
  lemma DeleteAsWrittenAssertsWhenStopped(k: Kernel)
    requires KernelOk(k) && k.current.Some? && !k.running && k.suspended > 0
    requires k.store.tasks[k.current.value].stateIn.Some?
    ensures DeleteAsWritten(k, None) == Failure(AssertionFailed)
    ensures Delete(k, None).Success?
  {
  }

  /**
   * After the list work of a deletion the task is held by no list, except
   * that a task that deleted itself waits on the termination list (state
   * item only) for the idle task's clean-up; any other task is gone from the
   * task records.
   */
  lemma DeleteListsUnlists(k: Kernel, u: TaskId)
    requires KernelOk(k) && u in k.store.tasks && DeleteLists(k, u).Success?
    ensures var k' := DeleteLists(k, u).value;
            && (forall id :: id in k'.store.lists && id != Termination ==> !Contains(k'.store.lists[id], u))
            && (Contains(k'.store.lists[Termination], u) <==> k.current == Some(u))
            && (u in k'.store.tasks <==> k.current == Some(u))
  {
    var k' := DeleteLists(k, u).value;
    if k.current == Some(u) {
      forall id | id in k'.store.lists
        ensures Contains(k'.store.lists[id], u) <==> id == Termination
      {
        LinkedIffContained(k'.store, u, id);
      }
    }
  }

  /** A successful deletion, corrected or as written, leaves the designated task on no list but the termination list. */
  lemma DeletedTaskUnlisted(k: Kernel, target: Option<TaskId>)
    requires KernelOk(k) && (target.Some? ==> target.value in k.store.tasks)
    requires Delete(k, target).Success? || DeleteAsWritten(k, target).Success?
    ensures target.Some? || k.current.Some?
    ensures var u := Target(k, target);
            var k' := DeleteLists(k, u).value;
            DeleteLists(k, u).Success?
            && (forall id :: id in k'.store.lists && id != Termination ==> !Contains(k'.store.lists[id], u))
            && (Contains(k'.store.lists[Termination], u) <==> k.current == Some(u))
  {
    DeleteListsUnlists(k, Target(k, target));
  }

  /** Deletion keeps the task count equal to the number of task records. */
  lemma DeleteKeepsCounted(k: Kernel, u: TaskId)
    requires KernelOk(k) && u in k.store.tasks && Counted(k)
    ensures DeleteLists(k, u).Success? ==> Counted(DeleteLists(k, u).value)
  {
    var r := DeleteLists(k, u);
    if r.Success? && k.current != Some(u) {
      CountWithout(k.store.tasks.Keys, r.value.store.tasks.Keys, u);
    }
  }

  /** Removing a member from a set shrinks it by one. */
  lemma CountWithout(s: set<TaskId>, s': set<TaskId>, u: TaskId)
    requires u in s && s' == s - {u}
    ensures |s'| == |s| - 1
  {
  }

  /** Creation keeps the task count equal to the number of task records. */
  lemma InitialiseKeepsCounted(k: Kernel, priority: nat, stack: Option<TaskId>, stackOk: bool)
    requires KernelOk(k) && priority < MAX_PRIORITIES && (stack.Some? ==> stack.value !in k.store.tasks) && Counted(k)
    ensures Initialise(k, priority, stack, stackOk).Success? ==> Counted(Initialise(k, priority, stack, stackOk).value.0)
  {
    if stack.Some? && stackOk {
      assert |k.store.tasks.Keys + {stack.value}| == |k.store.tasks.Keys| + 1;
    }
  }

  /**
   * `task_is_tasksuspended`: the state item is in the suspended list, the
   * event item is not waiting on the pending-ready list and is not linked at
   * all (a task blocked without timeout also sits in the suspended list, but
   * with its event item on an event list).
   */
  function IsSuspended(k: Kernel, u: TaskId): (r: bool)
    requires u in k.store.tasks
    ensures r <==> k.store.tasks[u].stateIn == Some(SuspendedList) && k.store.tasks[u].eventIn.None?
  {
    var t := k.store.tasks[u];
    t.stateIn == Some(SuspendedList) && t.eventIn != Some(PendingReady) && t.eventIn.None?
  }

  /**
   * The list work of `suspend_task` on an unlinked task: it is appended to
   * the suspended list and a running scheduler recomputes the wake-up bound.
   */
  function SuspendLists(k: Kernel, u: TaskId): (k': Kernel)
    requires KernelOk(k) && u in k.store.tasks && Unlinked(k.store.tasks[u])
    ensures KernelOk(k') && k'.current == k.current && k'.running == k.running && k'.suspended == k.suspended
    ensures k'.numTasks == k.numTasks && k'.store.tasks.Keys == k.store.tasks.Keys
    ensures k'.store.tasks[u] == k.store.tasks[u].(stateIn := Some(SuspendedList))
    ensures forall w :: w in k.store.tasks && w != u ==> k'.store.tasks[w] == k.store.tasks[w]
  {
    var k1 := ParkState(k, u, SuspendedList);
    if k.running then ResetNextUnblock(k1) else k1
  }

  /**
   * The reschedule of `suspend_task` once `u` is suspended: a running task
   * suspending itself must find the scheduler not suspended and yields;
   * before the scheduler runs a new current task is selected unless every
   * task is suspended.  Task records are not touched.
   */
  function AfterSuspend(k: Kernel, u: TaskId): (r: Result<(Kernel, bool), Panic>)
    requires KernelOk(k) && k.current.Some?
    ensures r.Success? ==> KernelOk(r.value.0) && r.value.0.store.tasks == k.store.tasks
    ensures r.Success? ==> (r.value.1 <==> k.current == Some(u) && k.running)
    ensures k.current != Some(u) ==> r == Success((k, false))
    ensures r.Failure? <==>
              k.current == Some(u) &&
              (if k.running then k.suspended != 0
               else |k.store.lists[SuspendedList].items| != k.numTasks && SwitchContext(k).Failure?)
  {
    if k.current != Some(u) then Success((k, false))
    else if k.running then
      if k.suspended != 0 then Failure(AssertionFailed) else Success((k, true))
    else if |k.store.lists[SuspendedList].items| != k.numTasks then
      match SwitchContext(k)
      case Failure(e) => Failure(e)
      case Success(k1) => Success((k1, false))
    else Success((k, false))
  }

  /**
   * `suspend_task`: the task leaves its state list and any event list and is
   * appended to the suspended list, then the scheduler reacts as
   * `AfterSuspend` describes.
   */
  function Suspend(k: Kernel, u: TaskId): (r: Result<(Kernel, bool), Panic>)
    requires KernelOk(k) && u in k.store.tasks
    ensures k.store.tasks[u].stateIn.None? ==> r == Failure(ContainerNotSet)
    ensures k.store.tasks[u].stateIn.Some? && k.current.None? ==> r == Failure(NoCurrentTask)
    ensures k.store.tasks[u].stateIn.Some? && k.current.Some? && k.current.value != u ==> r.Success?
    ensures r.Success? ==>
              var k' := r.value.0;
              KernelOk(k') && u in k'.store.tasks && IsSuspended(k', u)
              && k'.store.tasks[u] == k.store.tasks[u].(stateIn := Some(SuspendedList), eventIn := None)
              && k'.store.tasks.Keys == k.store.tasks.Keys
              && (forall w :: w in k.store.tasks && w != u ==> k'.store.tasks[w] == k.store.tasks[w])
              && (r.value.1 <==> k.current == Some(u) && k.running)
    ensures r.Success? && k.current != Some(u) ==> r.value.0.current == k.current
  {
    var t := k.store.tasks[u];
    match Detach(k, u, t.eventIn.Some?)
    case Failure(e) => Failure(e)
    case Success(_) =>
      if k.current.None? then Failure(NoCurrentTask)
      else AfterSuspend(DetachSuspended(k, u), u)
  }

  /** The task `u`, detached from its state and event lists, is appended to the suspended list. */
  function DetachSuspended(k: Kernel, u: TaskId): (k': Kernel)
    requires KernelOk(k) && u in k.store.tasks && Detach(k, u, k.store.tasks[u].eventIn.Some?).Success?
    ensures KernelOk(k') && k'.current == k.current && k'.running == k.running && k'.suspended == k.suspended
    ensures k'.numTasks == k.numTasks && k'.store.tasks.Keys == k.store.tasks.Keys
    ensures k'.store.tasks[u] == k.store.tasks[u].(stateIn := Some(SuspendedList), eventIn := None)
    ensures forall w :: w in k.store.tasks && w != u ==> k'.store.tasks[w] == k.store.tasks[w]
  {
    SuspendLists(Detach(k, u, k.store.tasks[u].eventIn.Some?).value, u)
  }

  /**
   * `resume_task`: a task other than the current one that is suspended
   * (and not merely blocked without timeout) is moved to its ready list; the
   * flag is the yield requested when it has at least the current task's
   * priority.  Any other task is left alone.
   */
  function Resume(k: Kernel, u: TaskId): (r: Result<(Kernel, bool), Panic>)
    requires KernelOk(k) && u in k.store.tasks
    ensures k.current.None? <==> r.Failure?
    ensures r.Failure? ==> r.error == NoCurrentTask
    ensures r.Success? && (k.current == Some(u) || !IsSuspended(k, u)) ==> r.value == (k, false)
    ensures r.Success? && k.current != Some(u) && IsSuspended(k, u) ==>
              var t := k.store.tasks[u];
              var k' := r.value.0;
              KernelOk(k') && k'.current == k.current
              && k'.store.tasks.Keys == k.store.tasks.Keys
              && k'.store.tasks[u] == Readied(t)
              && (forall w :: w in k.store.tasks && w != u ==> k'.store.tasks[w] == k.store.tasks[w])
              && r.value.1 == (t.priority >= k.store.tasks[k.current.value].priority)
  {
    match k.current
    case None => Failure(NoCurrentTask)
    case Some(c) =>
      if u == c || !IsSuspended(k, u) then Success((k, false))
      else
        match Requeue(k, u)
        case Failure(e) => Failure(e)
        case Success(k1) =>
          Success((k1, k.store.tasks[u].priority >= k.store.tasks[c].priority))
  }

  /** Suspending a task other than the current one and resuming it makes it ready again. */
  lemma SuspendThenResumeReadies(k: Kernel, u: TaskId)
    requires KernelOk(k) && u in k.store.tasks && k.current.Some? && k.current.value != u
    requires k.store.tasks[u].stateIn.Some?
    ensures Suspend(k, u).Success?
    ensures var k1 := Suspend(k, u).value.0;
            Resume(k1, u).Success? && Resume(k1, u).value.0.store.tasks[u] == Readied(k.store.tasks[u])
  {
    var k1 := Suspend(k, u).value.0;
    assert IsSuspended(k1, u);
  }

  /**
   * A task blocked without timeout on an event sits in the suspended list
   * but is not suspended.
   */
  lemma BlockedIndefinitelyIsNotSuspended(k: Kernel, k1: Kernel)
    requires KernelOk(k) && k.current.Some? && k.store.tasks[k.current.value].eventIn.Some?
    requires k.store.tasks[k.current.value].stateIn.Some?
    requires BlockCurrent(k, MAX_DELAY, true) == Success(k1)
    ensures k1.store.tasks[k.current.value].stateIn == Some(SuspendedList)
    ensures !IsSuspended(k1, k.current.value)
  {
  }
}
