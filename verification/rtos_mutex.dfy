/**
 * Mutex priority inheritance from `task_queue.rs`: counting the mutexes a
 * task holds, lending a waiter's priority to the holder, and giving it
 * back once the last mutex is released.
 */
module MutexInheritance {
  import opened Wrappers
  import opened Ticks
  import opened PriorityList
  import opened RtosKernel
  import opened Scheduler
  import opened TaskLifecycle
  import opened EventLists

  /** `task_increment_mutex_held_count`: the current task takes one more mutex and becomes its holder. */
  function IncrementMutexHeld(k: Kernel): (r: (Kernel, Option<TaskId>))
    requires KernelOk(k)
    ensures r.1 == k.current && KernelOk(r.0)
    ensures k.current.None? ==> r.0 == k
    ensures k.current.Some? ==>
              var c := k.current.value;
              r.0 == k.(store := r.0.store) && r.0.store.lists == k.store.lists && r.0.store.tasks.Keys == k.store.tasks.Keys
              && r.0.store.tasks[c] == k.store.tasks[c].(mutexesHeld := k.store.tasks[c].mutexesHeld + 1)
              && forall w :: w in k.store.tasks && w != c ==> r.0.store.tasks[w] == k.store.tasks[w]
  {
    match k.current
    case None => (k, None)
    case Some(c) =>
      assert TaskOk(k.store, c);
      var t := k.store.tasks[c];
      (UpdateTask(k, c, t.(mutexesHeld := t.mutexesHeld + 1)), Some(c))
  }

  /** Taking a mutex changes no list, no priority and no task's wait. */
  lemma IncrementMutexHeldFrame(k: Kernel)
    requires KernelOk(k)
    ensures var k' := IncrementMutexHeld(k).0;
            k' == k.(store := k'.store) && k'.store.lists == k.store.lists && k'.store.tasks.Keys == k.store.tasks.Keys
            && forall w :: w in k.store.tasks ==>
                 k'.store.tasks[w].priority == k.store.tasks[w].priority && k'.store.tasks[w].eventIn == k.store.tasks[w].eventIn
  {
    if k.current.Some? {
      var c := k.current.value;
      var k' := IncrementMutexHeld(k).0;
      assert k'.store.tasks[c] == k.store.tasks[c].(mutexesHeld := k.store.tasks[c].mutexesHeld + 1);
    }
  }

  /**
   * The event item value inheritance writes: the waiter's rank, unless the
   * item value carries the in-use bit.
   */
  function InheritedEventValue(v: Tick, cur: nat): (r: Tick)
    requires cur < MAX_PRIORITIES
    ensures v < VALUE_IN_USE ==> r == RankValue(cur)
    ensures v >= VALUE_IN_USE ==> r == v
  {
    if v < VALUE_IN_USE then RankValue(cur) else v
  }

  /**
   * `task_priority_inherit` as written: a holder of lower priority than the
   * current task gets the waiter's rank as event value and, only when it
   * sits in the ready list of its priority, the current task's priority.
   */
  function PriorityInheritAsWritten(k: Kernel, holder: Option<TaskId>): (r: Result<Kernel, Panic>)
    requires KernelOk(k) && (holder.Some? ==> holder.value in k.store.tasks)
    ensures holder.None? ==> r == Success(k)
    ensures holder.Some? ==> (r.Failure? <==> k.current.None?)
    ensures r.Failure? ==> r.error == NoCurrentTask
    ensures r.Success? && holder.Some? ==>
              var h := holder.value;
              var t := k.store.tasks[h];
              var cur := k.store.tasks[k.current.value].priority;
              var k' := r.value;
              KernelOk(k') && k'.current == k.current && k'.store.tasks.Keys == k.store.tasks.Keys
              && k'.store.lists.Keys == k.store.lists.Keys
              && (forall w :: w in k.store.tasks && w != h ==> k'.store.tasks[w] == k.store.tasks[w])
              && (t.priority >= cur ==> k' == k)
              && (t.priority < cur && t.stateIn == Some(Ready(t.priority)) ==>
                    k'.store.tasks[h] == t.(priority := cur, eventValue := InheritedEventValue(t.eventValue, cur),
                                            stateIn := Some(Ready(cur))))
              && (t.priority < cur && t.stateIn != Some(Ready(t.priority)) ==>
                    k'.store.tasks[h] == t.(eventValue := InheritedEventValue(t.eventValue, cur)))
  {
    match holder
    case None => Success(k)
    case Some(h) =>
      match CurrentPriority(k)
      case Failure(e) => Failure(e)
      case Success(cur) =>
        var t := k.store.tasks[h];
        if t.priority < cur then
          var k1 := SetEventValue(k, h, InheritedEventValue(t.eventValue, cur));
          if t.stateIn == Some(Ready(t.priority)) then
            Success(RaiseReady(k1, h, cur))
          else
            Success(k1)
        else
          Success(k)
  }

  /**
   * `task_priority_inherit` with the priority raised whatever the holder's
   * state, as `vTaskPriorityInherit` of FreeRTOS does: a blocked holder
   * keeps its list and only takes the new priority.
   */
  function PriorityInherit(k: Kernel, holder: Option<TaskId>): (r: Result<Kernel, Panic>)
    requires KernelOk(k) && (holder.Some? ==> holder.value in k.store.tasks)
    ensures holder.None? ==> r == Success(k)
    ensures holder.Some? ==> (r.Failure? <==> k.current.None?)
    ensures r.Failure? ==> r.error == NoCurrentTask
    ensures r.Success? ==> r.value.tick == k.tick && r.value.overflows == k.overflows && r.value.suspended == k.suspended
    ensures r.Success? && holder.Some? ==>
              var h := holder.value;
              var t := k.store.tasks[h];
              var cur := k.store.tasks[k.current.value].priority;
              var k' := r.value;
              KernelOk(k') && k'.current == k.current && k'.store.tasks.Keys == k.store.tasks.Keys
              && k'.store.lists.Keys == k.store.lists.Keys
              && (forall w :: w in k.store.tasks && w != h ==> k'.store.tasks[w] == k.store.tasks[w])
              && (t.priority >= cur ==> k' == k)
              && (t.priority < cur ==>
                    k'.store.tasks[h] == t.(priority := cur, eventValue := InheritedEventValue(t.eventValue, cur),
                                            stateIn := if t.stateIn == Some(Ready(t.priority)) then Some(Ready(cur)) else t.stateIn))
  {
    match holder
    case None => Success(k)
    case Some(h) =>
      match CurrentPriority(k)
      case Failure(e) => Failure(e)
      case Success(cur) =>
        var t := k.store.tasks[h];
        if t.priority < cur then
          var k1 := SetEventValue(k, h, InheritedEventValue(t.eventValue, cur));
          if t.stateIn == Some(Ready(t.priority)) then
            Success(RaiseReady(k1, h, cur))
          else
            Success(UpdateTask(k1, h, k1.store.tasks[h].(priority := cur)))
        else
          Success(k)
  }

  /** A ready task takes priority `p` and moves to the end of that ready list. */
  function RaiseReady(k: Kernel, h: TaskId, p: nat): (k': Kernel)
    requires KernelOk(k) && h in k.store.tasks && k.store.tasks[h].stateIn.Some? && p < MAX_PRIORITIES
    ensures KernelOk(k') && k'.current == k.current && k'.store.tasks.Keys == k.store.tasks.Keys
    ensures k'.store.lists.Keys == k.store.lists.Keys
    ensures forall w :: w in k.store.tasks && w != h ==> k'.store.tasks[w] == k.store.tasks[w]
    ensures k'.store.tasks[h] == k.store.tasks[h].(priority := p, stateIn := Some(Ready(p)))
    ensures k'.tick == k.tick && k'.overflows == k.overflows && k'.suspended == k.suspended
  {
    assert TaskOk(k.store, h);
    var k1 := UpdateTask(k, h, k.store.tasks[h].(priority := p));
    Requeue(k1, h).value
  }

  /**
   * `task_priority_disinherit` with the event item value written by the
   * caller's choice `rank`: the holder, which must be the running task and
   * hold a mutex, gives one back; once it holds none and runs at an
   * inherited priority it drops to its base priority and is re-queued, and
   * the flag asks for a yield.
   */
  function Disinherit(k: Kernel, holder: Option<TaskId>, rankOld: bool): (r: Result<(Kernel, bool), Panic>)
    requires KernelOk(k) && (holder.Some? ==> holder.value in k.store.tasks)
    ensures holder.None? ==> r == Success((k, false))
    ensures holder.Some? && k.current.None? ==> r == Failure(NoCurrentTask)
    ensures holder.Some? && k.current.Some? && k.current != holder ==> r == Failure(AssertionFailed)
    ensures holder.Some? && k.current == holder ==>
              var t := k.store.tasks[holder.value];
              (t.mutexesHeld == 0 ==> r == Failure(AssertionFailed))
              && (t.mutexesHeld > 0 ==>
                    (r.Failure? <==> t.priority != t.basePriority && t.mutexesHeld == 1 && t.stateIn.None?)
                    && (r.Failure? ==> r.error == ContainerNotSet))
    ensures r.Success? && holder.Some? ==>
              k.current == holder && k.store.tasks[holder.value].mutexesHeld > 0
              && r == GiveBack(k, holder.value, rankOld)
  {
    match holder
    case None => Success((k, false))
    case Some(h) =>
      match k.current
      case None => Failure(NoCurrentTask)
      case Some(c) =>
        if h != c then Failure(AssertionFailed)
        else
          assert TaskOk(k.store, h);
          var t := k.store.tasks[h];
          if t.mutexesHeld == 0 then Failure(AssertionFailed)
          else GiveBack(k, h, rankOld)
  }

  /** The holder `h`, known to hold a mutex, gives one back. */
  function GiveBack(k: Kernel, h: TaskId, rankOld: bool): (r: Result<(Kernel, bool), Panic>)
    requires KernelOk(k) && h in k.store.tasks && k.store.tasks[h].mutexesHeld > 0
    ensures var t := k.store.tasks[h];
            r.Failure? <==> t.priority != t.basePriority && t.mutexesHeld == 1 && t.stateIn.None?
    ensures r.Failure? ==> r.error == ContainerNotSet
    ensures r.Success? ==>
              var t := k.store.tasks[h];
              var k' := r.value.0;
              KernelOk(k') && k'.current == k.current
              && k'.store.tasks.Keys == k.store.tasks.Keys && k'.store.lists.Keys == k.store.lists.Keys
              && (forall w :: w in k.store.tasks && w != h ==> k'.store.tasks[w] == k.store.tasks[w])
              && (r.value.1 <==> t.priority != t.basePriority && t.mutexesHeld == 1)
              && (r.value.1 ==>
                    k'.store.tasks[h] == t.(mutexesHeld := 0, priority := t.basePriority,
                                            eventValue := RankValue(if rankOld then t.priority else t.basePriority),
                                            stateIn := Some(Ready(t.basePriority))))
              && (!r.value.1 ==> k' == k.(store := k'.store) && k'.store.lists == k.store.lists
                                  && k'.store.tasks[h] == t.(mutexesHeld := t.mutexesHeld - 1))
  {
    assert TaskOk(k.store, h);
    var t := k.store.tasks[h];
    var k1 := UpdateTask(k, h, t.(mutexesHeld := t.mutexesHeld - 1));
    if t.priority != t.basePriority && t.mutexesHeld - 1 == 0 then
      match DropToBase(k1, h, RankValue(if rankOld then t.priority else t.basePriority))
      case Failure(e) => Failure(e)
      case Success(k2) => Success((k2, true))
    else
      Success((k1, false))
  }

  /**
   * The last step of disinheriting: `h` leaves its state list, takes back its
   * base priority and event value `v`, and joins the ready list of that priority.
   */
  function DropToBase(k: Kernel, h: TaskId, v: Tick): (r: Result<Kernel, Panic>)
    requires KernelOk(k) && h in k.store.tasks
    ensures r.Failure? <==> k.store.tasks[h].stateIn.None?
    ensures r.Failure? ==> r.error == ContainerNotSet
    ensures r.Success? ==>
              var t := k.store.tasks[h];
              var k' := r.value;
              KernelOk(k') && k'.current == k.current && k'.store.tasks.Keys == k.store.tasks.Keys
              && k'.store.lists.Keys == k.store.lists.Keys
              && (forall w :: w in k.store.tasks && w != h ==> k'.store.tasks[w] == k.store.tasks[w])
              && k'.store.tasks[h] == t.(priority := t.basePriority, eventValue := v, stateIn := Some(Ready(t.basePriority)))
  {
    assert TaskOk(k.store, h);
    var t := k.store.tasks[h];
    var k1 := UpdateTask(k, h, t.(priority := t.basePriority));
    var k2 := SetEventValue(k1, h, v);
    Requeue(k2, h)
  }

  /**
   * `task_priority_disinherit` as written: the event item value is computed
   * from the inherited priority the task is giving up.
   */
  function PriorityDisinheritAsWritten(k: Kernel, holder: Option<TaskId>): (r: Result<(Kernel, bool), Panic>)
    requires KernelOk(k) && (holder.Some? ==> holder.value in k.store.tasks)
    ensures holder.None? ==> r == Success((k, false))
    ensures holder.Some? && k.current != holder ==> r.Failure?
    ensures r.Success? && r.value.1 ==>
              holder.Some? &&
              var h := holder.value;
              var t := k.store.tasks[h];
              h in r.value.0.store.tasks
              && r.value.0.store.tasks[h].priority == t.basePriority
              && r.value.0.store.tasks[h].eventValue == RankValue(t.priority)
  {
    Disinherit(k, holder, true)
  }

  /**
   * `task_priority_disinherit` ranking the task on event lists by the base
   * priority it returns to, as `xTaskPriorityDisinherit` of FreeRTOS does.
   */
  function PriorityDisinherit(k: Kernel, holder: Option<TaskId>): (r: Result<(Kernel, bool), Panic>)
    requires KernelOk(k) && (holder.Some? ==> holder.value in k.store.tasks)
    ensures holder.None? ==> r == Success((k, false))
    ensures holder.Some? && k.current != holder ==> r.Failure?
    ensures r.Success? && r.value.1 ==>
              holder.Some? &&
              var h := holder.value;
              h in r.value.0.store.tasks
              && r.value.0.store.tasks[h].priority < MAX_PRIORITIES
              && r.value.0.store.tasks[h].eventValue == RankValue(r.value.0.store.tasks[h].priority)
    ensures r.Success? && holder.Some? ==>
              var h := holder.value;
              var t := k.store.tasks[h];
              var k' := r.value.0;
              KernelOk(k') && k'.current == k.current && k'.store.tasks.Keys == k.store.tasks.Keys
              && (forall w :: w in k.store.tasks && w != h ==> k'.store.tasks[w] == k.store.tasks[w])
              && (r.value.1 <==> t.priority != t.basePriority && t.mutexesHeld == 1)
              && (r.value.1 ==> k'.store.tasks[h] == t.(mutexesHeld := 0, priority := t.basePriority,
                                  eventValue := RankValue(t.basePriority), stateIn := Some(Ready(t.basePriority))))
              && t.mutexesHeld > 0
              && (!r.value.1 ==> k'.store.lists == k.store.lists && k'.store.tasks[h] == t.(mutexesHeld := t.mutexesHeld - 1))
  {
    Disinherit(k, holder, false)
  }

  /** No task runs below its base priority: inheritance only ever lends a higher one. */
  ghost predicate NotBelowBase(k: Kernel)
  {
    forall u :: u in k.store.tasks ==> k.store.tasks[u].priority >= k.store.tasks[u].basePriority
  }

  lemma PriorityInheritKeepsNotBelowBase(k: Kernel, holder: Option<TaskId>)
    requires KernelOk(k) && (holder.Some? ==> holder.value in k.store.tasks) && NotBelowBase(k)
    requires PriorityInherit(k, holder).Success?
    ensures NotBelowBase(PriorityInherit(k, holder).value)
  {
    var k' := PriorityInherit(k, holder).value;
    if holder.Some? {
      var h := holder.value;
      forall u | u in k'.store.tasks
        ensures k'.store.tasks[u].priority >= k'.store.tasks[u].basePriority
      {
        assert u in k.store.tasks;
      }
    }
  }

  lemma PriorityDisinheritKeepsNotBelowBase(k: Kernel, holder: Option<TaskId>)
    requires KernelOk(k) && (holder.Some? ==> holder.value in k.store.tasks) && NotBelowBase(k)
    requires PriorityDisinherit(k, holder).Success?
    ensures NotBelowBase(PriorityDisinherit(k, holder).value.0)
  {
    var k' := PriorityDisinherit(k, holder).value.0;
    if holder.Some? {
      var r := GiveBack(k, holder.value, false);
      assert PriorityDisinherit(k, holder) == r;
      forall u | u in k'.store.tasks
        ensures k'.store.tasks[u].priority >= k'.store.tasks[u].basePriority
      {
        assert u in k.store.tasks;
      }
    }
  }

  /**
   * After inheritance the holder runs at least at the waiter's priority,
   * whatever list it is on, so a task of middle priority cannot keep it
   * from releasing the mutex.
   */
  lemma PriorityInheritLiftsHolder(k: Kernel, h: TaskId)
    requires KernelOk(k) && h in k.store.tasks && k.current.Some?
    ensures PriorityInherit(k, Some(h)).Success?
    ensures var k' := PriorityInherit(k, Some(h)).value;
            h in k'.store.tasks && k.current.value in k'.store.tasks
            && k'.store.tasks[h].priority >= k'.store.tasks[k.current.value].priority
            && k'.store.tasks[h].priority >= k.store.tasks[h].priority
  {
  }

  /**
   * The as-written inheritance leaves a holder that is not in its ready list
   * (delayed, suspended or itself waiting on an event) at its lower priority,
   * where the corrected one raises it.
   */
  lemma InheritAsWrittenSkipsBlockedHolder(k: Kernel, h: TaskId)
    requires KernelOk(k) && h in k.store.tasks && k.current.Some?
    requires k.store.tasks[h].priority < k.store.tasks[k.current.value].priority
    requires k.store.tasks[h].stateIn != Some(Ready(k.store.tasks[h].priority))
    ensures PriorityInheritAsWritten(k, Some(h)).Success? && PriorityInherit(k, Some(h)).Success?
    ensures PriorityInheritAsWritten(k, Some(h)).value.store.tasks[h].priority < k.store.tasks[k.current.value].priority
    ensures PriorityInherit(k, Some(h)).value.store.tasks[h].priority == k.store.tasks[k.current.value].priority
  {
  }

  /**
   * Giving back the last mutex after an inheritance: the as-written event
   * item value ranks the task by the priority it has just given up, the
   * corrected one by the base priority it now runs at.
   */
  lemma DisinheritAsWrittenMisranks(k: Kernel)
    requires KernelOk(k) && k.current.Some?
    requires var t := k.store.tasks[k.current.value];
             t.mutexesHeld == 1 && t.priority != t.basePriority && t.stateIn.Some?
    ensures PriorityDisinheritAsWritten(k, k.current).Success? && PriorityDisinherit(k, k.current).Success?
    ensures var c := k.current.value;
            var a := PriorityDisinheritAsWritten(k, k.current).value.0.store.tasks[c];
            var b := PriorityDisinherit(k, k.current).value.0.store.tasks[c];
            a.priority == b.priority && a.eventValue != b.eventValue
            && b.eventValue == RankValue(b.priority)
  {
    var c := k.current.value;
    assert TaskOk(k.store, c);
    var t := k.store.tasks[c];
    RankValueOrdersByPriority(t.priority, t.basePriority);
    RankValueOrdersByPriority(t.basePriority, t.priority);
  }

  /**
   * Taking a mutex without inheriting anything and giving it back leaves
   * the kernel as it was and asks for no yield.
   */
  lemma TakeThenGiveBackRestores(k: Kernel)
    requires KernelOk(k) && k.current.Some?
    requires k.store.tasks[k.current.value].priority == k.store.tasks[k.current.value].basePriority
    ensures IncrementMutexHeld(k).1 == k.current
    ensures PriorityDisinherit(IncrementMutexHeld(k).0, k.current) == Success((k, false))
  {
    var c := k.current.value;
    var k1 := IncrementMutexHeld(k).0;
    assert KernelOk(k1) && k1.store.tasks[c].mutexesHeld > 0;
    GiveBackUndoesTake(k, k1, c);
    DisinheritByCurrent(k1, c);
  }

  /** The running task that holds a mutex gives one back. */
  lemma DisinheritByCurrent(k: Kernel, c: TaskId)
    requires KernelOk(k) && k.current == Some(c) && c in k.store.tasks && k.store.tasks[c].mutexesHeld > 0
    ensures PriorityDisinherit(k, Some(c)) == GiveBack(k, c, false)
  {
  }

  lemma GiveBackUndoesTake(k: Kernel, k1: Kernel, c: TaskId)
    requires KernelOk(k1) && c in k.store.tasks
    requires k.store.tasks[c].priority == k.store.tasks[c].basePriority
    requires k1 == k.(store := k1.store) && k1.store.lists == k.store.lists
    requires k1.store.tasks.Keys == k.store.tasks.Keys
    requires k1.store.tasks[c] == k.store.tasks[c].(mutexesHeld := k.store.tasks[c].mutexesHeld + 1)
    requires forall w :: w in k.store.tasks && w != c ==> k1.store.tasks[w] == k.store.tasks[w]
    ensures GiveBack(k1, c, false) == Success((k, false))
  {
    var t := k.store.tasks[c];
    var r := GiveBack(k1, c, false);
    assert r.Success? && !r.value.1;
    var k2 := r.value.0;
    assert k2.store.tasks[c] == t;
    SameFieldsSameKernel(k, k1, k2, c);
  }

  /** A kernel whose every task record and list equals those of `k`, and whose other fields are kept, is `k`. */
  lemma SameFieldsSameKernel(k: Kernel, k1: Kernel, k2: Kernel, c: TaskId)
    requires k1 == k.(store := k1.store) && k2 == k1.(store := k2.store)
    requires c in k.store.tasks && k2.store.tasks.Keys == k1.store.tasks.Keys && k1.store.tasks.Keys == k.store.tasks.Keys
    requires k2.store.lists == k.store.lists && k2.store.tasks[c] == k.store.tasks[c]
    requires forall w :: w in k1.store.tasks && w != c ==> k2.store.tasks[w] == k1.store.tasks[w]
    requires forall w :: w in k.store.tasks && w != c ==> k1.store.tasks[w] == k.store.tasks[w]
    ensures k2 == k
  {
    assert k2.store.tasks == k.store.tasks;
  }
}
