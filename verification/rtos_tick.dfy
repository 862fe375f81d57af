/**
 * The tick interrupt of the FreeRTOS-style kernel (`task_increment_tick`),
 * the delayed-list switch at tick wrap-around, the replay of ticks that
 * arrived while the scheduler was suspended, and `task_resume_all`, which
 * ties them together with the draining of the pending-ready list.
 */
module TickInterrupt {
  import opened Wrappers
  import opened Ticks
  import opened PriorityList
  import opened RtosKernel
  import opened Scheduler

  /**
   * `taskSWITCH_DELAYED_LISTS` as the kernel needs it at wrap-around: the
   * two delayed-list names trade places, the overflow count goes up and the
   * wake-up bound is recomputed from the new delayed list.
   */
  function SwitchDelayedLists(k: Kernel): (k': Kernel)
    requires KernelOk(k)
    ensures KernelOk(k')
    ensures k'.delayed == k.overflow && k'.overflow == k.delayed && k'.overflows == k.overflows + 1
    ensures k' == k.(delayed := k'.delayed, overflow := k'.overflow, overflows := k'.overflows, nextUnblock := k'.nextUnblock)
    ensures DelayedItems(k') == k.store.lists[k.overflow].items
    ensures |DelayedItems(k')| == 0 ==> k'.nextUnblock == MAX_DELAY
    ensures |DelayedItems(k')| > 0 ==> k'.nextUnblock == DelayedItems(k')[0].value
  {
    var l := k.store.lists[k.overflow];
    var bound := if |l.items| == 0 then MAX_DELAY else l.items[0].value;
    var k' := k.(delayed := k.overflow, overflow := k.delayed, overflows := k.overflows + 1, nextUnblock := bound);
    assert forall p: nat :: k'.topReady < p < MAX_PRIORITIES ==> ReadyLen(k'.store, p) == ReadyLen(k.store, p);
    k'
  }

  /**
   * `switch_delayed_lists!` as written: the contents of the two delayed
   * lists are exchanged while every linked item keeps naming the list it was
   * linked into, the overflow count is left alone and the wake-up bound is
   * not recomputed.
   */
  function SwitchDelayedListsAsWritten(k: Kernel): (k': Kernel)
    requires HasSystemLists(k.store) && DelayedPair(k)
    ensures k'.store.tasks == k.store.tasks && k'.store.lists.Keys == k.store.lists.Keys
    ensures k'.store.lists[k.delayed] == k.store.lists[k.overflow]
    ensures k'.store.lists[k.overflow] == k.store.lists[k.delayed]
    ensures forall id :: id in k.store.lists && id != k.delayed && id != k.overflow ==>
              k'.store.lists[id] == k.store.lists[id]
    ensures k' == k.(store := k'.store)
  {
    var l := k.store.lists;
    k.(store := k.store.(lists := l[k.delayed := l[k.overflow]][k.overflow := l[k.delayed]]))
  }

  /**
   * With a task waiting in the overflow list, the content swap leaves its
   * item in a list other than the one its task records, so a later removal
   * goes through the wrong list.
   */
  lemma SwitchAsWrittenMisfilesItems(k: Kernel)
    requires KernelOk(k) && |k.store.lists[k.overflow].items| > 0
    ensures !Consistent(SwitchDelayedListsAsWritten(k).store)
  {
    var k' := SwitchDelayedListsAsWritten(k);
    var it := k.store.lists[k.overflow].items[0];
    HeadIsLinked(k.store, k.overflow);
    assert it in multiset(k'.store.lists[k.delayed].items);
    assert !ItemOk(k'.store, k.delayed, it);
  }

  /**
   * With the delayed list drained (wake-up bound `portMAX_DELAY`) and a task
   * waiting in the overflow list, the wake-up bound after the as-written
   * switch lies beyond that task's wake time, so the tick handler does not
   * look at the list when the task falls due.
   */
  lemma SwitchAsWrittenKeepsStaleBound(k: Kernel)
    requires KernelOk(k) && |k.store.lists[k.delayed].items| == 0 && k.nextUnblock == MAX_DELAY
    requires |k.store.lists[k.overflow].items| > 0 && k.store.lists[k.overflow].items[0].value < MAX_DELAY
    ensures var k' := SwitchDelayedListsAsWritten(k);
            DelayedItems(k') == k.store.lists[k.overflow].items
            && k'.nextUnblock > DelayedItems(k')[0].value
  {
  }

  /** A task whose state item waits in the delayed list for a wake time already reached. */
  ghost predicate IsDue(k: Kernel, w: TaskId)
  {
    w in k.store.tasks && k.store.tasks[w].stateIn == Some(k.delayed) && k.store.tasks[w].stateValue <= k.tick
  }

  /**
   * One round of the wake-up loop of `task_increment_tick`: the head of the
   * delayed list leaves its state list and, if it has one, its event list,
   * and is appended to its ready list; the flag says whether its priority
   * is at least the current task's.
   */
  function WakeHead(k: Kernel): (r: Result<(Kernel, bool), Panic>)
    requires KernelOk(k) && |DelayedItems(k)| > 0
    ensures r.Failure? <==> k.current.None?
    ensures r.Failure? ==> r.error == NoCurrentTask
    ensures r.Success? ==>
              var u := DelayedItems(k)[0].owner;
              var k' := r.value.0;
              KernelOk(k') && |DelayedItems(k')| == |DelayedItems(k)| - 1
              && k.current.Some? && u in k.store.tasks
              && r.value.1 == (k.store.tasks[u].priority >= k.store.tasks[k.current.value].priority)
    ensures r.Success? ==>
              var u := DelayedItems(k)[0].owner;
              WokenFrame(k, r.value.0, u)
  {
    var u := DelayedItems(k)[0].owner;
    DelayedHead(k);
    var t := k.store.tasks[u];
    var ev := t.eventIn.Some?;
    match Detach(k, u, ev)
    case Failure(e) => Failure(e)
    case Success(_) =>
      if k.current.None? then Failure(NoCurrentTask)
      else Success((ReadyDetached(k, u, ev), t.priority >= k.store.tasks[k.current.value].priority))
  }

  /** The task `u`, detached from the delayed list, is appended to its ready list. */
  function ReadyDetached(k: Kernel, u: TaskId, ev: bool): (k3: Kernel)
    requires KernelOk(k) && u in k.store.tasks && k.store.tasks[u].stateIn == Some(k.delayed)
    requires ev == k.store.tasks[u].eventIn.Some? && Detach(k, u, ev).Success?
    ensures KernelOk(k3) && |k3.store.lists[k.delayed].items| == |k.store.lists[k.delayed].items| - 1
    ensures WokenFrame(k, k3, u)
  {
    var k2 := Detach(k, u, ev).value;
    var k3 := AppendToReady(k2, u);
    WakeFrame(k, k2, k3, u, ev);
    k3
  }

  /** The head of the delayed list is a task waiting there until the head's wake time. */
  lemma DelayedHead(k: Kernel)
    requires KernelOk(k) && |DelayedItems(k)| > 0
    ensures var u := DelayedItems(k)[0].owner;
            u in k.store.tasks && k.store.tasks[u].stateIn == Some(k.delayed)
            && k.store.tasks[u].stateValue == DelayedItems(k)[0].value
  {
    HeadIsLinked(k.store, k.delayed);
  }

  /** `k'` is `k` with task `u` readied and everything else but the store and top ready priority kept. */
  ghost predicate WokenFrame(k: Kernel, k': Kernel, u: TaskId)
  {
    u in k.store.tasks
    && k' == k.(store := k'.store, topReady := k'.topReady)
    && k'.store.tasks.Keys == k.store.tasks.Keys && k'.store.lists.Keys == k.store.lists.Keys
    && k'.store.tasks[u] == Readied(k.store.tasks[u])
    && (forall w :: w in k.store.tasks && w != u ==> k'.store.tasks[w] == k.store.tasks[w])
  }

  lemma WakeFrame(k: Kernel, k2: Kernel, k3: Kernel, u: TaskId, ev: bool)
    requires u in k.store.tasks && k.store.tasks[u].stateIn == Some(k.delayed) && DelayedPair(k)
    requires HasSystemLists(k.store) && HasSystemLists(k2.store)
    requires k.store.tasks[u].priority < MAX_PRIORITIES && ev == k.store.tasks[u].eventIn.Some?
    requires k2 == k.(store := k2.store) && k2.store.tasks.Keys == k.store.tasks.Keys
    requires k2.store.lists.Keys == k.store.lists.Keys
    requires k2.store.tasks[u] == k.store.tasks[u].(stateIn := None, eventIn := if ev then None else k.store.tasks[u].eventIn)
    requires forall w :: w in k.store.tasks && w != u ==> k2.store.tasks[w] == k.store.tasks[w]
    requires |k2.store.lists[k.delayed].items| == |k.store.lists[k.delayed].items| - 1
    requires k3 == k2.(store := k3.store, topReady := k3.topReady)
    requires FramedExcept(k2.store, k3.store, u, Ready(k.store.tasks[u].priority))
    requires k3.store.tasks[u] == k2.store.tasks[u].(stateIn := Some(Ready(k.store.tasks[u].priority)))
    ensures |k3.store.lists[k.delayed].items| == |k.store.lists[k.delayed].items| - 1
    ensures WokenFrame(k, k3, u)
  {
  }

  /**
   * The wake-up loop of `task_increment_tick`, entered when the tick has
   * reached the wake-up bound: due tasks are readied head first until the
   * delayed list is empty (bound `portMAX_DELAY`) or its head lies in the
   * future (bound: the head's wake time).
   */
  function UnblockDue(k: Kernel, switch: bool): (r: Result<(Kernel, bool), Panic>)
    requires KernelOk(k)
    decreases |DelayedItems(k)|
    ensures r.Success? ==>
              var k' := r.value.0;
              KernelOk(k') && k'.tick == k.tick && k'.delayed == k.delayed
    ensures r.Success? && switch ==> r.value.1
  {
    var l := k.store.lists[k.delayed];
    if |l.items| == 0 || k.tick < l.items[0].value then
      var k' := k.(nextUnblock := if |l.items| == 0 then MAX_DELAY else l.items[0].value);
      SettledBound(k, k');
      Success((k', switch))
    else
      match WakeHead(k)
      case Failure(e) => Failure(e)
      case Success((k1, higher)) =>
        assert k1.tick == k.tick && k1.delayed == k.delayed;
        UnblockDue(k1, switch || higher)
  }

  /** Once the head lies in the future, the exact bound keeps the invariant and nothing is due. */
  lemma SettledBound(k: Kernel, k': Kernel)
    requires KernelOk(k)
    requires |DelayedItems(k)| > 0 ==> k.tick < DelayedItems(k)[0].value
    requires k' == k.(nextUnblock := if |DelayedItems(k)| == 0 then MAX_DELAY else DelayedItems(k)[0].value)
    ensures KernelOk(k')
    ensures forall i :: 0 <= i < |DelayedItems(k')| ==> DelayedItems(k')[i].value > k.tick
  {
    assert forall p: nat :: k'.topReady < p < MAX_PRIORITIES ==> ReadyLen(k'.store, p) == ReadyLen(k.store, p);
  }

  /**
   * The wake-up loop leaves the head of the delayed list, and so (the list
   * being ordered) every delayed task, in the future.
   */
  lemma {:induction false} UnblockDueSettles(k: Kernel, switch: bool)
    requires KernelOk(k)
    decreases |DelayedItems(k)|
    ensures UnblockDue(k, switch).Success? ==>
              var k' := UnblockDue(k, switch).value.0;
              |DelayedItems(k')| > 0 ==> DelayedItems(k')[0].value > k.tick
  {
    var l := k.store.lists[k.delayed];
    if |l.items| == 0 || k.tick < l.items[0].value {
    } else if WakeHead(k).Success? {
      var k1 := WakeHead(k).value.0;
      var higher := WakeHead(k).value.1;
      assert k1.tick == k.tick;
      assert UnblockDue(k, switch) == UnblockDue(k1, switch || higher);
      UnblockDueSettles(k1, switch || higher);
    }
  }

  /** In an ordered list whose head lies after `t`, every item does. */
  lemma FutureHeadBoundsAll(d: seq<Item>, t: Tick)
    requires Sorted(d) && (|d| > 0 ==> t < d[0].value)
    ensures forall i :: 0 <= i < |d| ==> d[i].value > t
  {
    forall i | 0 <= i < |d| ensures d[i].value > t {
      assert d[0].value <= d[i].value;
    }
  }

  /**
   * The wake-up loop leaves the bound exact: the wake time of the new head
   * of the delayed list, or `portMAX_DELAY` when it is empty.
   */
  lemma {:induction false} UnblockDueSetsBound(k: Kernel, switch: bool)
    requires KernelOk(k)
    decreases |DelayedItems(k)|
    ensures UnblockDue(k, switch).Success? ==>
              var k' := UnblockDue(k, switch).value.0;
              (|DelayedItems(k')| == 0 ==> k'.nextUnblock == MAX_DELAY)
              && (|DelayedItems(k')| > 0 ==> k'.nextUnblock == DelayedItems(k')[0].value)
  {
    var l := k.store.lists[k.delayed];
    if |l.items| > 0 && l.items[0].value <= k.tick && WakeHead(k).Success? {
      var (k1, higher) := WakeHead(k).value;
      assert UnblockDue(k, switch) == UnblockDue(k1, switch || higher);
      UnblockDueSetsBound(k1, switch || higher);
    }
  }

  /** A task is due exactly when the head of the delayed list has been reached. */
  lemma DueIffHeadReached(k: Kernel)
    requires KernelOk(k)
    ensures (exists w :: IsDue(k, w)) <==> |DelayedItems(k)| > 0 && DelayedItems(k)[0].value <= k.tick
  {
    var d := DelayedItems(k);
    if |d| > 0 && d[0].value <= k.tick {
      HeadIsLinked(k.store, k.delayed);
      assert IsDue(k, d[0].owner);
    }
    if w :| IsDue(k, w) {
      assert TaskOk(k.store, w);
      assert SlotOk(k.store, w, k.store.tasks[w], false);
      var i :| 0 <= i < |d| && d[i] == Item(w, k.store.tasks[w].stateValue);
      assert d[0].value <= d[i].value;
    }
  }

  /** After waking the head, the due tasks are the earlier ones less the head. */
  lemma WakeHeadDue(k: Kernel, k1: Kernel, u: TaskId)
    requires WokenFrame(k, k1, u) && DelayedPair(k)
    ensures forall w :: IsDue(k1, w) <==> IsDue(k, w) && w != u
  {
  }

  /** The wake-up loop panics exactly when a task is due while there is no current task. */
  lemma UnblockDueFailure(k: Kernel, switch: bool)
    requires KernelOk(k)
    ensures UnblockDue(k, switch).Failure? <==> (exists w :: IsDue(k, w)) && k.current.None?
  {
    DueIffHeadReached(k);
    UnblockDueFailsAtHead(k, switch);
  }

  /** The wake-up loop panics exactly when the head is due while there is no current task. */
  lemma {:induction false} UnblockDueFailsAtHead(k: Kernel, switch: bool)
    requires KernelOk(k)
    decreases |DelayedItems(k)|
    ensures UnblockDue(k, switch).Failure? <==>
              |DelayedItems(k)| > 0 && DelayedItems(k)[0].value <= k.tick && k.current.None?
  {
    var l := k.store.lists[k.delayed];
    if |l.items| > 0 && l.items[0].value <= k.tick {
      var w := WakeHead(k);
      if w.Success? {
        var (k1, higher) := w.value;
        assert WokenFrame(k, k1, l.items[0].owner);
        assert KernelOk(k1) && k1.current == k.current && k1.current.Some?;
        assert UnblockDue(k, switch) == UnblockDue(k1, switch || higher);
        UnblockDueFailsAtHead(k1, switch || higher);
      }
    }
  }

  /** `k'` is `k` with its due tasks readied. */
  ghost predicate ReadiedDue(k: Kernel, k': Kernel)
  {
    k' == k.(store := k'.store, topReady := k'.topReady, nextUnblock := k'.nextUnblock)
    && k'.store.tasks.Keys == k.store.tasks.Keys && k'.store.lists.Keys == k.store.lists.Keys
    && forall w :: w in k.store.tasks ==>
         k'.store.tasks[w] == if IsDue(k, w) then Readied(k.store.tasks[w]) else k.store.tasks[w]
  }

  lemma ReadiedDueCompose(k: Kernel, k1: Kernel, k2: Kernel, u: TaskId)
    requires IsDue(k, u) && WokenFrame(k, k1, u) && DelayedPair(k)
    requires ReadiedDue(k1, k2)
    ensures ReadiedDue(k, k2)
  {
    WakeHeadDue(k, k1, u);
    assert !IsDue(k1, u);
  }

  /** The wake-up loop readies exactly the due tasks and changes no other task. */
  lemma {:induction false} UnblockDueReadies(k: Kernel, switch: bool)
    requires KernelOk(k)
    decreases |DelayedItems(k)|
    ensures UnblockDue(k, switch).Success? ==> ReadiedDue(k, UnblockDue(k, switch).value.0)
  {
    DueIffHeadReached(k);
    var l := k.store.lists[k.delayed];
    if |l.items| > 0 && l.items[0].value <= k.tick && WakeHead(k).Success? {
      var u := l.items[0].owner;
      DelayedHead(k);
      var (k1, higher) := WakeHead(k).value;
      assert UnblockDue(k, switch) == UnblockDue(k1, switch || higher);
      UnblockDueReadies(k1, switch || higher);
      if UnblockDue(k1, switch || higher).Success? {
        ReadiedDueCompose(k, k1, UnblockDue(k1, switch || higher).value.0, u);
      }
    }
  }

  /** Some due task has at least the current task's priority. */
  ghost predicate DueOutranks(k: Kernel)
  {
    k.current.Some? && k.current.value in k.store.tasks
    && exists w :: IsDue(k, w) && k.store.tasks[w].priority >= k.store.tasks[k.current.value].priority
  }

  lemma DueOutranksAfterWake(k: Kernel, k1: Kernel, u: TaskId, higher: bool)
    requires IsDue(k, u) && WokenFrame(k, k1, u) && DelayedPair(k) && k.current.Some? && k.current.value in k.store.tasks
    requires higher == (k.store.tasks[u].priority >= k.store.tasks[k.current.value].priority)
    ensures DueOutranks(k) == (higher || DueOutranks(k1))
  {
    WakeHeadDue(k, k1, u);
    var c := k.current.value;
    assert k1.store.tasks[c].priority == k.store.tasks[c].priority;
    if w :| IsDue(k, w) && k.store.tasks[w].priority >= k.store.tasks[c].priority {
      if w != u {
        assert IsDue(k1, w);
      }
    }
  }

  /**
   * The loop asks for a context switch exactly when one was already asked
   * for or a readied task has at least the current task's priority.
   */
  lemma {:induction false} UnblockDueSwitch(k: Kernel, switch: bool)
    requires KernelOk(k)
    decreases |DelayedItems(k)|
    ensures UnblockDue(k, switch).Success? ==> UnblockDue(k, switch).value.1 == (switch || DueOutranks(k))
  {
    DueIffHeadReached(k);
    var l := k.store.lists[k.delayed];
    if |l.items| > 0 && l.items[0].value <= k.tick && WakeHead(k).Success? {
      var u := l.items[0].owner;
      DelayedHead(k);
      var (k1, higher) := WakeHead(k).value;
      assert UnblockDue(k, switch) == UnblockDue(k1, switch || higher);
      UnblockDueSwitch(k1, switch || higher);
      DueOutranksAfterWake(k, k1, u, higher);
    }
  }

  /**
   * The first step of `task_increment_tick` with the scheduler running: the
   * tick count goes up by one, wrapping at 2^32, and the delayed lists are
   * switched when it wraps to zero.
   */
  function AdvanceTick(k: Kernel): (k': Kernel)
    requires KernelOk(k)
    ensures KernelOk(k') && k'.tick == AddTick(k.tick, 1) && k'.store == k.store
    ensures k.tick < MAX_DELAY ==> k' == k.(tick := k.tick + 1)
    ensures k.tick == MAX_DELAY ==> k'.tick == 0 && k' == SwitchDelayedLists(k).(tick := 0)
  {
    var t := AddTick(k.tick, 1);
    var k1 := k.(tick := t);
    KernelOkFields(k, k1);
    if t == 0 then SwitchDelayedLists(k1) else k1
  }

  /**
   * The wake-up part of `task_increment_tick`: the loop runs only once the
   * tick has reached the wake-up bound.  It panics exactly when a task is
   * due with no current task; otherwise exactly the due tasks are readied,
   * none is left due, and the flag says whether a readied task outranks or
   * ties the current one.
   */
  method WakeUps(k: Kernel) returns (r: Result<(Kernel, bool), Panic>)
    requires KernelOk(k)
    ensures r.Failure? <==> (exists w :: IsDue(k, w)) && k.current.None?
    ensures r.Failure? ==> r.error == NoCurrentTask
    ensures r.Success? ==>
              var k' := r.value.0;
              KernelOk(k') && k'.tick == k.tick && k'.delayed == k.delayed
              && (forall i :: 0 <= i < |DelayedItems(k')| ==> DelayedItems(k')[i].value > k'.tick)
              && ReadiedDue(k, k') && r.value.1 == DueOutranks(k)
  {
    if k.tick >= k.nextUnblock {
      r := UnblockDue(k, false);
      UnblockDueSettles(k, false);
      if r.Success? {
        FutureHeadBoundsAll(DelayedItems(r.value.0), k.tick);
      }
      UnblockDueFailure(k, false);
      UnblockDueReadies(k, false);
      UnblockDueSwitch(k, false);
    } else {
      NoneDueBelowBound(k);
      FutureAfterTick(k, k);
      r := Success((k, false));
    }
  }

  /** Below the wake-up bound nothing in the delayed list is due. */
  lemma FutureAfterTick(k1: Kernel, k2: Kernel)
    requires KernelOk(k1) && KernelOk(k2) && k2.tick == k1.tick && k2.delayed == k1.delayed
    requires k1.tick < k1.nextUnblock ==> k2 == k1
    requires k1.tick >= k1.nextUnblock ==>
               forall i :: 0 <= i < |DelayedItems(k2)| ==> DelayedItems(k2)[i].value > k1.tick
    ensures forall i :: 0 <= i < |DelayedItems(k2)| ==> DelayedItems(k2)[i].value > k2.tick
  {
    if k1.tick < k1.nextUnblock {
      var d := DelayedItems(k1);
      forall i | 0 <= i < |d| ensures d[i].value > k1.tick {
        assert d[0].value <= d[i].value;
      }
    }
  }

  /** Below the wake-up bound no task is due. */
  lemma NoneDueBelowBound(k: Kernel)
    requires KernelOk(k) && k.tick < k.nextUnblock
    ensures forall w :: !IsDue(k, w)
  {
    DueIffHeadReached(k);
  }

  /**
   * `task_increment_tick`.  With the scheduler suspended the tick is only
   * counted as pended and the answer is whether a yield is pending.
   * Otherwise the tick advances (wrapping, with the delayed lists switched
   * at zero), exactly the tasks due at the new count are readied, nothing
   * due is left behind, and a switch is asked for exactly when a readied
   * task is at least as urgent as the current task or the current
   * priority's ready list holds another task to share time with; with no
   * current task the handler panics.
   */
  method IncrementTick(k: Kernel) returns (r: Result<(Kernel, bool), Panic>)
    requires KernelOk(k)
    ensures k.suspended > 0 ==> r == Success((k.(pendedTicks := k.pendedTicks + 1), k.yieldPending))
    ensures r.Success? ==> KernelOk(r.value.0)
    ensures k.suspended == 0 ==> (r.Failure? <==> k.current.None?)
    ensures r.Failure? ==> r.error == NoCurrentTask
    ensures k.suspended == 0 && r.Success? ==> TickOutcome(k, r.value.0, r.value.1)
    ensures k.suspended == 0 && r.Success? ==> TickKeeps(k, r.value.0)
  {
    if k.suspended > 0 {
      return Success((k.(pendedTicks := k.pendedTicks + 1), k.yieldPending));
    }
    r := RunningTick(k);
  }

  /**
   * What a tick does with the scheduler running: the count advances by one
   * modulo 2^32, no delayed task is left due, exactly the tasks due at the
   * new count are readied, and the switch request is exactly "a readied
   * task outranks or ties the current task, or the current priority has
   * another ready task".
   */
  ghost predicate TickOutcome(k: Kernel, k': Kernel, switch: bool)
    requires KernelOk(k) && KernelOk(k')
  {
    k'.tick == AddTick(k.tick, 1) && k'.current == k.current && k.current.Some?
    && (forall i :: 0 <= i < |DelayedItems(k')| ==> DelayedItems(k')[i].value > k'.tick)
    && ReadiedDue(AdvanceTick(k), k')
    && switch == (DueOutranks(AdvanceTick(k))
                  || ReadyLen(k'.store, k'.store.tasks[k.current.value].priority) > 1)
  }

  /** A running tick leaves the suspension depth, the pended count and the pending yield alone. */
  predicate TickKeeps(k: Kernel, k': Kernel)
  {
    k'.suspended == k.suspended && k'.pendedTicks == k.pendedTicks && k'.yieldPending == k.yieldPending
    && k'.tick == AddTick(k.tick, 1) && k'.current == k.current && k'.store.lists.Keys == k.store.lists.Keys
    && k'.store.tasks.Keys == k.store.tasks.Keys
  }

  /** `task_increment_tick` with the scheduler running. */
  method RunningTick(k: Kernel) returns (r: Result<(Kernel, bool), Panic>)
    requires KernelOk(k) && k.suspended == 0
    ensures r.Failure? <==> k.current.None?
    ensures r.Failure? ==> r.error == NoCurrentTask
    ensures r.Success? ==> KernelOk(r.value.0) && TickOutcome(k, r.value.0, r.value.1)
    ensures r.Success? ==> TickKeeps(k, r.value.0)
  {
    var k1 := AdvanceTick(k);
    var w := WakeUps(k1);
    if w.Failure? {
      return Failure(w.error);
    }
    var (k2, switch) := w.value;
    var cur := CurrentPriority(k2);
    if cur.Failure? {
      return Failure(cur.error);
    }
    r := Success((k2, switch || ReadyLen(k2.store, cur.value) > 1));
  }

  lemma TicksLaterNext(t: Tick, n: nat)
    ensures AddTick(TicksLater(t, n), 1) == TicksLater(t, n + 1)
  {
    var q := (t + n) / TICK_MODULUS;
    assert t + n == q * TICK_MODULUS + TicksLater(t, n);
    if TicksLater(t, n) + 1 == TICK_MODULUS {
      assert t + n + 1 == (q + 1) * TICK_MODULUS;
    } else {
      assert t + n + 1 == q * TICK_MODULUS + TicksLater(t, n) + 1;
    }
  }

  /**
   * `process_pended_ticks`: the ticks counted while the scheduler was
   * suspended are replayed through the tick handler, every one that asks
   * for a switch leaving a yield pending, and the count is cleared.
   */
  method ProcessPended(k: Kernel) returns (r: Result<Kernel, Panic>)
    requires KernelOk(k) && k.suspended == 0
    ensures k.pendedTicks == 0 ==> r == Success(k)
    ensures k.pendedTicks > 0 && k.current.None? ==> r == Failure(NoCurrentTask)
    ensures k.current.Some? ==> r.Success?
    ensures r.Success? ==>
              var k' := r.value;
              KernelOk(k') && k'.pendedTicks == 0 && k'.suspended == 0 && k'.current == k.current
              && k'.store.lists.Keys == k.store.lists.Keys && k'.store.tasks.Keys == k.store.tasks.Keys
              && k'.tick == TicksLater(k.tick, k.pendedTicks)
              && (k.yieldPending ==> k'.yieldPending)
              && (|k.store.lists[PendingReady].items| == 0 ==> |k'.store.lists[PendingReady].items| == 0)
  {
    if k.pendedTicks == 0 {
      return Success(k);
    }
    var cur := k;
    var i := 0;
    while i < k.pendedTicks
      invariant 0 <= i <= k.pendedTicks
      invariant KernelOk(cur) && cur.suspended == 0 && cur.pendedTicks == k.pendedTicks
      invariant cur.current == k.current && (i > 0 ==> k.current.Some?)
      invariant cur.store.lists.Keys == k.store.lists.Keys && cur.store.tasks.Keys == k.store.tasks.Keys
      invariant cur.tick == TicksLater(k.tick, i)
      invariant k.yieldPending ==> cur.yieldPending
      invariant |k.store.lists[PendingReady].items| == 0 ==> |cur.store.lists[PendingReady].items| == 0
    {
      var t := IncrementTick(cur);
      if t.Failure? {
        return Failure(t.error);
      }
      var (next, switch) := t.value;
      TicksLaterNext(k.tick, i);
      if |cur.store.lists[PendingReady].items| == 0 {
        NoPendingAfterTick(cur, next, switch);
      }
      cur := next.(yieldPending := next.yieldPending || switch);
      i := i + 1;
    }
    r := Success(cur.(pendedTicks := 0));
  }

  /** A tick never puts anything on an empty pending-ready list. */
  lemma NoPendingAfterTick(k: Kernel, k': Kernel, switch: bool)
    requires KernelOk(k) && KernelOk(k') && k.suspended == 0
    requires |k.store.lists[PendingReady].items| == 0 && TickOutcome(k, k', switch)
    ensures |k'.store.lists[PendingReady].items| == 0
  {
    PendingListNonEmpty(k);
    PendingListNonEmpty(k');
    var k0 := AdvanceTick(k);
    assert forall w :: w in k'.store.tasks ==> !IsPending(k', w) by {
      forall w | w in k'.store.tasks ensures !IsPending(k', w) {
        assert !IsPending(k, w);
      }
    }
  }

  /**
   * What resuming leaves alone when no tick was pended: the names of the
   * delayed lists, the tick, the running task and every task that was not
   * waiting on the pending-ready list; with nothing pending either, the
   * wake-up bound too.
   */
  ghost predicate QuietResume(k: Kernel, k': Kernel)
  {
    k'.delayed == k.delayed && k'.overflow == k.overflow && k'.tick == k.tick && k'.current == k.current
    && k'.store.tasks.Keys == k.store.tasks.Keys
    && (forall w :: w in k.store.tasks && !IsPending(k, w) ==> k'.store.tasks[w] == k.store.tasks[w])
    && (PendingReady in k.store.lists && |k.store.lists[PendingReady].items| == 0 ==> k'.nextUnblock == k.nextUnblock)
  }

  /**
   * `task_resume_all`: leaves one level of scheduler suspension, panicking
   * when there is none.  On leaving the last one, with tasks in the system,
   * it drains the pending-ready list, recomputes the wake-up bound if
   * anything was drained, replays the pended ticks and answers whether a
   * yield is pending (the yield itself is left to the caller).
   */
  method ResumeAll(k: Kernel) returns (r: Result<(Kernel, bool), Panic>)
    requires KernelOk(k)
    ensures r.Success? && k.pendedTicks == 0 ==> QuietResume(k, r.value.0)
    ensures k.suspended == 0 <==> r == Failure(ResumeWithoutSuspend)
    ensures k.suspended > 1 || (k.suspended == 1 && k.numTasks == 0) ==>
              r == Success((k.(suspended := k.suspended - 1), false))
    ensures r.Success? ==> KernelOk(r.value.0) && r.value.0.suspended == k.suspended - 1
    ensures r.Success? ==> r.value.0.store.lists.Keys == k.store.lists.Keys && r.value.0.store.tasks.Keys == k.store.tasks.Keys
    ensures r.Success? && k.suspended == 1 && k.numTasks > 0 ==>
              var k' := r.value.0;
              |k'.store.lists[PendingReady].items| == 0 && k'.pendedTicks == 0
              && k'.tick == TicksLater(k.tick, k.pendedTicks)
              && r.value.1 == k'.yieldPending
              && (k.yieldPending ==> r.value.1)
  {
    if k.suspended == 0 {
      return Failure(ResumeWithoutSuspend);
    }
    var k1 := k.(suspended := k.suspended - 1);
    KernelOkFields(k, k1);
    if k1.suspended > 0 || k1.numTasks == 0 {
      return Success((k1, false));
    }
    r := ResumeScheduler(k1);
  }

  /**
   * `move_tasks_to_ready_list` as `task_resume_all` calls it: the list ends
   * empty, every task that was pending is readied and no other task changes,
   * the scheduler fields other than the top ready priority and the yield
   * flag are kept, and a yield is left pending exactly when one already was
   * or a drained task had at least the current task's priority.
   */
  method DrainPending(k: Kernel) returns (r: Result<(Kernel, bool), Panic>)
    requires KernelOk(k)
    ensures r.Failure? <==>
              (exists w :: IsPending(k, w) && k.store.tasks[w].stateIn.None?)
              || (|k.store.lists[PendingReady].items| > 0 && k.current.None?)
    ensures r.Failure? ==> r.error == ContainerNotSet || r.error == NoCurrentTask
    ensures r.Success? ==>
              var k' := r.value.0;
              KernelOk(k') && |k'.store.lists[PendingReady].items| == 0
              && r.value.1 == (|k.store.lists[PendingReady].items| > 0)
              && ReadiedPending(k, k')
              && k'.yieldPending == (k.yieldPending || PendingOutranks(k))
  {
    r := MoveTasks(k);
    MoveTasksFailure(k);
    MoveTasksReadies(k);
    MoveTasksYield(k);
  }

  /**
   * The work `task_resume_all` does once the last suspension level is
   * gone: drain the pending-ready list, recompute the wake-up bound if
   * anything was drained, replay the pended ticks.
   */
  method ResumeScheduler(k: Kernel) returns (r: Result<(Kernel, bool), Panic>)
    requires KernelOk(k) && k.suspended == 0
    ensures r.Success? && k.pendedTicks == 0 ==> QuietResume(k, r.value.0)
    ensures r.Failure? ==> r.error != ResumeWithoutSuspend
    ensures r.Success? ==>
              var k' := r.value.0;
              KernelOk(k') && k'.suspended == 0 && k'.store.lists.Keys == k.store.lists.Keys
              && k'.store.tasks.Keys == k.store.tasks.Keys
              && |k'.store.lists[PendingReady].items| == 0 && k'.pendedTicks == 0
              && k'.tick == TicksLater(k.tick, k.pendedTicks)
              && r.value.1 == k'.yieldPending
              && (k.yieldPending ==> r.value.1)
  {
    var m := DrainPending(k);
    if m.Failure? {
      return Failure(m.error);
    }
    var (k2, moved) := m.value;
    var k3 := if moved then ResetNextUnblock(k2) else k2;
    var p := ProcessPended(k3);
    if p.Failure? {
      return Failure(p.error);
    }
    var k4 := p.value;
    r := Success((k4, k4.yieldPending));
  }

  /** Suspending and then resuming a suspended scheduler gives back the same state. */
  method ResumeUndoesSuspend(k: Kernel) returns (r: Result<(Kernel, bool), Panic>)
    requires KernelOk(k) && k.suspended > 0
    ensures r == Success((k, false))
  {
    r := ResumeAll(SuspendAll(k));
  }
}
