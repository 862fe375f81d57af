/**
 * `task_delay`: the running task gives up the processor for a number of
 * ticks, parked on a delayed list while the scheduler is suspended.
 */
module Delay {
  import opened Wrappers
  import opened Ticks
  import opened RtosKernel
  import opened Scheduler
  import opened TaskLifecycle
  import opened TickInterrupt

  /**
   * `task_delay`: a positive delay, which must come with the scheduler
   * running, blocks the running task until `tick + ticks` (the wake time
   * wrapping at 2^32) with the scheduler suspended around it, then resumes
   * the scheduler; the flag asks the caller to yield, which it must unless
   * resuming already did.  A zero delay only asks for a yield.
   */
  method TaskDelay(k: Kernel, ticks: Tick) returns (r: Result<(Kernel, bool), Panic>)
    requires KernelOk(k)
    ensures ticks == 0 ==> r == Success((k, true))
    ensures ticks > 0 && k.suspended != 0 ==> r == Failure(AssertionFailed)
    ensures ticks > 0 && k.suspended == 0 && k.current.None? ==> r == Failure(NoCurrentTask)
    ensures ticks > 0 && k.suspended == 0 && k.current.Some? && k.store.tasks[k.current.value].stateIn.None? ==>
              r.Failure?
    ensures r.Failure? ==> r.error != ResumeWithoutSuspend
    ensures r.Success? ==>
              var k' := r.value.0;
              KernelOk(k') && k'.suspended == k.suspended
              && k'.store.tasks.Keys == k.store.tasks.Keys && k'.store.lists.Keys == k.store.lists.Keys
              && (ticks > 0 && k.numTasks > 0 ==>
                    |k'.store.lists[PendingReady].items| == 0 && k'.pendedTicks == 0
                    && k'.tick == TicksLater(k.tick, k.pendedTicks) && (r.value.1 <==> !k'.yieldPending))
    ensures r.Success? && ticks > 0 && k.current.Some? && k.pendedTicks == 0 && !IsPending(k, k.current.value) ==>
              StillDelayed(k, r.value.0, ticks)
  {
    if ticks == 0 {
      return Success((k, true));
    }
    if k.suspended != 0 {
      return Failure(AssertionFailed);
    }
    var b := SuspendAndBlock(k, ticks);
    if b.Failure? {
      return Failure(b.error);
    }
    var k2 := b.value;
    var res := ResumeAll(k2);
    if res.Failure? {
      return Failure(res.error);
    }
    DelayOutlastsResume(k, k2, res.value.0, ticks);
    r := Success((res.value.0, !res.value.1));
  }

  /**
   * Where `task_delay` leaves the task that was running in `k` when no tick
   * was pended and the task was not waiting to be readied: blocked as
   * `Blocked` says, with the overflow list chosen exactly when
   * `tick + ticks` does not fit in 32 bits; with nothing pending at all the
   * wake-up bound is the earlier of the old bound and the wake time.
   */
  ghost predicate StillDelayed(k: Kernel, k': Kernel, ticks: Tick)
  {
    var wake := AddTick(k.tick, ticks);
    k.current.Some? && k.current.value in k'.store.tasks && PendingReady in k.store.lists
    && k'.tick == k.tick && k'.current == k.current && k'.delayed == k.delayed && k'.overflow == k.overflow
    && k'.store.tasks[k.current.value].stateIn == Some(if k.tick + ticks >= TICK_MODULUS then k.overflow else k.delayed)
    && k'.store.tasks[k.current.value].stateValue == wake
    && (|k.store.lists[PendingReady].items| == 0 ==>
          k'.nextUnblock == (if wake >= k.tick && wake < k.nextUnblock then wake else k.nextUnblock))
  }

  /** Resuming with no pended tick leaves the blocked task where blocking put it. */
  lemma DelayOutlastsResume(k: Kernel, k2: Kernel, k': Kernel, ticks: Tick)
    requires Blocked(k, k2, ticks) && k2.pendedTicks == k.pendedTicks
    requires k2.pendedTicks == 0 ==> QuietResume(k2, k')
    ensures k.pendedTicks == 0 && !IsPending(k, k.current.value) ==> StillDelayed(k, k', ticks)
  {
    var c := k.current.value;
    if k.pendedTicks == 0 && !IsPending(k, c) {
      assert !IsPending(k2, c);
    }
  }

  /**
   * A delay of `ticks` lasts exactly that long: while the tick count has
   * not wrapped, the delayed task becomes due `ticks` ticks later and not
   * before; a wake time that wrapped keeps it out of the delayed list, so it
   * is never due before the lists are switched.
   */
  lemma DelayLastsItsTicks(k: Kernel, k': Kernel, ticks: Tick, n: nat)
    requires StillDelayed(k, k', ticks) && k.delayed != k.overflow
    ensures k.tick + ticks < TICK_MODULUS && k.tick + n < TICK_MODULUS ==>
              (IsDue(k'.(tick := TicksLater(k.tick, n)), k.current.value) <==> n >= ticks)
    ensures k.tick + ticks >= TICK_MODULUS ==> !IsDue(k'.(tick := TicksLater(k.tick, n)), k.current.value)
  {
  }

  /** The part of `task_delay` inside the suspension: the running task goes onto a delayed list. */
  method SuspendAndBlock(k: Kernel, ticks: Tick) returns (r: Result<Kernel, Panic>)
    requires KernelOk(k) && k.suspended == 0
    ensures BlockCurrent(SuspendAll(k), ticks, false).Failure? ==> r == Failure(BlockCurrent(SuspendAll(k), ticks, false).error)
    ensures r.Failure? ==> BlockCurrent(SuspendAll(k), ticks, false).Failure? && r.error != ResumeWithoutSuspend
    ensures k.current.None? ==> r == Failure(NoCurrentTask)
    ensures k.current.Some? && k.store.tasks[k.current.value].stateIn.None? ==> r.Failure?
    ensures r.Success? ==> Blocked(k, r.value, ticks)
    ensures r.Success? ==>
              KernelOk(r.value) && r.value.suspended == 1 && r.value.numTasks == k.numTasks
              && r.value.tick == k.tick && r.value.pendedTicks == k.pendedTicks
              && r.value.store.tasks.Keys == k.store.tasks.Keys && r.value.store.lists.Keys == k.store.lists.Keys
  {
    var k1 := SuspendAll(k);
    assert k1.current == k.current && k1.store == k.store;
    r := BlockCurrent(k1, ticks, false);
    if r.Success? {
      BlockedBySuspendAll(k, k1, r.value, ticks);
    }
  }

  /**
   * Where `add_current_task_to_delayed_list` leaves the running task of `k`
   * in `k'` for a timed wait of `ticks`: its state item holds the wake time
   * `tick + ticks` (mod 2^32) and sits in the overflow list when that wrapped
   * and in the delayed list otherwise, its event item stays where it was,
   * and the wake-up bound moves forward to the wake time when that is
   * earlier.
   */
  ghost predicate Blocked(k: Kernel, k': Kernel, ticks: Tick)
  {
    var wake := AddTick(k.tick, ticks);
    k.current.Some? && k.current.value in k.store.tasks && k.current.value in k'.store.tasks
    && PendingReady in k.store.lists && PendingReady in k'.store.lists
    && k'.delayed == k.delayed && k'.overflow == k.overflow && k'.current == k.current && k'.tick == k.tick
    && k'.store.tasks[k.current.value].stateIn == Some(if wake < k.tick then k.overflow else k.delayed)
    && k'.store.tasks[k.current.value].stateValue == wake
    && k'.store.tasks[k.current.value].eventIn == k.store.tasks[k.current.value].eventIn
    && k'.store.lists[PendingReady] == k.store.lists[PendingReady]
    && k'.nextUnblock == (if wake >= k.tick && wake < k.nextUnblock then wake else k.nextUnblock)
  }

  lemma BlockedBySuspendAll(k: Kernel, k1: Kernel, k2: Kernel, ticks: Tick)
    requires KernelOk(k) && k1 == SuspendAll(k) && KernelOk(k1)
    requires BlockCurrent(k1, ticks, false) == Success(k2)
    ensures Blocked(k, k2, ticks)
  {
    assert HasSystemLists(k1.store);
    PlacedByBlockCurrent(k1, k2, ticks);
    PlacedIsBlocked(k, k1, k2, ticks);
  }

  /** What `BlockCurrent` promises for a bounded wait, without the kernel invariant. */
  ghost predicate Placed(k: Kernel, k': Kernel, ticks: Tick)
  {
    var wake := AddTick(k.tick, ticks);
    k.current.Some? && k.current.value in k.store.tasks && k.current.value in k'.store.tasks
    && k' == k.(store := k'.store, nextUnblock := k'.nextUnblock)
    && (PendingReady in k.store.lists ==>
          PendingReady in k'.store.lists && k'.store.lists[PendingReady] == k.store.lists[PendingReady])
    && k'.store.tasks[k.current.value]
       == k.store.tasks[k.current.value].(delayAborted := false,
                                           stateIn := Some(if wake < k.tick then k.overflow else k.delayed),
                                           stateValue := wake)
    && k'.nextUnblock == (if wake >= k.tick && wake < k.nextUnblock then wake else k.nextUnblock)
  }

  lemma PlacedByBlockCurrent(k: Kernel, k': Kernel, ticks: Tick)
    requires KernelOk(k) && BlockCurrent(k, ticks, false) == Success(k')
    ensures Placed(k, k', ticks)
  {
    assert HoldsEventItems(PendingReady);
  }

  lemma PlacedIsBlocked(k: Kernel, k1: Kernel, k2: Kernel, ticks: Tick)
    requires k1 == k.(suspended := k1.suspended) && Placed(k1, k2, ticks) && PendingReady in k.store.lists
    ensures Blocked(k, k2, ticks)
  {
  }
}
