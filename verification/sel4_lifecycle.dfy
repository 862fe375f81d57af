/**
 * Stopping and resuming threads (`suspend` and `restart` in `thread.c`,
 * reached through the TCB invocations `Suspend` and `Resume` of
 * `tcb.c`).  Both first cancel whatever IPC the thread is engaged in.
 */
module ThreadLifecycle {
  import opened KernelState
  import opened Sel4Scheduler
  import opened Endpoints

  /**
   * `suspend` (non-MCS): the thread's IPC is cancelled, it becomes
   * inactive and it leaves the ready queues.  Nothing the scheduler
   * would consider, other than the thread, is lost.
   */
  function Suspend(s: Sys, t: nat): (r: Sys)
    requires SchedOk(s) && t in s.threads && CancelOk(s, t)
    ensures SchedOk(r) && r == s.(threads := r.threads, ready := r.ready, action := r.action, endpoints := r.endpoints, ntfns := r.ntfns)
    ensures r.threads.Keys == s.threads.Keys && r.threads[t].state == Inactive && t !in r.ready.queued
    ensures r.cur == s.cur && (r.action == ResumeCurrent ==> t != r.cur)
    ensures forall u :: u in s.threads && u != t ==> r.threads[u].state == s.threads[u].state
    ensures forall u :: u != t ==> (Visible(r, u) <==> Visible(s, u))
  {
    var s1 := CancelIPC(s, t);
    Dequeue(SetThreadState(s1, t, Inactive), t)
  }

  /**
   * `restart` (non-MCS): a stopped thread has its IPC cancelled, is set
   * to restart, is queued and may be switched to.  A thread that is not
   * stopped is left alone.
   */
  function Restart(s: Sys, t: nat): (r: Sys)
    requires SchedOk(s) && t in s.threads && CancelOk(s, t)
    ensures SchedOk(r) && r == s.(threads := r.threads, ready := r.ready, action := r.action, endpoints := r.endpoints, ntfns := r.ntfns)
    ensures r.threads.Keys == s.threads.Keys
    ensures IsStopped(s.threads[t].state) ==> r.threads[t].state == ThreadState.Restart && Visible(r, t)
    ensures !IsStopped(s.threads[t].state) ==> r == s
    ensures forall u :: u in s.threads && u != t ==> r.threads[u].state == s.threads[u].state
    ensures forall u :: Visible(s, u) ==> Visible(r, u)
  {
    if IsStopped(s.threads[t].state) then
      var s1 := SetThreadState(CancelIPC(s, t), t, ThreadState.Restart);
      PossibleSwitchTo(Enqueue(s1, t), t)
    else s
  }

  /** `suspend` keeps the IPC invariant. */
  lemma SuspendKeepsIpcOk(s: Sys, t: nat)
    requires SchedOk(s) && IpcOk(s) && t in s.threads
    ensures CancelOk(s, t) && IpcOk(Suspend(s, t))
  {
    CancelIPCKeepsIpcOk(s, t);
    var s2 := SetThreadState(CancelIPC(s, t), t, Inactive);
    SetUnqueuedStateKeepsIpcOk(CancelIPC(s, t), t, Inactive);
    SameObjectsKeepIpcOk(s2, Dequeue(s2, t));
  }

  /** `restart` keeps the IPC invariant. */
  lemma RestartKeepsIpcOk(s: Sys, t: nat)
    requires SchedOk(s) && IpcOk(s) && t in s.threads
    ensures CancelOk(s, t) && IpcOk(Restart(s, t))
  {
    CancelIPCKeepsIpcOk(s, t);
    if IsStopped(s.threads[t].state) {
      var s1 := SetThreadState(CancelIPC(s, t), t, ThreadState.Restart);
      SetUnqueuedStateKeepsIpcOk(CancelIPC(s, t), t, ThreadState.Restart);
      var s2 := Enqueue(s1, t);
      SameObjectsKeepIpcOk(s1, s2);
      SameObjectsKeepIpcOk(s2, PossibleSwitchTo(s2, t));
    }
  }

  /** A thread that waits in no queue may take any state that needs no queue. */
  lemma SetUnqueuedStateKeepsIpcOk(s: Sys, t: nat, ts: ThreadState)
    requires SchedOk(s) && IpcOk(s) && t in s.threads && InNoQueue(s, t) && !IsQueuedState(ts)
    ensures IpcOk(SetThreadState(s, t, ts))
  {
  }

  /** The IPC invariant speaks only of threads, endpoints and notifications. */
  lemma SameObjectsKeepIpcOk(s: Sys, r: Sys)
    requires IpcOk(s) && r.threads == s.threads && r.endpoints == s.endpoints && r.ntfns == s.ntfns
    ensures IpcOk(r)
  {
  }

  /** A suspended thread is inactive and waits in no queue. */
  lemma SuspendedWaitsNowhere(s: Sys, t: nat)
    requires SchedOk(s) && IpcOk(s) && t in s.threads
    ensures CancelOk(s, t)
    ensures var r := Suspend(s, t); IpcOk(r) && InNoQueue(r, t) && CancelOk(r, t)
  {
    SuspendKeepsIpcOk(s, t);
    var r := Suspend(s, t);
    NotBlockedInNoQueue(r, t);
  }

  /** Suspending a suspended thread changes nothing. */
  lemma SuspendIdempotent(s: Sys, t: nat)
    requires SchedOk(s) && t in s.threads && CancelOk(s, t)
    ensures var r := Suspend(s, t); CancelOk(r, t) && Suspend(r, t) == r
  {
    SuspendInactive(Suspend(s, t), t);
  }

  /** `suspend` of an inactive thread that is not queued, and that the scheduler will not resume, changes nothing. */
  lemma SuspendInactive(s: Sys, t: nat)
    requires SchedOk(s) && t in s.threads && s.threads[t].state == Inactive && t !in s.ready.queued
    requires s.action == ResumeCurrent ==> t != s.cur
    ensures CancelOk(s, t) && Suspend(s, t) == s
  {
    assert CancelIPC(s, t) == s;
    assert SetThreadState(s, t, Inactive).threads == s.threads by {
      assert WithState(s.threads, t, Inactive) == s.threads;
    }
  }

  /**
   * A suspended thread that is resumed is set to restart and the
   * scheduler will consider it; no endpoint or notification changes on
   * the way back.
   */
  lemma ResumeAfterSuspend(s: Sys, t: nat)
    requires SchedOk(s) && IpcOk(s) && t in s.threads
    ensures CancelOk(s, t)
    ensures var s1 := Suspend(s, t);
      CancelOk(s1, t)
      && var r := Restart(s1, t);
      r.threads[t].state == ThreadState.Restart && Visible(r, t) && IpcOk(r)
      && r.endpoints == s1.endpoints && r.ntfns == s1.ntfns
  {
    SuspendedWaitsNowhere(s, t);
    var s1 := Suspend(s, t);
    assert CancelIPC(s1, t) == s1;
    RestartKeepsIpcOk(s1, t);
  }
}
