/**
 * Notification objects (`notification.c`): receiving and completing a
 * signal, cancelling one waiter or all of them, and binding a thread to a
 * notification (with the decoding `tcb.c` does for the TCB invocations
 * that bind and unbind).  Sending a signal lives with the endpoints,
 * because it may cancel the bound thread's IPC.
 */
module Notifications {
  import opened Wrappers
  import opened Sel4Words
  import opened Sel4Errors
  import opened ReadyQueues
  import opened KernelState
  import opened Sel4Scheduler
  import opened WaitQueues
  import opened Capabilities

  /**
   * The "active" case of `receiveSignal` and the success path of
   * `completeSignal`: the pending badge goes to the receiver's badge
   * register and the notification falls idle.
   */
  function Deliver(s: Sys, n: nat, t: nat): (r: Sys)
    requires SchedOk(s) && n in s.ntfns && t in s.threads
    ensures SchedOk(r) && r == s.(threads := r.threads, ntfns := r.ntfns) && r.threads.Keys == s.threads.Keys
    ensures r.threads[t] == s.threads[t].(badgeReg := s.ntfns[n].msg)
    ensures forall u :: u in s.threads && u != t ==> r.threads[u] == s.threads[u]
    ensures r.ntfns == s.ntfns[n := s.ntfns[n].(state := NtfnIdle)]
  {
    SetBadgeReg(s, t, s.ntfns[n].msg).(ntfns := s.ntfns[n := s.ntfns[n].(state := NtfnIdle)])
  }

  /** Taking the pending badge of an active notification keeps the IPC invariant. */
  lemma DeliverKeepsIpcOk(s: Sys, n: nat, t: nat)
    requires SchedOk(s) && IpcOk(s) && n in s.ntfns && t in s.threads && s.ntfns[n].state == NtfnActive
    ensures IpcOk(Deliver(s, n, t))
  {
    var s1 := SetBadgeReg(s, t, s.ntfns[n].msg);
    assert NotificationOk(s1.threads, n, s1.ntfns[n]);
    QuietNtfnOk(s1.threads, s1.endpoints, s1.ntfns, n);
  }

  /**
   * `completeSignal`: deliver the pending badge to `t`.  Without a thread,
   * or when the notification has no signal pending, the kernel halts.
   */
  function CompleteSignal(s: Sys, n: nat, t: Option<nat>): (r: Result<Sys, Exception>)
    requires SchedOk(s) && n in s.ntfns && (t.Some? ==> t.value in s.threads)
    ensures r.Success? <==> t.Some? && s.ntfns[n].state == NtfnActive
    ensures r.Failure? ==> r.error == KernelHalt
    ensures r.Success? ==> r.value.threads.Keys == s.threads.Keys && r.value.ntfns.Keys == s.ntfns.Keys
    ensures r.Success? ==> r.value.threads[t.value].badgeReg == s.ntfns[n].msg && r.value.ntfns[n].state == NtfnIdle
  {
    if t.Some? && s.ntfns[n].state == NtfnActive then Success(Deliver(s, n, t.value)) else Failure(KernelHalt)
  }

  /**
   * `receiveSignal`: a pending signal is taken at once; otherwise a
   * blocking receiver joins the end of the queue and the notification is
   * waiting, and a non-blocking one gets badge 0 (`doNBRecvFailedTransfer`).
   */
  function ReceiveSignal(s: Sys, t: nat, n: nat, blocking: bool): (r: Sys)
    requires SchedOk(s) && t in s.threads && n in s.ntfns
    ensures SchedOk(r) && r == s.(threads := r.threads, ready := r.ready, action := r.action, ntfns := r.ntfns)
    ensures r.threads.Keys == s.threads.Keys && forall u :: u in s.threads && u != t ==> r.threads[u] == s.threads[u]
    ensures r.ntfns.Keys == s.ntfns.Keys && forall n' :: n' in s.ntfns && n' != n ==> r.ntfns[n'] == s.ntfns[n']
    ensures s.ntfns[n].state == NtfnActive ==>
      r.threads[t].badgeReg == s.ntfns[n].msg && r.ntfns[n] == s.ntfns[n].(state := NtfnIdle)
    ensures s.ntfns[n].state != NtfnActive && blocking ==>
      r.threads[t].state == BlockedOnNotification(n)
      && r.ntfns[n] == s.ntfns[n].(state := NtfnWaiting, queue := EpAppend(s.ntfns[n].queue, t))
    ensures s.ntfns[n].state != NtfnActive && !blocking ==> r.threads[t] == s.threads[t].(badgeReg := 0) && r.ntfns == s.ntfns
    ensures forall u :: Visible(s, u) <==> Visible(r, u)
  {
    var nt := s.ntfns[n];
    if nt.state == NtfnActive then Deliver(s, n, t)
    else if blocking then WaitOnNtfn(s, t, n)
    else SetBadgeReg(s, t, 0)
  }

  /** The blocking case of `receiveSignal`: `t` blocks on `n` and joins the end of its queue. */
  function WaitOnNtfn(s: Sys, t: nat, n: nat): (r: Sys)
    requires SchedOk(s) && t in s.threads && n in s.ntfns
    ensures SchedOk(r) && r == s.(threads := r.threads, ready := r.ready, action := r.action, ntfns := r.ntfns)
    ensures r.threads == WithState(s.threads, t, BlockedOnNotification(n))
    ensures r.ntfns == s.ntfns[n := s.ntfns[n].(state := NtfnWaiting, queue := EpAppend(s.ntfns[n].queue, t))]
    ensures forall u :: Visible(s, u) <==> Visible(r, u)
  {
    var s1 := SetThreadState(s, t, BlockedOnNotification(n));
    s1.(ntfns := s1.ntfns[n := s.ntfns[n].(state := NtfnWaiting, queue := EpAppend(s.ntfns[n].queue, t))])
  }

  /** A receiver that waits nowhere keeps the IPC invariant whichever way `receiveSignal` goes. */
  lemma ReceiveSignalKeepsIpcOk(s: Sys, t: nat, n: nat, blocking: bool)
    requires SchedOk(s) && IpcOk(s) && t in s.threads && n in s.ntfns && !IsQueuedState(s.threads[t].state)
    ensures IpcOk(ReceiveSignal(s, t, n, blocking))
  {
    var nt := s.ntfns[n];
    if nt.state == NtfnActive {
      DeliverKeepsIpcOk(s, n, t);
    } else if blocking {
      NotBlockedInNoQueue(s, t);
      JoinNtfnKeepsIpcOk(s, ReceiveSignal(s, t, n, blocking), t, n);
    }
  }

  /**
   * `cancelSignal`: `t` leaves the queue of the waiting notification `n`,
   * which falls idle if nobody is left, and `t` becomes inactive.  A
   * notification that is not waiting is a kernel assertion failure, so
   * the model asks for a waiting one.
   */
  function CancelSignal(s: Sys, t: nat, n: nat): (r: Sys)
    requires SchedOk(s) && t in s.threads && n in s.ntfns && s.ntfns[n].state == NtfnWaiting
    ensures SchedOk(r) && r == s.(threads := r.threads, ready := r.ready, action := r.action, ntfns := r.ntfns)
    ensures r.threads == WithState(s.threads, t, Inactive)
    ensures r.ntfns == s.ntfns[n := LeaveNtfn(s.ntfns[n], t)]
    ensures forall u :: u in r.ntfns[n].queue <==> u in s.ntfns[n].queue && u != t
    ensures r.ntfns[n].state == NtfnIdle <==> r.ntfns[n].queue == []
    ensures forall u :: Visible(s, u) <==> Visible(r, u)
  {
    SetThreadState(s.(ntfns := s.ntfns[n := LeaveNtfn(s.ntfns[n], t)]), t, Inactive)
  }

  /** Cancelling the wait of a thread blocked on `n` keeps the IPC invariant. */
  lemma CancelSignalKeepsIpcOk(s: Sys, t: nat, n: nat)
    requires SchedOk(s) && IpcOk(s) && t in s.threads && n in s.ntfns && s.ntfns[n].state == NtfnWaiting
    requires s.threads[t].state == BlockedOnNotification(n)
    ensures IpcOk(CancelSignal(s, t, n))
  {
    LeaveNtfnKeepsIpcOk(s, CancelSignal(s, t, n), t, n, Inactive);
  }

  /**
   * Blocking on a notification that has no signal pending and then
   * having the wait cancelled leaves every notification as it was; the
   * receiver ends up inactive.
   */
  lemma CancelUndoesWait(s: Sys, t: nat, n: nat)
    requires SchedOk(s) && IpcOk(s) && t in s.threads && n in s.ntfns
    requires !IsQueuedState(s.threads[t].state) && s.ntfns[n].state != NtfnActive
    ensures var r := CancelSignal(ReceiveSignal(s, t, n, true), t, n);
      r.ntfns == s.ntfns && r.threads[t].state == Inactive
  {
    var nt := s.ntfns[n];
    var waiting := nt.(state := NtfnWaiting, queue := EpAppend(nt.queue, t));
    assert LeaveNtfn(waiting, t) == nt by {
      NotBlockedInNoQueue(s, t);
      assert NotificationOk(s.threads, n, nt);
      EpDequeueUndoesAppend(nt.queue, t);
    }
    var s1 := ReceiveSignal(s, t, n, true);
    assert s1.ntfns == s.ntfns[n := waiting];
    var r := CancelSignal(s1, t, n);
    assert r.ntfns == s.ntfns[n := waiting][n := nt];
    RestoreEntry(s.ntfns, n, waiting);
  }

  /**
   * `cancelAllSignals`: a waiting notification falls idle with an empty
   * queue, every waiter is restarted and made ready, and the scheduler
   * must choose anew.  Any other notification is left alone.
   */
  function CancelAllSignals(s: Sys, n: nat): (r: Sys)
    requires SchedOk(s) && n in s.ntfns && forall u :: u in s.ntfns[n].queue ==> u in s.threads
    ensures SchedOk(r) && r == s.(threads := r.threads, ready := r.ready, action := r.action, ntfns := r.ntfns)
    ensures s.ntfns[n].state != NtfnWaiting ==> r == s
  {
    if s.ntfns[n].state == NtfnWaiting then
      var q := s.ntfns[n].queue;
      RescheduleRequired(RestartAll(s.(ntfns := s.ntfns[n := s.ntfns[n].(state := NtfnIdle, queue := [])]), q))
    else s
  }

  /** What `cancelAllSignals` does to a waiting notification, its waiters, and everyone else. */
  lemma CancelAllSignalsFacts(s: Sys, n: nat)
    requires SchedOk(s) && n in s.ntfns && forall u :: u in s.ntfns[n].queue ==> u in s.threads
    requires s.ntfns[n].state == NtfnWaiting
    ensures var r := CancelAllSignals(s, n); var q := s.ntfns[n].queue;
      && r.ntfns == s.ntfns[n := s.ntfns[n].(state := NtfnIdle, queue := [])]
      && r.threads.Keys == s.threads.Keys
      && (forall u :: u in s.threads ==> r.threads[u] == if u in q then s.threads[u].(state := Restart) else s.threads[u])
      && (forall u :: u in q ==> u in r.ready.queued)
      && (forall u :: Visible(s, u) ==> u in r.ready.queued)
      && r.action == ChooseNew
  {
    var q := s.ntfns[n].queue;
    var s1 := s.(ntfns := s.ntfns[n := s.ntfns[n].(state := NtfnIdle, queue := [])]);
    RestartAllStates(s1, q);
    RestartAllReady(s1, q);
  }

  /** `cancelAllSignals` keeps the IPC invariant. */
  lemma CancelAllSignalsKeepsIpcOk(s: Sys, n: nat)
    requires SchedOk(s) && IpcOk(s) && n in s.ntfns
    ensures forall u :: u in s.ntfns[n].queue ==> u in s.threads
    ensures IpcOk(CancelAllSignals(s, n))
  {
    assert NotificationOk(s.threads, n, s.ntfns[n]);
    if s.ntfns[n].state == NtfnWaiting {
      var q := s.ntfns[n].queue;
      var r := CancelAllSignals(s, n);
      assert RestartedIn(s.threads, r.threads, q) && r.endpoints == s.endpoints
        && r.ntfns == s.ntfns[n := s.ntfns[n].(state := NtfnIdle, queue := [])] by {
        CancelAllSignalsFacts(s, n);
      }
      RestartNtfnWaitersOk(s.threads, s.endpoints, s.ntfns, r.threads, n);
    }
  }

  // ---------------------------------------------------------------------
  // Binding

  /** `bindNotification`: each side records the other. */
  function BindNotification(s: Sys, t: nat, n: nat): (r: Sys)
    requires SchedOk(s) && t in s.threads && n in s.ntfns
    ensures SchedOk(r) && r == s.(threads := r.threads, ntfns := r.ntfns)
    ensures r.threads.Keys == s.threads.Keys && r.ntfns.Keys == s.ntfns.Keys
    ensures r.threads[t].boundNtfn == Some(n) && r.ntfns[n].bound == Some(t)
  {
    var r := s.(threads := s.threads[t := s.threads[t].(boundNtfn := Some(n))],
                ntfns := s.ntfns[n := s.ntfns[n].(bound := Some(t))]);
    assert ThreadsOk(r.threads, r.ready) && QueuedOk(r.threads, r.ready);
    r
  }

  /** `doUnbindNotification`: both records of the binding are cleared. */
  function DoUnbind(s: Sys, n: nat, t: nat): (r: Sys)
    requires SchedOk(s) && t in s.threads && n in s.ntfns
    ensures SchedOk(r) && r == s.(threads := r.threads, ntfns := r.ntfns)
    ensures r.threads.Keys == s.threads.Keys && r.ntfns.Keys == s.ntfns.Keys
    ensures r.threads[t].boundNtfn == None && r.ntfns[n].bound == None
  {
    var r := s.(threads := s.threads[t := s.threads[t].(boundNtfn := None)],
                ntfns := s.ntfns[n := s.ntfns[n].(bound := None)]);
    assert ThreadsOk(r.threads, r.ready) && QueuedOk(r.threads, r.ready);
    r
  }

  /** `unbindNotification`: a bound thread loses its notification; an unbound one is left alone. */
  function UnbindNotification(s: Sys, t: nat): (r: Sys)
    requires SchedOk(s) && t in s.threads && (s.threads[t].boundNtfn.Some? ==> s.threads[t].boundNtfn.value in s.ntfns)
    ensures SchedOk(r) && r.threads.Keys == s.threads.Keys && r.ntfns.Keys == s.ntfns.Keys
    ensures r.threads[t].boundNtfn == None
    ensures s.threads[t].boundNtfn.Some? ==> r.ntfns[s.threads[t].boundNtfn.value].bound == None
    ensures s.threads[t].boundNtfn.None? ==> r == s
  {
    match s.threads[t].boundNtfn
    case Some(n) => DoUnbind(s, n, t)
    case None => s
  }

  /** `unbindMaybeNotification`: a notification bound to a thread loses it; an unbound one is left alone. */
  function UnbindMaybeNotification(s: Sys, n: nat): (r: Sys)
    requires SchedOk(s) && n in s.ntfns && (s.ntfns[n].bound.Some? ==> s.ntfns[n].bound.value in s.threads)
    ensures SchedOk(r) && r.threads.Keys == s.threads.Keys && r.ntfns.Keys == s.ntfns.Keys
    ensures r.ntfns[n].bound == None
    ensures s.ntfns[n].bound.Some? ==> r.threads[s.ntfns[n].bound.value].boundNtfn == None
    ensures s.ntfns[n].bound.None? ==> r == s
  {
    match s.ntfns[n].bound
    case Some(t) => DoUnbind(s, n, t)
    case None => s
  }

  /** Unbinding, from either side, undoes a binding between two unbound objects exactly. */
  lemma UnbindUndoesBind(s: Sys, t: nat, n: nat)
    requires SchedOk(s) && t in s.threads && n in s.ntfns
    requires s.threads[t].boundNtfn == None && s.ntfns[n].bound == None
    ensures UnbindNotification(BindNotification(s, t, n), t) == s
    ensures UnbindMaybeNotification(BindNotification(s, t, n), n) == s
  {
    var b := BindNotification(s, t, n);
    assert b.threads[t := b.threads[t].(boundNtfn := None)] == s.threads;
    assert b.ntfns[n := b.ntfns[n].(bound := None)] == s.ntfns;
  }

  /** Binding a thread and a notification that are both unbound keeps the IPC invariant. */
  lemma BindKeepsIpcOk(s: Sys, t: nat, n: nat)
    requires SchedOk(s) && IpcOk(s) && t in s.threads && n in s.ntfns
    requires s.threads[t].boundNtfn == None && s.ntfns[n].bound == None
    ensures IpcOk(BindNotification(s, t, n))
  {
    var r := BindNotification(s, t, n);
    SameQueuesKeepQueues(s, r);
    BindKeepsBindings(s.threads, s.ntfns, t, n);
  }

  /** Unbinding keeps the IPC invariant. */
  lemma UnbindKeepsIpcOk(s: Sys, t: nat)
    requires SchedOk(s) && IpcOk(s) && t in s.threads
    ensures s.threads[t].boundNtfn.Some? ==> s.threads[t].boundNtfn.value in s.ntfns
    ensures IpcOk(UnbindNotification(s, t))
  {
    assert BindingsOk(s.threads, s.ntfns);
    if s.threads[t].boundNtfn.Some? {
      DoUnbindKeepsIpcOk(s, s.threads[t].boundNtfn.value, t);
    }
  }

  /** `unbindMaybeNotification` keeps the IPC invariant. */
  lemma UnbindMaybeKeepsIpcOk(s: Sys, n: nat)
    requires SchedOk(s) && IpcOk(s) && n in s.ntfns
    ensures s.ntfns[n].bound.Some? ==> s.ntfns[n].bound.value in s.threads
    ensures IpcOk(UnbindMaybeNotification(s, n))
  {
    assert BindingsOk(s.threads, s.ntfns);
    if s.ntfns[n].bound.Some? {
      DoUnbindKeepsIpcOk(s, n, s.ntfns[n].bound.value);
    }
  }

  /** Clearing both records of an existing binding keeps the IPC invariant. */
  lemma DoUnbindKeepsIpcOk(s: Sys, n: nat, t: nat)
    requires SchedOk(s) && IpcOk(s) && t in s.threads && n in s.ntfns && s.threads[t].boundNtfn == Some(n)
    ensures IpcOk(DoUnbind(s, n, t))
  {
    var r := DoUnbind(s, n, t);
    assert r.threads == s.threads[t := s.threads[t].(boundNtfn := None)] && r.ntfns == s.ntfns[n := s.ntfns[n].(bound := None)];
    SameQueuesKeepQueues(s, r);
    UnbindKeepsBindings(s.threads, s.ntfns, t, n);
  }

  /** Recording a binding between two unbound objects keeps every binding two-sided. */
  lemma BindKeepsBindings(threads: map<nat, Tcb>, ntfns: map<nat, Notification>, t: nat, n: nat)
    requires BindingsOk(threads, ntfns) && t in threads && n in ntfns
    requires threads[t].boundNtfn == None && ntfns[n].bound == None
    ensures BindingsOk(threads[t := threads[t].(boundNtfn := Some(n))], ntfns[n := ntfns[n].(bound := Some(t))])
  {
  }

  /** Clearing both records of a binding keeps every other binding two-sided. */
  lemma UnbindKeepsBindings(threads: map<nat, Tcb>, ntfns: map<nat, Notification>, t: nat, n: nat)
    requires BindingsOk(threads, ntfns) && t in threads && n in ntfns && threads[t].boundNtfn == Some(n)
    ensures BindingsOk(threads[t := threads[t].(boundNtfn := None)], ntfns[n := ntfns[n].(bound := None)])
  {
  }

  /**
   * `decodeBindNotification`: the first extra capability must be present
   * (else the message is truncated); the thread must not be bound yet;
   * the capability must be a notification capability with the receive
   * right, naming a notification nobody waits on or is bound to.  On
   * success the caller is set to restart and the two are bound.
   */
  function DecodeBindNotification(s: Sys, t: nat, excap: Option<Cap>): (r: Result<Sys, SyscallError>)
    requires SchedOk(s) && t in s.threads
    requires excap.Some? && excap.value.NotificationCap? ==> excap.value.ptr as nat in s.ntfns
    ensures r.Success? <==>
      excap.Some? && s.threads[t].boundNtfn.None? && excap.value.NotificationCap? && excap.value.canReceive
      && s.ntfns[excap.value.ptr as nat].queue == [] && s.ntfns[excap.value.ptr as nat].bound.None?
    ensures excap.None? ==> r == Failure(TruncatedMessage)
    ensures excap.Some? && r.Failure? ==> r.error == IllegalOperation
    ensures r.Success? ==> r.value.threads.Keys == s.threads.Keys && r.value.ntfns.Keys == s.ntfns.Keys
    ensures r.Success? ==>
      && r.value.threads[t].boundNtfn == Some(excap.value.ptr as nat)
      && r.value.ntfns[excap.value.ptr as nat].bound == Some(t)
  {
    if excap.None? then Failure(TruncatedMessage)
    else if s.threads[t].boundNtfn.Some? then Failure(IllegalOperation)
    else if !excap.value.NotificationCap? then Failure(IllegalOperation)
    else if !excap.value.canReceive then Failure(IllegalOperation)
    else
      var n := excap.value.ptr as nat;
      if s.ntfns[n].queue != [] || s.ntfns[n].bound.Some? then Failure(IllegalOperation)
      else
        Success(BindNotification(SetThreadState(s, s.cur, Restart), t, n))
  }

  /** `decodeUnbindNotification`: a thread with no binding is an illegal operation; otherwise the caller restarts and the binding goes. */
  function DecodeUnbindNotification(s: Sys, t: nat): (r: Result<Sys, SyscallError>)
    requires SchedOk(s) && t in s.threads && (s.threads[t].boundNtfn.Some? ==> s.threads[t].boundNtfn.value in s.ntfns)
    ensures r.Success? <==> s.threads[t].boundNtfn.Some?
    ensures r.Failure? ==> r.error == IllegalOperation
    ensures r.Success? ==> r.value.threads.Keys == s.threads.Keys && r.value.ntfns.Keys == s.ntfns.Keys
    ensures r.Success? ==> r.value.threads[t].boundNtfn == None && r.value.ntfns[s.threads[t].boundNtfn.value].bound == None
  {
    if s.threads[t].boundNtfn.None? then Failure(IllegalOperation)
    else Success(UnbindNotification(SetThreadState(s, s.cur, Restart), t))
  }
}
