/**
 * Sending a signal on a notification object (`sendSignal` in
 * `notification.c`).  It sits on top of the endpoints because a bound
 * thread that is blocked receiving on an endpoint has that receive
 * cancelled and gets the signal directly.
 */
module Signals {
  import opened Sel4Words
  import opened ReadyQueues
  import opened KernelState
  import opened Sel4Scheduler
  import opened WaitQueues
  import opened Notifications
  import opened Endpoints

  /**
   * What the kernel assumes of a notification it signals: its bound
   * thread exists and may have its IPC cancelled, and a waiting
   * notification has a first waiter (a Haskell `error` in the C code).
   */
  ghost predicate SignalOk(s: Sys, n: nat)
    requires n in s.ntfns
  {
    var nt := s.ntfns[n];
    (nt.bound.Some? ==> nt.bound.value in s.threads && CancelOk(s, nt.bound.value))
    && (nt.state == NtfnWaiting ==> nt.queue != [] && nt.queue[0] in s.threads)
  }

  /** The IPC invariant gives `sendSignal` what it assumes. */
  lemma IpcOkSignalOk(s: Sys, n: nat)
    requires IpcOk(s) && n in s.ntfns
    ensures SignalOk(s, n)
  {
    var nt := s.ntfns[n];
    assert NotificationOk(s.threads, n, nt);
    if nt.bound.Some? {
      assert BindingsOk(s.threads, s.ntfns);
      IpcOkCancelOk(s, nt.bound.value);
    }
  }

  /**
   * The common tail of the two waking cases: `t` runs, its badge
   * register holds the badge, and `possibleSwitchTo` puts it in front of
   * the scheduler.
   */
  function WakeWithBadge(s: Sys, t: nat, badge: Word): (r: Sys)
    requires SchedOk(s) && t in s.threads
    ensures SchedOk(r) && r == s.(threads := r.threads, ready := r.ready, action := r.action)
    ensures r.threads.Keys == s.threads.Keys
    ensures r.threads[t] == s.threads[t].(state := Running, badgeReg := badge)
    ensures forall u :: u in s.threads && u != t ==> r.threads[u] == s.threads[u]
    ensures forall u :: Visible(r, u) <==> Visible(s, u) || u == t
  {
    var s1 := SetThreadState(s, t, Running);
    var s2 := SetBadgeReg(s1, t, badge);
    assert s2.threads[t] == s.threads[t].(state := Running, badgeReg := badge);
    PossibleSwitchTo(s2, t)
  }

  /**
   * Waking a thread keeps the IPC invariant when making it run does: the
   * badge and the scheduler's queues play no part in the invariant.
   */
  lemma WakeWithBadgeKeepsIpcOk(s: Sys, t: nat, badge: Word)
    requires SchedOk(s) && t in s.threads && IpcOk(SetState(s, t, Running))
    ensures IpcOk(WakeWithBadge(s, t, badge))
  {
    var s1 := SetThreadState(s, t, Running);
    assert s1 == SetState(s, t, Running).(ready := s1.ready, action := s1.action);
    var s2 := SetBadgeReg(s1, t, badge);
    assert IpcOk(s2);
  }

  /** A notification with a new signal pending: the C code's `ntfn_set_active`. */
  function SetActive(nt: Notification, badge: Word): (r: Notification)
    ensures r.state == NtfnActive && r.msg == badge
    ensures r.queue == nt.queue && r.bound == nt.bound
  {
    nt.(state := NtfnActive, msg := badge)
  }

  /**
   * `sendSignal` (non-MCS, no virtualisation).  An idle notification
   * wakes its bound thread if that thread is blocked receiving, after
   * cancelling the receive, and otherwise records the badge as pending.
   * A waiting notification wakes its first waiter with the badge.  An
   * active one ORs the badge into the pending one.
   */
  function SendSignal(s: Sys, n: nat, badge: Word): (r: Sys)
    requires SchedOk(s) && n in s.ntfns && SignalOk(s, n)
    ensures SchedOk(r) && r == s.(threads := r.threads, ready := r.ready, action := r.action, endpoints := r.endpoints, ntfns := r.ntfns)
    ensures r.threads.Keys == s.threads.Keys && n in r.ntfns
  {
    var nt := s.ntfns[n];
    if nt.state == NtfnIdle then
      if nt.bound.Some? && s.threads[nt.bound.value].state.BlockedOnReceive? then
        WakeWithBadge(CancelIPC(s, nt.bound.value), nt.bound.value, badge)
      else s.(ntfns := s.ntfns[n := SetActive(nt, badge)])
    else if nt.state == NtfnWaiting then
      WakeWithBadge(s.(ntfns := s.ntfns[n := LeaveNtfn(nt, nt.queue[0])]), nt.queue[0], badge)
    else s.(ntfns := s.ntfns[n := nt.(msg := nt.msg | badge)])
  }

  /** Whether a signal on `n` goes straight to its bound thread. */
  ghost predicate ToBoundReceiver(s: Sys, n: nat)
    requires n in s.ntfns && SignalOk(s, n)
  {
    var nt := s.ntfns[n];
    nt.state == NtfnIdle && nt.bound.Some? && s.threads[nt.bound.value].state.BlockedOnReceive?
  }

  /**
   * A bound thread blocked receiving leaves its endpoint queue and runs
   * with the badge, visible to the scheduler; the notification stays as
   * it was.
   */
  lemma SignalWakesBoundReceiver(s: Sys, n: nat, badge: Word)
    requires SchedOk(s) && n in s.ntfns && SignalOk(s, n) && ToBoundReceiver(s, n)
    ensures var r := SendSignal(s, n, badge); var t := s.ntfns[n].bound.value; var e := s.threads[t].state.ep;
      r.threads[t].state == Running && r.threads[t].badgeReg == badge && Visible(r, t)
      && r.ntfns == s.ntfns && r.endpoints == s.endpoints[e := LeaveEp(s.endpoints[e], t)]
  {
  }

  /**
   * Without a receiving bound thread, a signal on an idle notification
   * becomes the pending badge, and one on an active notification is ORed
   * into the pending badge; no thread changes.
   */
  lemma SignalPends(s: Sys, n: nat, badge: Word)
    requires SchedOk(s) && n in s.ntfns && SignalOk(s, n) && !ToBoundReceiver(s, n) && s.ntfns[n].state != NtfnWaiting
    ensures var r := SendSignal(s, n, badge); var nt := s.ntfns[n];
      r.threads == s.threads && r.endpoints == s.endpoints
      && r.ntfns == s.ntfns[n := r.ntfns[n]] && r.ntfns[n].state == NtfnActive
      && r.ntfns[n].queue == nt.queue && r.ntfns[n].bound == nt.bound
      && (nt.state == NtfnActive ==> r.ntfns[n].msg == nt.msg | badge)
      && (nt.state == NtfnIdle ==> r.ntfns[n].msg == badge)
  {
  }

  /**
   * A waiting notification hands the badge to its first waiter, which
   * leaves the queue and runs, visible to the scheduler; the notification
   * stays waiting exactly when others are left in its queue.
   */
  lemma SignalWakesWaiter(s: Sys, n: nat, badge: Word)
    requires SchedOk(s) && IpcOk(s) && n in s.ntfns && s.ntfns[n].state == NtfnWaiting
    ensures SignalOk(s, n)
    ensures var r := SendSignal(s, n, badge); var nt := s.ntfns[n]; var w := nt.queue[0];
      r.threads[w].state == Running && r.threads[w].badgeReg == badge && Visible(r, w)
      && r.endpoints == s.endpoints && r.ntfns == s.ntfns[n := r.ntfns[n]]
      && r.ntfns[n].queue == nt.queue[1..]
      && (r.ntfns[n].state == NtfnWaiting <==> |nt.queue| > 1)
  {
    IpcOkSignalOk(s, n);
    var nt := s.ntfns[n];
    assert NotificationOk(s.threads, n, nt);
    EpDequeueHead(nt.queue);
  }

  /** `sendSignal` keeps the IPC invariant. */
  lemma SendSignalKeepsIpcOk(s: Sys, n: nat, badge: Word)
    requires SchedOk(s) && IpcOk(s) && n in s.ntfns
    ensures SignalOk(s, n) && IpcOk(SendSignal(s, n, badge))
  {
    IpcOkSignalOk(s, n);
    var nt := s.ntfns[n];
    if ToBoundReceiver(s, n) {
      SignalBoundReceiverKeepsIpcOk(s, n, badge);
    } else if nt.state == NtfnWaiting {
      SignalWaiterKeepsIpcOk(s, n, badge);
    } else {
      SignalPendsKeepsIpcOk(s, n, badge);
    }
  }

  /** The case of `sendSignal` that wakes the bound thread keeps the IPC invariant. */
  lemma SignalBoundReceiverKeepsIpcOk(s: Sys, n: nat, badge: Word)
    requires SchedOk(s) && IpcOk(s) && n in s.ntfns && SignalOk(s, n) && ToBoundReceiver(s, n)
    ensures IpcOk(SendSignal(s, n, badge))
  {
    var t := s.ntfns[n].bound.value;
    CancelIPCKeepsIpcOk(s, t);
    RunUnqueuedKeepsIpcOk(CancelIPC(s, t), t);
    WakeWithBadgeKeepsIpcOk(CancelIPC(s, t), t, badge);
  }

  /** A thread that waits in no queue may be made to run. */
  lemma RunUnqueuedKeepsIpcOk(s: Sys, t: nat)
    requires SchedOk(s) && IpcOk(s) && t in s.threads && InNoQueue(s, t)
    ensures IpcOk(SetState(s, t, Running))
  {
  }

  /** The waiting case of `sendSignal` keeps the IPC invariant. */
  lemma SignalWaiterKeepsIpcOk(s: Sys, n: nat, badge: Word)
    requires SchedOk(s) && IpcOk(s) && n in s.ntfns && SignalOk(s, n) && s.ntfns[n].state == NtfnWaiting
    ensures IpcOk(SendSignal(s, n, badge))
  {
    var nt := s.ntfns[n];
    var w := nt.queue[0];
    var s1 := s.(ntfns := s.ntfns[n := LeaveNtfn(nt, w)]);
    assert s.threads[w].state == BlockedOnNotification(n) by {
      assert NotificationOk(s.threads, n, nt);
    }
    assert IpcOk(SetState(s1, w, Running)) by {
      LeaveNtfnKeepsIpcOk(s, SetState(s1, w, Running), w, n, Running);
    }
    WakeWithBadgeKeepsIpcOk(s1, w, badge);
  }

  /** The cases of `sendSignal` that leave a badge pending keep the IPC invariant. */
  lemma SignalPendsKeepsIpcOk(s: Sys, n: nat, badge: Word)
    requires SchedOk(s) && IpcOk(s) && n in s.ntfns && SignalOk(s, n) && !ToBoundReceiver(s, n)
    requires s.ntfns[n].state != NtfnWaiting
    ensures IpcOk(SendSignal(s, n, badge))
  {
    var nt := s.ntfns[n];
    var r := SendSignal(s, n, badge);
    assert r.threads == s.threads && r.endpoints == s.endpoints && r.ntfns == s.ntfns[n := r.ntfns[n]]
      && r.ntfns[n].state == NtfnActive && r.ntfns[n].queue == nt.queue && r.ntfns[n].bound == nt.bound by {
      SignalPends(s, n, badge);
    }
    PendingSignalOk(s.threads, s.endpoints, s.ntfns, n, r.ntfns[n]);
  }

  /** Replacing the pending badge of a notification nobody waits on keeps the IPC invariant. */
  lemma PendingSignalOk(threads: map<nat, Tcb>, eps: map<nat, Endpoint>, ntfns: map<nat, Notification>, n: nat, nt: Notification)
    requires NotificationsOk(threads, ntfns) && BindingsOk(threads, ntfns) && BlockersQueued(threads, eps, ntfns)
    requires n in ntfns && ntfns[n].state != NtfnWaiting && nt.state != NtfnWaiting
    requires nt.queue == ntfns[n].queue && nt.bound == ntfns[n].bound
    ensures var ntfns' := ntfns[n := nt];
      NotificationsOk(threads, ntfns') && BindingsOk(threads, ntfns') && BlockersQueued(threads, eps, ntfns')
  {
    var ntfns' := ntfns[n := nt];
    forall n' | n' in ntfns' ensures NotificationOk(threads, n', ntfns'[n']) {
      assert NotificationOk(threads, n', ntfns[n']);
    }
    forall u | u in threads ensures QueuedWhereBlocked(threads[u].state, u, eps, ntfns') {
      assert QueuedWhereBlocked(threads[u].state, u, eps, ntfns);
    }
  }

  /**
   * Signals accumulate: two signals on a notification that already has
   * one pending OR both badges into the pending badge.
   */
  lemma SignalsAccumulate(s: Sys, n: nat, b1: Word, b2: Word)
    requires SchedOk(s) && n in s.ntfns && SignalOk(s, n) && s.ntfns[n].state == NtfnActive
    ensures var s1 := SendSignal(s, n, b1);
      SignalOk(s1, n) && s1.ntfns[n].state == NtfnActive
      && var r := SendSignal(s1, n, b2);
      r.ntfns[n].state == NtfnActive && r.threads == s.threads && r.ntfns[n].msg == s.ntfns[n].msg | b1 | b2
  {
    var s1 := SendSignal(s, n, b1);
    assert SchedOk(s1) && n in s1.ntfns && s1.threads == s.threads
      && s1.ntfns[n].state == NtfnActive && s1.ntfns[n].msg == s.ntfns[n].msg | b1 by {
      SignalPendsMsg(s, n, b1);
    }
    assert SignalOk(s1, n) by {
      PendingStaysSignalOk(s, n, b1);
    }
    SignalPendsMsg(s1, n, b2);
  }

  /**
   * Two signals on an idle notification whose bound thread (if any) is
   * not receiving leave the OR of both badges pending.
   */
  lemma SignalsAccumulateFromIdle(s: Sys, n: nat, b1: Word, b2: Word)
    requires SchedOk(s) && n in s.ntfns && SignalOk(s, n) && !ToBoundReceiver(s, n) && s.ntfns[n].state == NtfnIdle
    ensures var s1 := SendSignal(s, n, b1);
      SignalOk(s1, n) && s1.ntfns[n].state == NtfnActive
      && var r := SendSignal(s1, n, b2);
      r.ntfns[n].state == NtfnActive && r.threads == s.threads && r.ntfns[n].msg == b1 | b2
  {
    SignalPends(s, n, b1);
    PendingStaysSignalOk(s, n, b1);
    SignalPendsMsg(SendSignal(s, n, b1), n, b2);
  }

  /** A notification left with a signal pending can be signalled again. */
  lemma PendingStaysSignalOk(s: Sys, n: nat, badge: Word)
    requires SchedOk(s) && n in s.ntfns && SignalOk(s, n) && !ToBoundReceiver(s, n) && s.ntfns[n].state != NtfnWaiting
    ensures SignalOk(SendSignal(s, n, badge), n)
  {
    var r := SendSignal(s, n, badge);
    assert r.threads == s.threads && r.endpoints == s.endpoints && r.ntfns == s.ntfns[n := r.ntfns[n]]
      && r.ntfns[n].state == NtfnActive && r.ntfns[n].bound == s.ntfns[n].bound by {
      SignalPends(s, n, badge);
    }
  }

  /** The pending badge after a signal on an active notification. */
  lemma SignalPendsMsg(s: Sys, n: nat, badge: Word)
    requires SchedOk(s) && n in s.ntfns && SignalOk(s, n) && s.ntfns[n].state == NtfnActive
    ensures var r := SendSignal(s, n, badge);
      r.threads == s.threads && r.ntfns[n].state == NtfnActive && r.ntfns[n].msg == s.ntfns[n].msg | badge
  {
  }

  /**
   * A signal pending on an idle notification is what the next receive
   * gets: the receiver's badge register holds it and the notification is
   * idle again.
   */
  lemma SignalThenReceive(s: Sys, n: nat, badge: Word, t: nat, blocking: bool)
    requires SchedOk(s) && n in s.ntfns && SignalOk(s, n) && t in s.threads
    requires s.ntfns[n].state == NtfnIdle && !ToBoundReceiver(s, n)
    ensures var s1 := SendSignal(s, n, badge); var r := ReceiveSignal(s1, t, n, blocking);
      r.threads[t].badgeReg == badge && r.ntfns[n] == s.ntfns[n].(msg := badge)
  {
    SignalPends(s, n, badge);
  }

  /**
   * A waiter gets the next signal: after a blocking receive on an idle
   * notification, a signal wakes the receiver with the badge, visible to
   * the scheduler, and the notification is as it was before the receive.
   */
  lemma WaitThenSignal(s: Sys, t: nat, n: nat, badge: Word)
    requires SchedOk(s) && IpcOk(s) && t in s.threads && n in s.ntfns
    requires !IsQueuedState(s.threads[t].state) && s.ntfns[n].state == NtfnIdle
    ensures var s1 := ReceiveSignal(s, t, n, true);
      IpcOk(s1) && SignalOk(s1, n)
      && var r := SendSignal(s1, n, badge);
      r.threads[t].state == Running && r.threads[t].badgeReg == badge && Visible(r, t) && r.ntfns[n] == s.ntfns[n]
  {
    var nt := s.ntfns[n];
    assert nt.queue == [] by {
      assert NotificationOk(s.threads, n, nt);
    }
    var s1 := ReceiveSignal(s, t, n, true);
    ReceiveSignalKeepsIpcOk(s, t, n, true);
    assert s1.ntfns[n] == nt.(state := NtfnWaiting, queue := [t]);
    SignalWakesWaiter(s1, n, badge);
  }
}
