/**
 * Endpoints (`endpoint.c`, non-MCS configuration): the synchronous
 * rendezvous of `sendIPC` and `receiveIPC`, the reply capability a call
 * leaves behind (`setupCallerCap` of `tcb.c`), and cancelling one
 * thread's IPC, every IPC on an endpoint, or the sends carrying one
 * badge.  Of the message itself only the badge is modelled: it is what
 * `doIPCTransfer` leaves in the receiver's badge register.
 */
module Endpoints {
  import opened Wrappers
  import opened Sel4Words
  import opened ReadyQueues
  import opened KernelState
  import opened Sel4Scheduler
  import opened WaitQueues
  import opened Notifications

  /**
   * The "Haskell error" assertions of `sendIPC` and `receiveIPC`: an
   * endpoint that is not idle has a head waiter, blocked on it the way
   * the endpoint's state says.
   */
  ghost predicate HeadOk(s: Sys, e: nat)
    requires e in s.endpoints
  {
    var ep := s.endpoints[e];
    ep.state != EpIdle ==> ep.queue != [] && ep.queue[0] in s.threads && WaitsOnEndpoint(s.threads[ep.queue[0]].state, e, ep.state)
  }

  /** The IPC invariant gives every endpoint a head waiter of the right kind. */
  lemma IpcOkHeadOk(s: Sys, e: nat)
    requires IpcOk(s) && e in s.endpoints
    ensures HeadOk(s, e)
  {
    assert EndpointOk(s.threads, e, s.endpoints[e]);
  }

  // ---------------------------------------------------------------------
  // Reply capabilities

  /** The `cteInsert` of `setupCallerCap`: thread `t`'s caller slot gets a reply capability `c`. */
  function SetCaller(s: Sys, t: nat, c: Caller): (r: Sys)
    requires SchedOk(s) && t in s.threads
    ensures SchedOk(r) && r == s.(threads := r.threads) && r.threads.Keys == s.threads.Keys
    ensures r.threads[t] == s.threads[t].(caller := Some(c))
    ensures forall u :: u in s.threads && u != t ==> r.threads[u] == s.threads[u]
    ensures IpcOk(s) ==> IpcOk(r)
  {
    var r := s.(threads := s.threads[t := s.threads[t].(caller := Some(c))]);
    assert ThreadsOk(r.threads, r.ready) && QueuedOk(r.threads, r.ready);
    SameStatesKeepIpcOk(s, r);
    r
  }

  /**
   * `setupCallerCap`: the sender waits for the reply, and the receiver
   * holds a reply capability naming the sender, with the grant right the
   * receiver's own endpoint capability had.
   */
  function SetupCallerCap(s: Sys, sender: nat, receiver: nat, canGrant: bool): (r: Sys)
    requires SchedOk(s) && sender in s.threads && receiver in s.threads
    ensures SchedOk(r) && r == s.(threads := r.threads, ready := r.ready, action := r.action)
    ensures r.threads.Keys == s.threads.Keys
    ensures r.threads[sender].state == BlockedOnReply && r.threads[receiver].caller == Some(Caller(sender, canGrant))
    ensures forall u :: u in s.threads && u != sender && u != receiver ==> r.threads[u] == s.threads[u]
    ensures receiver != sender ==> r.threads[receiver].state == s.threads[receiver].state
    ensures forall u :: Visible(s, u) <==> Visible(r, u)
    ensures InNoQueue(s, sender) && IpcOk(s) ==> IpcOk(r)
  {
    SetCaller(SetThreadState(s, sender, BlockedOnReply), receiver, Caller(sender, canGrant))
  }

  /** A thread's record with its caller slot emptied if it names `t`. */
  function ClearCaller(tcb: Tcb, t: nat): (r: Tcb)
    ensures r == tcb.(caller := r.caller)
    ensures r.caller.Some? ==> r.caller.value.tcb != t
    ensures tcb.caller.Some? && tcb.caller.value.tcb != t ==> r.caller == tcb.caller
  {
    if tcb.caller.Some? && tcb.caller.value.tcb == t then tcb.(caller := None) else tcb
  }

  /**
   * The `BlockedOnReply` case of `cancelIPC`: the reply capability that
   * names `t` is deleted from the caller slot holding it.  The thread's
   * state is left as it is.
   */
  function DropCallersOf(s: Sys, t: nat): (r: Sys)
    requires SchedOk(s)
    ensures SchedOk(r) && r == s.(threads := r.threads) && r.threads.Keys == s.threads.Keys
    ensures forall u :: u in r.threads && r.threads[u].caller.Some? ==> r.threads[u].caller.value.tcb != t
    ensures forall u :: u in s.threads ==> r.threads[u] == s.threads[u].(caller := r.threads[u].caller)
    ensures forall u :: u in s.threads && s.threads[u].caller.Some? && s.threads[u].caller.value.tcb != t ==>
      r.threads[u].caller == s.threads[u].caller
    ensures IpcOk(s) ==> IpcOk(r)
  {
    var threads := map u | u in s.threads :: ClearCaller(s.threads[u], t);
    var r := s.(threads := threads);
    assert ThreadsOk(r.threads, r.ready) && QueuedOk(r.threads, r.ready);
    SameStatesKeepIpcOk(s, r);
    r
  }

  // ---------------------------------------------------------------------
  // Sending and receiving

  /**
   * The blocking paths of `sendIPC` and `receiveIPC`: `t` takes state
   * `ts` (`setThreadState`, written there as the state update followed by
   * `scheduleTCB`) and joins the end of `e`'s queue, which is then in
   * state `st`.
   */
  function BlockOn(s: Sys, t: nat, e: nat, st: EpState, ts: ThreadState): (r: Sys)
    requires SchedOk(s) && t in s.threads && e in s.endpoints
    ensures SchedOk(r) && r == s.(threads := r.threads, ready := r.ready, action := r.action, endpoints := r.endpoints)
    ensures r.threads == WithState(s.threads, t, ts)
    ensures r.endpoints == s.endpoints[e := Endpoint(st, EpAppend(s.endpoints[e].queue, t))]
    ensures forall u :: Visible(s, u) <==> Visible(r, u)
  {
    var s1 := SetThreadState(s, t, ts);
    s1.(endpoints := s1.endpoints[e := Endpoint(st, EpAppend(s.endpoints[e].queue, t))])
  }

  /** A thread that waits nowhere and blocks on an endpoint the matching way keeps the IPC invariant. */
  lemma BlockOnKeepsIpcOk(s: Sys, t: nat, e: nat, st: EpState, ts: ThreadState)
    requires SchedOk(s) && IpcOk(s) && t in s.threads && e in s.endpoints && !IsQueuedState(s.threads[t].state)
    requires st != EpIdle && WaitsOnEndpoint(ts, e, st) && (ts.BlockedOnSend? || ts.BlockedOnReceive?)
    requires s.endpoints[e].state == EpIdle || s.endpoints[e].state == st
    ensures IpcOk(BlockOn(s, t, e, st, ts))
  {
    NotBlockedInNoQueue(s, t);
    JoinEpKeepsIpcOk(s, BlockOn(s, t, e, st, ts), t, e, st, ts);
  }

  /**
   * A waiter of endpoint `e` leaves its queue (`tcbEPDequeue`; the
   * endpoint falls idle if nobody is left) and takes state `ts`
   * (`setThreadState`).
   */
  function Release(s: Sys, w: nat, e: nat, ts: ThreadState): (r: Sys)
    requires SchedOk(s) && w in s.threads && e in s.endpoints
    ensures SchedOk(r) && r == s.(threads := r.threads, ready := r.ready, action := r.action, endpoints := r.endpoints)
    ensures r.threads == WithState(s.threads, w, ts)
    ensures r.endpoints == s.endpoints[e := LeaveEp(s.endpoints[e], w)]
    ensures forall u :: Visible(s, u) <==> Visible(r, u)
  {
    SetThreadState(Dequeued(s, w, e), w, ts)
  }

  /** `tcbEPDequeue` of `w` from endpoint `e`, which falls idle if nobody is left. */
  function Dequeued(s: Sys, w: nat, e: nat): (r: Sys)
    requires e in s.endpoints
  {
    s.(endpoints := s.endpoints[e := LeaveEp(s.endpoints[e], w)])
  }

  /** A thread blocked on `e` that leaves its queue for a state needing none keeps the IPC invariant. */
  lemma ReleaseKeepsIpcOk(s: Sys, w: nat, e: nat, ts: ThreadState)
    requires SchedOk(s) && IpcOk(s) && w in s.threads && e in s.endpoints && !IsQueuedState(ts)
    requires (s.threads[w].state.BlockedOnSend? || s.threads[w].state.BlockedOnReceive?) && s.threads[w].state.ep == e
    ensures IpcOk(Release(s, w, e, ts))
  {
    LeaveEpKeepsIpcOk(s, Release(s, w, e, ts), w, e, ts);
  }

  /** A partner taken off an endpoint queue runs again and may be switched to. */
  function Wake(s: Sys, w: nat): (r: Sys)
    requires SchedOk(s) && w in s.threads
    ensures SchedOk(r) && r == s.(threads := r.threads, ready := r.ready, action := r.action)
    ensures r.threads == WithState(s.threads, w, Running)
    ensures forall u :: Visible(r, u) <==> Visible(s, u) || u == w
  {
    PossibleSwitchTo(SetThreadState(s, w, Running), w)
  }

  /**
   * The `Recv` case of `sendIPC`: the receiver at the head leaves the
   * queue, gets the badge, runs, and may be switched to.  A call then
   * leaves the sender waiting for the reply, the receiver holding the
   * reply capability with the grant right it was blocked with, when the
   * sender may grant; otherwise a calling sender is left inactive.
   */
  function SendToReceiver(s: Sys, doCall: bool, badge: Word, canGrant: bool, canGrantReply: bool, t: nat, e: nat): (r: Sys)
    requires SchedOk(s) && t in s.threads && e in s.endpoints && s.endpoints[e].state == EpRecv && HeadOk(s, e)
    ensures SchedOk(r) && r == s.(threads := r.threads, ready := r.ready, action := r.action, endpoints := r.endpoints)
    ensures r.threads.Keys == s.threads.Keys
  {
    var dest := s.endpoints[e].queue[0];
    var replyCanGrant := s.threads[dest].state.canGrant;
    var s1 := Wake(Dequeued(SetBadgeReg(s, dest, badge), dest, e), dest);
    CallTail(s1, doCall, canGrant || canGrantReply, t, dest, replyCanGrant)
  }

  /**
   * The end of `sendIPC` once the receiver is woken: a call leaves the
   * sender `t` waiting for the reply from `dest` when it may grant, and
   * inactive when it may not; a plain send leaves it alone.
   */
  function CallTail(s: Sys, doCall: bool, grant: bool, t: nat, dest: nat, replyCanGrant: bool): (r: Sys)
    requires SchedOk(s) && t in s.threads && dest in s.threads
    ensures SchedOk(r) && r == s.(threads := r.threads, ready := r.ready, action := r.action)
    ensures r.threads.Keys == s.threads.Keys
  {
    if !doCall then s
    else if grant then SetupCallerCap(s, t, dest, replyCanGrant)
    else SetThreadState(s, t, Inactive)
  }

  /** A sender that waits nowhere keeps the IPC invariant at the end of `sendIPC`. */
  lemma CallTailKeepsIpcOk(s: Sys, doCall: bool, grant: bool, t: nat, dest: nat, replyCanGrant: bool)
    requires SchedOk(s) && IpcOk(s) && t in s.threads && dest in s.threads && !IsQueuedState(s.threads[t].state)
    ensures IpcOk(CallTail(s, doCall, grant, t, dest, replyCanGrant))
  {
    NotBlockedInNoQueue(s, t);
  }

  /** The receiver woken by a send: off the queue, with the badge, running and visible to the scheduler. */
  lemma WakeReceiverFacts(s: Sys, e: nat, badge: Word)
    requires SchedOk(s) && e in s.endpoints && s.endpoints[e].state == EpRecv && HeadOk(s, e)
    ensures var dest := s.endpoints[e].queue[0];
      var r := Wake(Dequeued(SetBadgeReg(s, dest, badge), dest, e), dest);
      && r.threads.Keys == s.threads.Keys
      && r.threads[dest].state == Running && r.threads[dest].badgeReg == badge && Visible(r, dest)
      && (forall u :: u in s.threads && u != dest ==> r.threads[u] == s.threads[u])
      && r.endpoints == s.endpoints[e := LeaveEp(s.endpoints[e], dest)]
      && (IpcOk(s) ==> IpcOk(r))
  {
    var dest := s.endpoints[e].queue[0];
    var s1 := SetBadgeReg(s, dest, badge);
    if IpcOk(s) {
      ReleaseKeepsIpcOk(s1, dest, e, Running);
      assert Wake(Dequeued(s1, dest, e), dest) == PossibleSwitchTo(Release(s1, dest, e, Running), dest);
    }
  }

  /**
   * With a receiver waiting, `sendIPC` hands it the badge, takes it off
   * the queue and makes it runnable and visible to the scheduler; the
   * sender's fate depends on whether it calls and may grant.
   */
  lemma SendToReceiverFacts(s: Sys, doCall: bool, badge: Word, canGrant: bool, canGrantReply: bool, t: nat, e: nat)
    requires SchedOk(s) && t in s.threads && e in s.endpoints && s.endpoints[e].state == EpRecv && HeadOk(s, e)
    requires !IsQueuedState(s.threads[t].state)
    ensures var r := SendToReceiver(s, doCall, badge, canGrant, canGrantReply, t, e); var dest := s.endpoints[e].queue[0];
      && dest != t
      && r.threads[dest].state == Running && r.threads[dest].badgeReg == badge && Visible(r, dest)
      && r.endpoints == s.endpoints[e := LeaveEp(s.endpoints[e], dest)]
      && (!doCall ==> r.threads[t] == s.threads[t])
      && (doCall && (canGrant || canGrantReply) ==>
            r.threads[t].state == BlockedOnReply && r.threads[dest].caller == Some(Caller(t, s.threads[dest].state.canGrant)))
      && (doCall && !(canGrant || canGrantReply) ==> r.threads[t].state == Inactive)
  {
    var dest := s.endpoints[e].queue[0];
    var g := s.threads[dest].state.canGrant;
    var s1 := Wake(Dequeued(SetBadgeReg(s, dest, badge), dest, e), dest);
    assert s1.threads[t] == s.threads[t] && s1.threads[dest].state == Running && s1.threads[dest].badgeReg == badge
      && Visible(s1, dest) && s1.endpoints == s.endpoints[e := LeaveEp(s.endpoints[e], dest)] by {
      WakeReceiverFacts(s, e, badge);
    }
  }

  /** A sender that waits nowhere keeps the IPC invariant when it meets a waiting receiver. */
  lemma SendToReceiverKeepsIpcOk(s: Sys, doCall: bool, badge: Word, canGrant: bool, canGrantReply: bool, t: nat, e: nat)
    requires SchedOk(s) && IpcOk(s) && t in s.threads && e in s.endpoints && s.endpoints[e].state == EpRecv && HeadOk(s, e)
    requires !IsQueuedState(s.threads[t].state)
    ensures IpcOk(SendToReceiver(s, doCall, badge, canGrant, canGrantReply, t, e))
  {
    var dest := s.endpoints[e].queue[0];
    var g := s.threads[dest].state.canGrant;
    var s1 := Wake(Dequeued(SetBadgeReg(s, dest, badge), dest, e), dest);
    assert s1.threads[t] == s.threads[t] && IpcOk(s1) by {
      WakeReceiverFacts(s, e, badge);
    }
    CallTailKeepsIpcOk(s1, doCall, canGrant || canGrantReply, t, dest, g);
  }

  /**
   * `sendIPC`: with no receiver waiting, a blocking sender joins the end
   * of the queue, blocked with its badge and rights, and a non-blocking
   * one gives up silently; with a receiver waiting, the message goes to
   * the head receiver.
   */
  function SendIPC(s: Sys, blocking: bool, doCall: bool, badge: Word, canGrant: bool, canGrantReply: bool,
                   t: nat, e: nat): (r: Sys)
    requires SchedOk(s) && t in s.threads && e in s.endpoints && HeadOk(s, e)
    ensures SchedOk(r) && r == s.(threads := r.threads, ready := r.ready, action := r.action, endpoints := r.endpoints)
    ensures r.threads.Keys == s.threads.Keys && e in r.endpoints
  {
    if s.endpoints[e].state == EpRecv then SendToReceiver(s, doCall, badge, canGrant, canGrantReply, t, e)
    else if blocking then BlockOn(s, t, e, EpSend, BlockedOnSend(e, badge, canGrant, canGrantReply, doCall))
    else s
  }

  /** With no receiver waiting, a blocking send queues the sender with its message details; a non-blocking one changes nothing. */
  lemma SendIPCBlocks(s: Sys, blocking: bool, doCall: bool, badge: Word, canGrant: bool, canGrantReply: bool, t: nat, e: nat)
    requires SchedOk(s) && t in s.threads && e in s.endpoints && HeadOk(s, e) && s.endpoints[e].state != EpRecv
    ensures var r := SendIPC(s, blocking, doCall, badge, canGrant, canGrantReply, t, e);
      && (blocking ==> r.threads[t].state == BlockedOnSend(e, badge, canGrant, canGrantReply, doCall)
                       && r.endpoints[e] == Endpoint(EpSend, s.endpoints[e].queue + [t])
                       && (forall u :: u in s.threads && u != t ==> r.threads[u] == s.threads[u])
                       && r.ntfns == s.ntfns)
      && (!blocking ==> r == s)
  {
  }

  /** A sender that waits nowhere keeps the IPC invariant whichever way `sendIPC` goes. */
  lemma SendIPCKeepsIpcOk(s: Sys, blocking: bool, doCall: bool, badge: Word, canGrant: bool, canGrantReply: bool, t: nat, e: nat)
    requires SchedOk(s) && IpcOk(s) && t in s.threads && e in s.endpoints && !IsQueuedState(s.threads[t].state)
    ensures HeadOk(s, e)
    ensures IpcOk(SendIPC(s, blocking, doCall, badge, canGrant, canGrantReply, t, e))
  {
    IpcOkHeadOk(s, e);
    if s.endpoints[e].state == EpRecv {
      SendToReceiverKeepsIpcOk(s, doCall, badge, canGrant, canGrantReply, t, e);
    } else if blocking {
      BlockOnKeepsIpcOk(s, t, e, EpSend, BlockedOnSend(e, badge, canGrant, canGrantReply, doCall));
    }
  }

  /**
   * The `Send` case of `receiveIPC`: the sender at the head leaves the
   * queue and its badge reaches the receiver.  A calling sender then waits
   * for the reply (the receiver holding the reply capability, with the
   * grant right of the receiver's endpoint capability) if it may grant,
   * and is left inactive if not; any other sender runs again and may be
   * switched to.
   */
  function TakeSender(s: Sys, t: nat, e: nat, epCanGrant: bool): (r: Sys)
    requires SchedOk(s) && t in s.threads && e in s.endpoints && s.endpoints[e].state == EpSend && HeadOk(s, e)
    ensures SchedOk(r) && r == s.(threads := r.threads, ready := r.ready, action := r.action, endpoints := r.endpoints)
    ensures r.threads.Keys == s.threads.Keys && e in r.endpoints
  {
    var sender := s.endpoints[e].queue[0];
    var st := s.threads[sender].state;
    var s1 := Dequeued(SetBadgeReg(s, t, st.badge), sender, e);
    if !st.isCall then Wake(s1, sender)
    else if st.canGrant || st.canGrantReply then SetupCallerCap(s1, sender, t, epCanGrant)
    else SetThreadState(s1, sender, Inactive)
  }

  /** What taking the head sender does, and that a receiver waiting nowhere keeps the IPC invariant doing it. */
  lemma TakeSenderFacts(s: Sys, t: nat, e: nat, epCanGrant: bool)
    requires SchedOk(s) && t in s.threads && e in s.endpoints && s.endpoints[e].state == EpSend && HeadOk(s, e)
    requires !IsQueuedState(s.threads[t].state)
    ensures var r := TakeSender(s, t, e, epCanGrant); var sender := s.endpoints[e].queue[0]; var st := s.threads[sender].state;
      && sender != t
      && r.threads[t].badgeReg == st.badge && r.threads[t].state == s.threads[t].state
      && r.endpoints == s.endpoints[e := LeaveEp(s.endpoints[e], sender)]
      && (!st.isCall ==> r.threads[sender].state == Running && Visible(r, sender))
      && (st.isCall && (st.canGrant || st.canGrantReply) ==>
            r.threads[sender].state == BlockedOnReply && r.threads[t].caller == Some(Caller(sender, epCanGrant)))
      && (st.isCall && !(st.canGrant || st.canGrantReply) ==> r.threads[sender].state == Inactive)
  {
  }

  /** Taking a message from a sender keeps the IPC invariant. */
  lemma TakeSenderKeepsIpcOk(s: Sys, t: nat, e: nat, epCanGrant: bool)
    requires SchedOk(s) && IpcOk(s) && t in s.threads && e in s.endpoints && s.endpoints[e].state == EpSend && HeadOk(s, e)
    requires !IsQueuedState(s.threads[t].state)
    ensures IpcOk(TakeSender(s, t, e, epCanGrant))
  {
    var sender := s.endpoints[e].queue[0];
    var st := s.threads[sender].state;
    var s1 := SetBadgeReg(s, t, st.badge);
    var ts := if !st.isCall then Running else if st.canGrant || st.canGrantReply then BlockedOnReply else Inactive;
    ReleaseKeepsIpcOk(s1, sender, e, ts);
  }

  /** The binding of `t`, if any, names a notification that exists. */
  ghost predicate BoundOk(s: Sys, t: nat)
    requires t in s.threads
  {
    s.threads[t].boundNtfn.Some? ==> s.threads[t].boundNtfn.value in s.ntfns
  }

  /**
   * `receiveIPC`: a signal pending on the bound notification is taken
   * first (`completeSignal`).  Otherwise, with no sender waiting, a
   * blocking receiver joins the end of the queue with the grant right of
   * its endpoint capability, and a non-blocking one gets badge 0
   * (`doNBRecvFailedTransfer`); with a sender waiting, the head sender's
   * message is taken.
   */
  function ReceiveIPC(s: Sys, t: nat, e: nat, epCanGrant: bool, blocking: bool): (r: Sys)
    requires SchedOk(s) && t in s.threads && e in s.endpoints && HeadOk(s, e) && BoundOk(s, t)
    ensures SchedOk(r) && r == s.(threads := r.threads, ready := r.ready, action := r.action, endpoints := r.endpoints, ntfns := r.ntfns)
    ensures r.threads.Keys == s.threads.Keys && r.ntfns.Keys == s.ntfns.Keys && e in r.endpoints
  {
    var bound := s.threads[t].boundNtfn;
    if bound.Some? && s.ntfns[bound.value].state == NtfnActive then Deliver(s, bound.value, t)
    else if s.endpoints[e].state == EpSend then TakeSender(s, t, e, epCanGrant)
    else if blocking then BlockOn(s, t, e, EpRecv, BlockedOnReceive(e, epCanGrant))
    else SetBadgeReg(s, t, 0)
  }

  /** A pending signal on the bound notification pre-empts the endpoint: the receiver takes its badge and the endpoint is untouched. */
  lemma ReceiveIPCTakesSignalFirst(s: Sys, t: nat, e: nat, epCanGrant: bool, blocking: bool)
    requires SchedOk(s) && t in s.threads && e in s.endpoints && HeadOk(s, e) && BoundOk(s, t)
    requires s.threads[t].boundNtfn.Some? && s.ntfns[s.threads[t].boundNtfn.value].state == NtfnActive
    ensures var r := ReceiveIPC(s, t, e, epCanGrant, blocking); var n := s.threads[t].boundNtfn.value;
      r.threads[t].badgeReg == s.ntfns[n].msg && r.ntfns[n].state == NtfnIdle && r.endpoints == s.endpoints
      && r.threads[t].state == s.threads[t].state
  {
  }

  /** With no signal pending and no sender waiting, a blocking receiver queues itself and a non-blocking one gets badge 0. */
  lemma ReceiveIPCBlocks(s: Sys, t: nat, e: nat, epCanGrant: bool, blocking: bool)
    requires SchedOk(s) && t in s.threads && e in s.endpoints && HeadOk(s, e) && BoundOk(s, t)
    requires s.threads[t].boundNtfn.Some? ==> s.ntfns[s.threads[t].boundNtfn.value].state != NtfnActive
    requires s.endpoints[e].state != EpSend
    ensures var r := ReceiveIPC(s, t, e, epCanGrant, blocking);
      && (blocking ==> r.threads[t].state == BlockedOnReceive(e, epCanGrant)
                       && r.endpoints[e] == Endpoint(EpRecv, s.endpoints[e].queue + [t])
                       && (forall u :: u in s.threads && u != t ==> r.threads[u] == s.threads[u]))
      && (!blocking ==> r.threads[t] == s.threads[t].(badgeReg := 0) && r.endpoints == s.endpoints)
  {
  }

  /** A receiver that waits nowhere keeps the IPC invariant whichever way `receiveIPC` goes. */
  lemma ReceiveIPCKeepsIpcOk(s: Sys, t: nat, e: nat, epCanGrant: bool, blocking: bool)
    requires SchedOk(s) && IpcOk(s) && t in s.threads && e in s.endpoints && !IsQueuedState(s.threads[t].state)
    ensures HeadOk(s, e) && BoundOk(s, t)
    ensures IpcOk(ReceiveIPC(s, t, e, epCanGrant, blocking))
  {
    IpcOkHeadOk(s, e);
    var bound := s.threads[t].boundNtfn;
    if bound.Some? && s.ntfns[bound.value].state == NtfnActive {
      DeliverKeepsIpcOk(s, bound.value, t);
    } else if s.endpoints[e].state == EpSend {
      TakeSenderKeepsIpcOk(s, t, e, epCanGrant);
    } else if blocking {
      BlockOnKeepsIpcOk(s, t, e, EpRecv, BlockedOnReceive(e, epCanGrant));
    }
  }

  // ---------------------------------------------------------------------
  // Cancelling

  /**
   * The assertions `cancelIPC` relies on: an endpoint a thread is blocked
   * on is not idle, and a notification it is blocked on is waiting.
   */
  ghost predicate CancelOk(s: Sys, t: nat)
    requires t in s.threads
  {
    var ts := s.threads[t].state;
    ((ts.BlockedOnSend? || ts.BlockedOnReceive?) ==> ts.ep in s.endpoints && s.endpoints[ts.ep].state != EpIdle)
    && (ts.BlockedOnNotification? ==> ts.ntfn in s.ntfns && s.ntfns[ts.ntfn].state == NtfnWaiting)
  }

  /** The IPC invariant gives `cancelIPC` what it asserts. */
  lemma IpcOkCancelOk(s: Sys, t: nat)
    requires IpcOk(s) && t in s.threads
    ensures CancelOk(s, t)
  {
    var ts := s.threads[t].state;
    assert QueuedWhereBlocked(ts, t, s.endpoints, s.ntfns);
    if ts.BlockedOnSend? || ts.BlockedOnReceive? {
      assert EndpointOk(s.threads, ts.ep, s.endpoints[ts.ep]);
    } else if ts.BlockedOnNotification? {
      assert NotificationOk(s.threads, ts.ntfn, s.ntfns[ts.ntfn]);
    }
  }

  /**
   * `cancelIPC` (non-MCS): a thread blocked on an endpoint leaves its
   * queue (the endpoint falls idle if nobody is left) and becomes
   * inactive; one blocked on a notification has its signal wait cancelled;
   * one waiting for a reply loses the reply capability that names it,
   * keeping its state; any other thread is left alone.
   */
  function CancelIPC(s: Sys, t: nat): (r: Sys)
    requires SchedOk(s) && t in s.threads && CancelOk(s, t)
    ensures SchedOk(r) && r == s.(threads := r.threads, ready := r.ready, action := r.action, endpoints := r.endpoints, ntfns := r.ntfns)
    ensures r.threads.Keys == s.threads.Keys && r.endpoints.Keys == s.endpoints.Keys && r.ntfns.Keys == s.ntfns.Keys
    ensures !IsQueuedState(r.threads[t].state)
    ensures IsQueuedState(s.threads[t].state) ==> r.threads[t].state == Inactive
    ensures !IsQueuedState(s.threads[t].state) ==> r.threads[t].state == s.threads[t].state
    ensures forall u :: u in s.threads && u != t ==> r.threads[u].state == s.threads[u].state
    ensures forall u :: Visible(s, u) <==> Visible(r, u)
    ensures s.threads[t].state == BlockedOnReply ==>
      forall u :: u in r.threads && r.threads[u].caller.Some? ==> r.threads[u].caller.value.tcb != t
    ensures !IsQueuedState(s.threads[t].state) && s.threads[t].state != BlockedOnReply ==> r == s
  {
    var ts := s.threads[t].state;
    if ts.BlockedOnSend? || ts.BlockedOnReceive? then
      Release(s, t, ts.ep, Inactive)
    else if ts.BlockedOnNotification? then CancelSignal(s, t, ts.ntfn)
    else if ts == BlockedOnReply then DropCallersOf(s, t)
    else s
  }

  /** `cancelIPC` keeps the IPC invariant, and afterwards the thread waits in no queue. */
  lemma CancelIPCKeepsIpcOk(s: Sys, t: nat)
    requires SchedOk(s) && IpcOk(s) && t in s.threads
    ensures CancelOk(s, t)
    ensures IpcOk(CancelIPC(s, t)) && InNoQueue(CancelIPC(s, t), t)
  {
    IpcOkCancelOk(s, t);
    var ts := s.threads[t].state;
    var r := CancelIPC(s, t);
    if ts.BlockedOnSend? || ts.BlockedOnReceive? {
      ReleaseKeepsIpcOk(s, t, ts.ep, Inactive);
    } else if ts.BlockedOnNotification? {
      CancelSignalKeepsIpcOk(s, t, ts.ntfn);
    }
    NotBlockedInNoQueue(r, t);
  }

  /**
   * A blocking send to an endpoint no receiver waits on, cancelled before
   * anyone receives, leaves every endpoint as it was; the sender ends up
   * inactive.
   */
  lemma CancelUndoesSend(s: Sys, doCall: bool, badge: Word, canGrant: bool, canGrantReply: bool, t: nat, e: nat)
    requires SchedOk(s) && IpcOk(s) && t in s.threads && e in s.endpoints && !IsQueuedState(s.threads[t].state)
    requires s.endpoints[e].state != EpRecv
    ensures HeadOk(s, e)
    ensures var s1 := SendIPC(s, true, doCall, badge, canGrant, canGrantReply, t, e);
      CancelOk(s1, t) && CancelIPC(s1, t).endpoints == s.endpoints && CancelIPC(s1, t).threads[t].state == Inactive
  {
    IpcOkHeadOk(s, e);
    var ep := s.endpoints[e];
    var joined := Endpoint(EpSend, EpAppend(ep.queue, t));
    assert LeaveEp(joined, t) == ep by {
      NotBlockedInNoQueue(s, t);
      assert EndpointOk(s.threads, e, ep);
      EpDequeueUndoesAppend(ep.queue, t);
    }
    var s1 := SendIPC(s, true, doCall, badge, canGrant, canGrantReply, t, e);
    assert s1.endpoints == s.endpoints[e := joined];
    assert s1.threads[t].state == BlockedOnSend(e, badge, canGrant, canGrantReply, doCall);
    var r := CancelIPC(s1, t);
    assert r.endpoints == s.endpoints[e := joined][e := ep];
    RestoreEntry(s.endpoints, e, joined);
  }

  /**
   * A receive on an endpoint whose only waiter is a sender that did not
   * call gets that sender's badge; the sender runs again, visible to the
   * scheduler, and the endpoint falls idle.
   */
  lemma ReceiveFromLoneSender(s: Sys, t: nat, u: nat, e: nat, epCanGrant: bool, badge: Word, canGrant: bool, canGrantReply: bool)
    requires SchedOk(s) && t in s.threads && u in s.threads && e in s.endpoints && t != u
    requires s.endpoints[e] == Endpoint(EpSend, [t]) && s.threads[t].state == BlockedOnSend(e, badge, canGrant, canGrantReply, false)
    requires !IsQueuedState(s.threads[u].state) && BoundOk(s, u)
    requires s.threads[u].boundNtfn.Some? ==> s.ntfns[s.threads[u].boundNtfn.value].state != NtfnActive
    ensures HeadOk(s, e)
    ensures var r := ReceiveIPC(s, u, e, epCanGrant, true);
      r.threads[u].badgeReg == badge && r.threads[t].state == Running && Visible(r, t) && r.endpoints[e] == Endpoint(EpIdle, [])
  {
    TakeSenderFacts(s, u, e, epCanGrant);
  }

  /**
   * A send to an endpoint whose only waiter is a receiver delivers the
   * badge to it; the receiver runs, visible to the scheduler, and the
   * endpoint falls idle.
   */
  lemma SendToLoneReceiver(s: Sys, t: nat, u: nat, e: nat, epCanGrant: bool, badge: Word, canGrant: bool, canGrantReply: bool)
    requires SchedOk(s) && t in s.threads && u in s.threads && e in s.endpoints && t != u
    requires s.endpoints[e] == Endpoint(EpRecv, [u]) && s.threads[u].state == BlockedOnReceive(e, epCanGrant)
    requires !IsQueuedState(s.threads[t].state)
    ensures HeadOk(s, e)
    ensures var r := SendIPC(s, true, false, badge, canGrant, canGrantReply, t, e);
      r.threads[u].badgeReg == badge && r.threads[u].state == Running && Visible(r, u) && r.endpoints[e] == Endpoint(EpIdle, [])
  {
    SendToReceiverFacts(s, false, badge, canGrant, canGrantReply, t, e);
  }

  /**
   * A message left by a blocked sender reaches the next receiver: after a
   * blocking send to an idle endpoint, a receive with no signal pending
   * gets the badge, the sender runs again, and the endpoint is idle again.
   */
  lemma SendThenReceive(s: Sys, badge: Word, canGrant: bool, canGrantReply: bool, t: nat, u: nat, e: nat, epCanGrant: bool)
    requires SchedOk(s) && IpcOk(s) && t in s.threads && u in s.threads && e in s.endpoints && t != u
    requires !IsQueuedState(s.threads[t].state) && !IsQueuedState(s.threads[u].state) && s.endpoints[e].state == EpIdle
    requires s.threads[u].boundNtfn.Some? ==> s.ntfns[s.threads[u].boundNtfn.value].state != NtfnActive
    ensures HeadOk(s, e)
    ensures var s1 := SendIPC(s, true, false, badge, canGrant, canGrantReply, t, e);
      HeadOk(s1, e) && BoundOk(s1, u)
      && var r := ReceiveIPC(s1, u, e, epCanGrant, true);
      r.threads[u].badgeReg == badge && r.threads[t].state == Running && Visible(r, t) && r.endpoints[e] == s.endpoints[e]
  {
    IpcOkHeadOk(s, e);
    var s1 := SendIPC(s, true, false, badge, canGrant, canGrantReply, t, e);
    assert s.endpoints[e] == Endpoint(EpIdle, []) by {
      assert EndpointOk(s.threads, e, s.endpoints[e]);
    }
    assert s1.endpoints[e] == Endpoint(EpSend, [t]) && s1.threads[t].state == BlockedOnSend(e, badge, canGrant, canGrantReply, false)
      && s1.threads[u] == s.threads[u] && s1.ntfns == s.ntfns && SchedOk(s1) && s1.threads.Keys == s.threads.Keys by {
      SendIPCBlocks(s, true, false, badge, canGrant, canGrantReply, t, e);
    }
    assert BoundOk(s1, u) by {
      assert BindingsOk(s.threads, s.ntfns);
    }
    ReceiveFromLoneSender(s1, t, u, e, epCanGrant, badge, canGrant, canGrantReply);
  }

  /**
   * A blocked receiver gets the next message: after a blocking receive
   * on an idle endpoint with no signal pending, a send delivers the badge
   * and the receiver runs, visible to the scheduler, with the endpoint
   * idle again.
   */
  lemma ReceiveThenSend(s: Sys, badge: Word, canGrant: bool, canGrantReply: bool, t: nat, u: nat, e: nat, epCanGrant: bool)
    requires SchedOk(s) && IpcOk(s) && t in s.threads && u in s.threads && e in s.endpoints && t != u
    requires !IsQueuedState(s.threads[t].state) && !IsQueuedState(s.threads[u].state) && s.endpoints[e].state == EpIdle
    requires s.threads[u].boundNtfn.Some? ==> s.ntfns[s.threads[u].boundNtfn.value].state != NtfnActive
    ensures HeadOk(s, e) && BoundOk(s, u)
    ensures var s1 := ReceiveIPC(s, u, e, epCanGrant, true);
      HeadOk(s1, e)
      && var r := SendIPC(s1, true, false, badge, canGrant, canGrantReply, t, e);
      r.threads[u].badgeReg == badge && r.threads[u].state == Running && Visible(r, u) && r.endpoints[e] == s.endpoints[e]
  {
    IpcOkHeadOk(s, e);
    assert BoundOk(s, u) by {
      assert BindingsOk(s.threads, s.ntfns);
    }
    assert s.endpoints[e] == Endpoint(EpIdle, []) by {
      assert EndpointOk(s.threads, e, s.endpoints[e]);
    }
    var s1 := ReceiveIPC(s, u, e, epCanGrant, true);
    assert s1.endpoints[e] == Endpoint(EpRecv, [u]) && s1.threads[u].state == BlockedOnReceive(e, epCanGrant)
      && s1.threads[t] == s.threads[t] && SchedOk(s1) && s1.threads.Keys == s.threads.Keys by {
      ReceiveIPCBlocks(s, u, e, epCanGrant, true);
    }
    SendToLoneReceiver(s1, t, u, e, epCanGrant, badge, canGrant, canGrantReply);
  }

  /**
   * `cancelAllIPC` (non-MCS): an endpoint with waiters falls idle with an
   * empty queue, every waiter is restarted and made ready, and the
   * scheduler must choose anew.  An idle endpoint is left alone.
   */
  function CancelAllIPC(s: Sys, e: nat): (r: Sys)
    requires SchedOk(s) && e in s.endpoints && forall u :: u in s.endpoints[e].queue ==> u in s.threads
    ensures SchedOk(r) && r == s.(threads := r.threads, ready := r.ready, action := r.action, endpoints := r.endpoints)
    ensures s.endpoints[e].state == EpIdle ==> r == s
  {
    if s.endpoints[e].state != EpIdle then
      var q := s.endpoints[e].queue;
      RescheduleRequired(RestartAll(s.(endpoints := s.endpoints[e := Endpoint(EpIdle, [])]), q))
    else s
  }

  /** What `cancelAllIPC` does to an endpoint with waiters, its waiters, and everyone else. */
  lemma CancelAllIPCFacts(s: Sys, e: nat)
    requires SchedOk(s) && e in s.endpoints && forall u :: u in s.endpoints[e].queue ==> u in s.threads
    requires s.endpoints[e].state != EpIdle
    ensures var r := CancelAllIPC(s, e); var q := s.endpoints[e].queue;
      && r.endpoints == s.endpoints[e := Endpoint(EpIdle, [])]
      && r.threads.Keys == s.threads.Keys
      && (forall u :: u in s.threads ==> r.threads[u] == if u in q then s.threads[u].(state := Restart) else s.threads[u])
      && (forall u :: u in q ==> u in r.ready.queued)
      && (forall u :: Visible(s, u) ==> u in r.ready.queued)
      && r.action == ChooseNew
  {
    var q := s.endpoints[e].queue;
    var s1 := s.(endpoints := s.endpoints[e := Endpoint(EpIdle, [])]);
    RestartAllStates(s1, q);
    RestartAllReady(s1, q);
  }

  /** `cancelAllIPC` keeps the IPC invariant. */
  lemma CancelAllIPCKeepsIpcOk(s: Sys, e: nat)
    requires SchedOk(s) && IpcOk(s) && e in s.endpoints
    ensures forall u :: u in s.endpoints[e].queue ==> u in s.threads
    ensures IpcOk(CancelAllIPC(s, e))
  {
    assert EndpointOk(s.threads, e, s.endpoints[e]);
    if s.endpoints[e].state != EpIdle {
      var q := s.endpoints[e].queue;
      var r := CancelAllIPC(s, e);
      assert RestartedIn(s.threads, r.threads, q) && r.ntfns == s.ntfns
        && r.endpoints == s.endpoints[e := Endpoint(EpIdle, [])] by {
        CancelAllIPCFacts(s, e);
      }
      RestartEpWaitersOk(s.threads, s.endpoints, s.ntfns, r.threads, e);
    }
  }

  // ---------------------------------------------------------------------
  // Cancelling badged sends

  /** Every thread of `q` is blocked sending, so it has a badge. */
  ghost predicate AllSenders(threads: map<nat, Tcb>, q: seq<nat>)
  {
    forall u :: u in q ==> u in threads && threads[u].state.BlockedOnSend?
  }

  /** The senders of `q` carrying `badge`, in queue order. */
  function Matching(threads: map<nat, Tcb>, q: seq<nat>, badge: Word): (m: seq<nat>)
    requires AllSenders(threads, q)
    ensures forall u :: u in m <==> u in q && threads[u].state.badge == badge
    ensures Distinct(q) ==> Distinct(m)
  {
    if q == [] then []
    else
      var rest := Matching(threads, q[1..], badge);
      if threads[q[0]].state.badge == badge then
        DistinctCons(q, rest);
        [q[0]] + rest
      else
        assert Distinct(q) ==> Distinct(q[1..]) by { if Distinct(q) { DistinctTail(q); } }
        rest
  }

  /** The senders of `q` carrying another badge, in queue order. */
  function Unmatched(threads: map<nat, Tcb>, q: seq<nat>, badge: Word): (m: seq<nat>)
    requires AllSenders(threads, q)
    ensures forall u :: u in m <==> u in q && threads[u].state.badge != badge
    ensures Distinct(q) ==> Distinct(m)
  {
    if q == [] then []
    else
      var rest := Unmatched(threads, q[1..], badge);
      if threads[q[0]].state.badge != badge then
        DistinctCons(q, rest);
        [q[0]] + rest
      else
        assert Distinct(q) ==> Distinct(q[1..]) by { if Distinct(q) { DistinctTail(q); } }
        rest
  }

  /** A queue without its head has no duplicates if the queue had none. */
  lemma DistinctTail(q: seq<nat>)
    requires q != [] && Distinct(q)
    ensures Distinct(q[1..])
  {
    var t := q[1..];
    forall i, j | 0 <= i < j < |t| ensures t[i] != t[j] {
      assert t[i] == q[i + 1] && t[j] == q[j + 1];
    }
  }

  /** `tcbEPDequeue` of each thread of `gone` in turn, as the loop of `cancelBadgedSends` does. */
  function DequeueAll(q: seq<nat>, gone: seq<nat>): (r: seq<nat>)
    ensures forall u :: u in r <==> u in q && u !in gone
    decreases |gone|
  {
    if gone == [] then q else DequeueAll(EpDequeue(q, gone[0]), gone[1..])
  }

  /** Dequeueing threads other than the head keeps the head in front. */
  lemma {:induction false} DequeueAllKeepsHead(a: nat, x: seq<nat>, gone: seq<nat>)
    requires a !in gone
    ensures DequeueAll([a] + x, gone) == [a] + DequeueAll(x, gone)
    decreases |gone|
  {
    if gone != [] {
      assert EpDequeue([a] + x, gone[0]) == [a] + EpDequeue(x, gone[0]) by {
        assert ([a] + x)[1..] == x;
      }
      DequeueAllKeepsHead(a, EpDequeue(x, gone[0]), gone[1..]);
    }
  }

  /**
   * Dequeueing the matching senders one by one leaves exactly the
   * unmatched ones, in their original order.
   */
  lemma {:induction false} DequeueMatchingLeavesUnmatched(threads: map<nat, Tcb>, q: seq<nat>, badge: Word)
    requires AllSenders(threads, q) && Distinct(q)
    ensures DequeueAll(q, Matching(threads, q, badge)) == Unmatched(threads, q, badge)
    decreases |q|
  {
    if q != [] {
      var a, x := q[0], q[1..];
      assert q == [a] + x;
      DistinctTail(q);
      DequeueMatchingLeavesUnmatched(threads, x, badge);
      var mx := Matching(threads, x, badge);
      if threads[a].state.badge == badge {
        assert Matching(threads, q, badge) == [a] + mx;
        EpDequeueHead(q);
      } else {
        assert Matching(threads, q, badge) == mx;
        assert a !in x;
        DequeueAllKeepsHead(a, x, mx);
      }
    }
  }

  /** `cancelBadgedSends` reads the badge of every waiter of a sending endpoint. */
  ghost predicate SendersQueued(s: Sys, e: nat)
    requires e in s.endpoints
  {
    s.endpoints[e].state == EpSend ==> AllSenders(s.threads, s.endpoints[e].queue)
  }

  /**
   * `cancelBadgedSends` (non-MCS): on a sending endpoint, every sender
   * carrying `badge` is restarted and made ready and leaves the queue;
   * the endpoint stays sending if anyone is left and falls idle if not;
   * the scheduler must choose anew.  Idle and receiving endpoints are left
   * alone.
   */
  function CancelBadgedSends(s: Sys, e: nat, badge: Word): (r: Sys)
    requires SchedOk(s) && e in s.endpoints && SendersQueued(s, e)
    ensures SchedOk(r) && r == s.(threads := r.threads, ready := r.ready, action := r.action, endpoints := r.endpoints)
    ensures s.endpoints[e].state != EpSend ==> r == s
  {
    var ep := s.endpoints[e];
    if ep.state == EpSend then
      var m := Matching(s.threads, ep.queue, badge);
      var s1 := RestartAll(s.(endpoints := s.endpoints[e := Endpoint(EpIdle, [])]), m);
      var q := DequeueAll(ep.queue, m);
      RescheduleRequired(s1.(endpoints := s.endpoints[e := Endpoint(if q == [] then EpIdle else EpSend, q)]))
    else s
  }

  /**
   * On a sending endpoint without duplicate waiters, `cancelBadgedSends`
   * restarts exactly the senders carrying the badge and makes them ready,
   * and the queue keeps the other senders in their order.
   */
  lemma CancelBadgedSendsFacts(s: Sys, e: nat, badge: Word)
    requires SchedOk(s) && e in s.endpoints && SendersQueued(s, e)
    requires s.endpoints[e].state == EpSend && Distinct(s.endpoints[e].queue)
    ensures var r := CancelBadgedSends(s, e, badge); var q := s.endpoints[e].queue;
      var m := Matching(s.threads, q, badge); var u := Unmatched(s.threads, q, badge);
      && r.endpoints == s.endpoints[e := Endpoint(if u == [] then EpIdle else EpSend, u)]
      && RestartedIn(s.threads, r.threads, m)
      && (forall x :: x in m ==> x in r.ready.queued)
      && (forall x :: Visible(s, x) ==> x in r.ready.queued)
      && r.action == ChooseNew
  {
    var q := s.endpoints[e].queue;
    var m := Matching(s.threads, q, badge);
    var s1 := s.(endpoints := s.endpoints[e := Endpoint(EpIdle, [])]);
    RestartAllStates(s1, m);
    RestartAllReady(s1, m);
    DequeueMatchingLeavesUnmatched(s.threads, q, badge);
  }

  /** Restarting the matching senders of a sending endpoint and keeping the others queued keeps every part of the IPC invariant. */
  lemma BadgedSweepOk(threads: map<nat, Tcb>, eps: map<nat, Endpoint>, ntfns: map<nat, Notification>,
                      threads': map<nat, Tcb>, e: nat, badge: Word)
    requires EndpointsOk(threads, eps) && NotificationsOk(threads, ntfns) && BindingsOk(threads, ntfns)
    requires BlockersQueued(threads, eps, ntfns) && e in eps && eps[e].state == EpSend && AllSenders(threads, eps[e].queue)
    requires RestartedIn(threads, threads', Matching(threads, eps[e].queue, badge))
    ensures var u := Unmatched(threads, eps[e].queue, badge);
      var eps' := eps[e := Endpoint(if u == [] then EpIdle else EpSend, u)];
      EndpointsOk(threads', eps') && NotificationsOk(threads', ntfns) && BindingsOk(threads', ntfns)
      && BlockersQueued(threads', eps', ntfns)
  {
    var q := eps[e].queue;
    var m := Matching(threads, q, badge);
    var u := Unmatched(threads, q, badge);
    var eps' := eps[e := Endpoint(if u == [] then EpIdle else EpSend, u)];
    EpWaitersWaitNowhereElse(threads, eps, ntfns, e);
    forall e' | e' in eps' ensures EndpointOk(threads', e', eps'[e']) {
      assert EndpointOk(threads, e', eps[e']);
      if e' != e {
        assert Disjoint(eps[e'].queue, q);
      }
    }
    forall n | n in ntfns ensures Disjoint(ntfns[n].queue, m) {
      assert Disjoint(ntfns[n].queue, q);
    }
    RestartKeepsNtfns(threads, threads', ntfns, ntfns, m);
    RestartKeepsBlockers(threads, threads', eps, ntfns, eps', ntfns, m);
    SameBoundsKeepBindings(threads, ntfns, threads', ntfns);
  }

  /** `cancelBadgedSends` keeps the IPC invariant. */
  lemma CancelBadgedSendsKeepsIpcOk(s: Sys, e: nat, badge: Word)
    requires SchedOk(s) && IpcOk(s) && e in s.endpoints
    ensures SendersQueued(s, e)
    ensures IpcOk(CancelBadgedSends(s, e, badge))
  {
    assert EndpointOk(s.threads, e, s.endpoints[e]);
    if s.endpoints[e].state == EpSend {
      var r := CancelBadgedSends(s, e, badge);
      var q := s.endpoints[e].queue;
      var u := Unmatched(s.threads, q, badge);
      assert RestartedIn(s.threads, r.threads, Matching(s.threads, q, badge)) && r.ntfns == s.ntfns
        && r.endpoints == s.endpoints[e := Endpoint(if u == [] then EpIdle else EpSend, u)] by {
        CancelBadgedSendsFacts(s, e, badge);
      }
      BadgedSweepOk(s.threads, s.endpoints, s.ntfns, r.threads, e, badge);
    }
  }
}
