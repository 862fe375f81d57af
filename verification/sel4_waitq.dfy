/**
 * What the endpoint and notification paths share: a thread leaving the
 * queue it waits in (`tcbEPDequeue` followed by the "idle once empty"
 * update of `endpoint.c` and `notification.c`), a thread joining the end
 * of one (`tcbEPAppend`), and the "restart every waiter" loop of
 * `cancelAllIPC` and `cancelAllSignals`, with the facts that each keeps
 * the IPC invariant.
 */
module WaitQueues {
  import opened Wrappers
  import opened ReadyQueues
  import opened KernelState
  import opened Sel4Scheduler

  /** The endpoint with `t` dequeued; it becomes idle once nobody is left. */
  function LeaveEp(ep: Endpoint, t: nat): (r: Endpoint)
  {
    var q := EpDequeue(ep.queue, t);
    Endpoint(if q == [] then EpIdle else ep.state, q)
  }

  /** The notification with `t` dequeued; a waiting notification becomes idle once nobody is left. */
  function LeaveNtfn(nt: Notification, t: nat): (r: Notification)
  {
    var q := EpDequeue(nt.queue, t);
    nt.(queue := q, state := if q == [] && nt.state == NtfnWaiting then NtfnIdle else nt.state)
  }

  /** Leaving an endpoint one does not wait in changes nothing. */
  lemma LeaveAbsentEp(threads: map<nat, Tcb>, e: nat, ep: Endpoint, t: nat)
    requires EndpointOk(threads, e, ep) && t !in ep.queue
    ensures LeaveEp(ep, t) == ep
  {
  }

  /** Leaving a notification one does not wait in changes nothing. */
  lemma LeaveAbsentNtfn(threads: map<nat, Tcb>, n: nat, nt: Notification, t: nat)
    requires NotificationOk(threads, n, nt) && t !in nt.queue
    ensures LeaveNtfn(nt, t) == nt
  {
  }

  /** Overwriting an entry and then restoring it gives back the map. */
  lemma RestoreEntry<V>(m: map<nat, V>, k: nat, v: V)
    requires k in m
    ensures m[k := v][k := m[k]] == m
  {
  }

  /** The thread tables agree on every key and on every state except `t`'s. */
  ghost predicate SameStatesBut(threads: map<nat, Tcb>, threads': map<nat, Tcb>, t: nat)
  {
    threads'.Keys == threads.Keys
    && forall u :: u in threads && u != t ==> threads'[u].state == threads[u].state
  }

  /** Every waiter of `q` other than `t` still waits in `q'`. */
  predicate KeepsOthers(q: seq<nat>, q': seq<nat>, t: nat)
  {
    forall u :: u in q && u != t ==> u in q'
  }

  /** A thread that waits in no endpoint queue may change state without disturbing any endpoint. */
  lemma EndpointsWithoutWaiter(threads: map<nat, Tcb>, eps: map<nat, Endpoint>, t: nat, ts: ThreadState)
    requires EndpointsOk(threads, eps) && t in threads
    requires forall e :: e in eps ==> t !in eps[e].queue
    ensures EndpointsOk(WithState(threads, t, ts), eps)
  {
    forall e | e in eps ensures EndpointOk(WithState(threads, t, ts), e, eps[e]) {
      assert EndpointOk(threads, e, eps[e]);
    }
  }

  /** A thread that waits in no notification queue may change state without disturbing any notification. */
  lemma NtfnsWithoutWaiter(threads: map<nat, Tcb>, ntfns: map<nat, Notification>, t: nat, ts: ThreadState)
    requires NotificationsOk(threads, ntfns) && t in threads
    requires forall n :: n in ntfns ==> t !in ntfns[n].queue
    ensures NotificationsOk(WithState(threads, t, ts), ntfns)
  {
    forall n | n in ntfns ensures NotificationOk(WithState(threads, t, ts), n, ntfns[n]) {
      assert NotificationOk(threads, n, ntfns[n]);
    }
  }

  /** Bindings survive any change that keeps each side's record of them. */
  lemma SameBoundsKeepBindings(threads: map<nat, Tcb>, ntfns: map<nat, Notification>,
                               threads': map<nat, Tcb>, ntfns': map<nat, Notification>)
    requires BindingsOk(threads, ntfns) && threads'.Keys == threads.Keys && ntfns'.Keys == ntfns.Keys
    requires forall u :: u in threads ==> threads'[u].boundNtfn == threads[u].boundNtfn
    requires forall n :: n in ntfns ==> ntfns'[n].bound == ntfns[n].bound
    ensures BindingsOk(threads', ntfns')
  {
  }

  /**
   * Blocked threads other than `t` stay in their queues as long as no
   * queue loses anyone but `t`; `t` itself must be where its new state
   * says.
   */
  lemma BlockersStayQueued(threads: map<nat, Tcb>, eps: map<nat, Endpoint>, ntfns: map<nat, Notification>,
                           threads': map<nat, Tcb>, eps': map<nat, Endpoint>, ntfns': map<nat, Notification>, t: nat)
    requires BlockersQueued(threads, eps, ntfns) && SameStatesBut(threads, threads', t) && t in threads
    requires QueuedWhereBlocked(threads'[t].state, t, eps', ntfns')
    requires forall e :: e in eps ==> e in eps' && KeepsOthers(eps[e].queue, eps'[e].queue, t)
    requires forall n :: n in ntfns ==> n in ntfns' && KeepsOthers(ntfns[n].queue, ntfns'[n].queue, t)
    ensures BlockersQueued(threads', eps', ntfns')
  {
    forall u | u in threads' ensures QueuedWhereBlocked(threads'[u].state, u, eps', ntfns') {
      if u != t {
        assert QueuedWhereBlocked(threads[u].state, u, eps, ntfns);
      }
    }
  }

  /** Leaving every endpoint queue keeps the endpoints consistent. */
  lemma LeaveEndpointsOk(threads: map<nat, Tcb>, eps: map<nat, Endpoint>, threads': map<nat, Tcb>, eps': map<nat, Endpoint>, t: nat)
    requires EndpointsOk(threads, eps) && SameStatesBut(threads, threads', t)
    requires eps'.Keys == eps.Keys && forall e :: e in eps ==> eps'[e] == LeaveEp(eps[e], t)
    ensures EndpointsOk(threads', eps')
  {
    forall e | e in eps' ensures EndpointOk(threads', e, eps'[e]) {
      var ep := eps[e];
      assert EndpointOk(threads, e, ep);
      var q := eps'[e].queue;
      if q != [] {
        assert q[0] in ep.queue;
      }
    }
  }

  /** Leaving every notification queue keeps the notifications consistent. */
  lemma LeaveNtfnsOk(threads: map<nat, Tcb>, ntfns: map<nat, Notification>, threads': map<nat, Tcb>, ntfns': map<nat, Notification>, t: nat)
    requires NotificationsOk(threads, ntfns) && SameStatesBut(threads, threads', t)
    requires ntfns'.Keys == ntfns.Keys && forall n :: n in ntfns ==> ntfns'[n] == LeaveNtfn(ntfns[n], t)
    ensures NotificationsOk(threads', ntfns')
  {
    forall n | n in ntfns' ensures NotificationOk(threads', n, ntfns'[n]) {
      var nt := ntfns[n];
      assert NotificationOk(threads, n, nt);
      var q := ntfns'[n].queue;
      if q != [] {
        assert q[0] in nt.queue;
      }
    }
  }

  /**
   * A thread that leaves every queue it waits in and takes a state that
   * needs no queue keeps the IPC invariant, whatever else it changes
   * about itself.
   */
  lemma LeaveKeepsIpcOk(s: Sys, r: Sys, t: nat)
    requires IpcOk(s) && t in s.threads
    requires SameStatesBut(s.threads, r.threads, t) && !IsQueuedState(r.threads[t].state)
    requires forall u :: u in s.threads ==> r.threads[u].boundNtfn == s.threads[u].boundNtfn
    requires r.endpoints.Keys == s.endpoints.Keys && r.ntfns.Keys == s.ntfns.Keys
    requires forall e :: e in s.endpoints ==> r.endpoints[e] == LeaveEp(s.endpoints[e], t)
    requires forall n :: n in s.ntfns ==> r.ntfns[n] == LeaveNtfn(s.ntfns[n], t)
    ensures IpcOk(r)
  {
    LeaveEndpointsOk(s.threads, s.endpoints, r.threads, r.endpoints, t);
    LeaveNtfnsOk(s.threads, s.ntfns, r.threads, r.ntfns, t);
    SameBoundsKeepBindings(s.threads, s.ntfns, r.threads, r.ntfns);
    BlockersStayQueued(s.threads, s.endpoints, s.ntfns, r.threads, r.endpoints, r.ntfns, t);
  }

  /** A thread blocked on notification `n` that leaves its queue for a state that needs none keeps the IPC invariant. */
  lemma LeaveNtfnKeepsIpcOk(s: Sys, r: Sys, t: nat, n: nat, ts: ThreadState)
    requires IpcOk(s) && t in s.threads && n in s.ntfns && s.threads[t].state == BlockedOnNotification(n) && !IsQueuedState(ts)
    requires r.threads == WithState(s.threads, t, ts) && r.endpoints == s.endpoints
    requires r.ntfns == s.ntfns[n := LeaveNtfn(s.ntfns[n], t)]
    ensures IpcOk(r)
  {
    assert (forall e :: e in s.endpoints ==> r.endpoints[e] == LeaveEp(s.endpoints[e], t))
      && (forall n' :: n' in s.ntfns ==> r.ntfns[n'] == LeaveNtfn(s.ntfns[n'], t)) by {
      LeaveOnlyNtfn(s.threads, s.endpoints, s.ntfns, t, n);
    }
    LeaveKeepsIpcOk(s, r, t);
  }

  /** A thread blocked on endpoint `e` that leaves its queue for a state that needs none keeps the IPC invariant. */
  lemma LeaveEpKeepsIpcOk(s: Sys, r: Sys, t: nat, e: nat, ts: ThreadState)
    requires IpcOk(s) && t in s.threads && e in s.endpoints && !IsQueuedState(ts)
    requires (s.threads[t].state.BlockedOnSend? || s.threads[t].state.BlockedOnReceive?) && s.threads[t].state.ep == e
    requires r.threads == WithState(s.threads, t, ts) && r.ntfns == s.ntfns
    requires r.endpoints == s.endpoints[e := LeaveEp(s.endpoints[e], t)]
    ensures IpcOk(r)
  {
    assert (forall e' :: e' in s.endpoints ==> r.endpoints[e'] == LeaveEp(s.endpoints[e'], t))
      && (forall n :: n in s.ntfns ==> r.ntfns[n] == LeaveNtfn(s.ntfns[n], t)) by {
      LeaveOnlyEp(s.threads, s.endpoints, s.ntfns, t, e);
    }
    LeaveKeepsIpcOk(s, r, t);
  }

  /** Joining the end of an endpoint queue, blocked the matching way, keeps the endpoints consistent. */
  lemma JoinEndpointsOk(threads: map<nat, Tcb>, eps: map<nat, Endpoint>, t: nat, e: nat, st: EpState, ts: ThreadState)
    requires EndpointsOk(threads, eps) && t in threads && e in eps
    requires forall e' :: e' in eps ==> t !in eps[e'].queue
    requires st != EpIdle && WaitsOnEndpoint(ts, e, st)
    requires eps[e].state == EpIdle || eps[e].state == st
    ensures EndpointsOk(WithState(threads, t, ts), eps[e := Endpoint(st, EpAppend(eps[e].queue, t))])
  {
    var threads' := WithState(threads, t, ts);
    EndpointsWithoutWaiter(threads, eps, t, ts);
    var ep := eps[e];
    assert EndpointOk(threads', e, ep);
    var q := EpAppend(ep.queue, t);
    forall i, j | 0 <= i < j < |q| ensures q[i] != q[j] {
      if j == |ep.queue| { assert q[i] in ep.queue; }
    }
  }

  /** A thread that waits nowhere and joins the end of an endpoint queue, blocked on it, keeps the IPC invariant. */
  lemma JoinEpKeepsIpcOk(s: Sys, r: Sys, t: nat, e: nat, st: EpState, ts: ThreadState)
    requires IpcOk(s) && t in s.threads && e in s.endpoints && InNoQueue(s, t)
    requires st != EpIdle && WaitsOnEndpoint(ts, e, st) && (ts.BlockedOnSend? || ts.BlockedOnReceive?)
    requires s.endpoints[e].state == EpIdle || s.endpoints[e].state == st
    requires r.threads == WithState(s.threads, t, ts) && r.ntfns == s.ntfns
    requires r.endpoints == s.endpoints[e := Endpoint(st, EpAppend(s.endpoints[e].queue, t))]
    ensures IpcOk(r)
  {
    JoinEndpointsOk(s.threads, s.endpoints, t, e, st, ts);
    NtfnsWithoutWaiter(s.threads, s.ntfns, t, ts);
    SameBoundsKeepBindings(s.threads, s.ntfns, r.threads, r.ntfns);
    BlockersStayQueued(s.threads, s.endpoints, s.ntfns, r.threads, r.endpoints, r.ntfns, t);
  }

  /** Joining the end of a notification queue, blocked on it, keeps the notifications consistent. */
  lemma JoinNtfnsOk(threads: map<nat, Tcb>, ntfns: map<nat, Notification>, t: nat, n: nat)
    requires NotificationsOk(threads, ntfns) && t in threads && n in ntfns
    requires forall n' :: n' in ntfns ==> t !in ntfns[n'].queue
    ensures NotificationsOk(WithState(threads, t, BlockedOnNotification(n)),
                            ntfns[n := ntfns[n].(state := NtfnWaiting, queue := EpAppend(ntfns[n].queue, t))])
  {
    var threads' := WithState(threads, t, BlockedOnNotification(n));
    NtfnsWithoutWaiter(threads, ntfns, t, BlockedOnNotification(n));
    var nt := ntfns[n];
    assert NotificationOk(threads', n, nt);
    var q := EpAppend(nt.queue, t);
    forall i, j | 0 <= i < j < |q| ensures q[i] != q[j] {
      if j == |nt.queue| { assert q[i] in nt.queue; }
    }
  }

  /** A thread that waits nowhere and joins the end of a notification queue, blocked on it, keeps the IPC invariant. */
  lemma JoinNtfnKeepsIpcOk(s: Sys, r: Sys, t: nat, n: nat)
    requires IpcOk(s) && t in s.threads && n in s.ntfns && InNoQueue(s, t)
    requires r.threads == WithState(s.threads, t, BlockedOnNotification(n)) && r.endpoints == s.endpoints
    requires r.ntfns == s.ntfns[n := s.ntfns[n].(state := NtfnWaiting, queue := EpAppend(s.ntfns[n].queue, t))]
    ensures IpcOk(r)
  {
    JoinNtfnsOk(s.threads, s.ntfns, t, n);
    EndpointsWithoutWaiter(s.threads, s.endpoints, t, BlockedOnNotification(n));
    SameBoundsKeepBindings(s.threads, s.ntfns, r.threads, r.ntfns);
    BlockersStayQueued(s.threads, s.endpoints, s.ntfns, r.threads, r.endpoints, r.ntfns, t);
  }

  /** No waiter of `a` is in `b`. */
  predicate Disjoint(a: seq<nat>, b: seq<nat>)
  {
    forall u :: u in a ==> u !in b
  }

  /** Every waiter of `q0` outside `q` still waits in `q1`. */
  predicate KeepsOutside(q0: seq<nat>, q1: seq<nat>, q: seq<nat>)
  {
    forall u :: u in q0 && u !in q ==> u in q1
  }

  /** The threads of `q` restarted; every other thread as before. */
  ghost predicate RestartedIn(threads: map<nat, Tcb>, threads': map<nat, Tcb>, q: seq<nat>)
  {
    threads'.Keys == threads.Keys
    && forall u :: u in threads ==> threads'[u] == if u in q then threads[u].(state := Restart) else threads[u]
  }

  /** Restarting the waiters of one emptied endpoint, who wait in no other, keeps the endpoints consistent. */
  lemma RestartKeepsEndpoints(threads: map<nat, Tcb>, threads': map<nat, Tcb>, eps: map<nat, Endpoint>, eps': map<nat, Endpoint>, q: seq<nat>)
    requires EndpointsOk(threads, eps) && RestartedIn(threads, threads', q) && eps'.Keys == eps.Keys
    requires forall e :: e in eps ==> eps'[e] == Endpoint(EpIdle, []) || (eps'[e] == eps[e] && Disjoint(eps[e].queue, q))
    ensures EndpointsOk(threads', eps')
  {
    forall e | e in eps' ensures EndpointOk(threads', e, eps'[e]) {
      assert EndpointOk(threads, e, eps[e]);
    }
  }

  /** Restarting the waiters of one emptied notification, who wait in no other, keeps the notifications consistent. */
  lemma RestartKeepsNtfns(threads: map<nat, Tcb>, threads': map<nat, Tcb>, ntfns: map<nat, Notification>,
                          ntfns': map<nat, Notification>, q: seq<nat>)
    requires NotificationsOk(threads, ntfns) && RestartedIn(threads, threads', q) && ntfns'.Keys == ntfns.Keys
    requires forall n :: n in ntfns ==>
      ntfns'[n] == ntfns[n].(state := NtfnIdle, queue := []) || (ntfns'[n] == ntfns[n] && Disjoint(ntfns[n].queue, q))
    ensures NotificationsOk(threads', ntfns')
  {
    forall n | n in ntfns' ensures NotificationOk(threads', n, ntfns'[n]) {
      assert NotificationOk(threads, n, ntfns[n]);
    }
  }

  /** Restarted threads need no queue, and everyone else keeps their place. */
  lemma RestartKeepsBlockers(threads: map<nat, Tcb>, threads': map<nat, Tcb>, eps: map<nat, Endpoint>, ntfns: map<nat, Notification>,
                             eps': map<nat, Endpoint>, ntfns': map<nat, Notification>, q: seq<nat>)
    requires BlockersQueued(threads, eps, ntfns) && RestartedIn(threads, threads', q)
    requires forall e :: e in eps ==> e in eps' && KeepsOutside(eps[e].queue, eps'[e].queue, q)
    requires forall n :: n in ntfns ==> n in ntfns' && KeepsOutside(ntfns[n].queue, ntfns'[n].queue, q)
    ensures BlockersQueued(threads', eps', ntfns')
  {
    forall u | u in threads' ensures QueuedWhereBlocked(threads'[u].state, u, eps', ntfns') {
      assert QueuedWhereBlocked(threads[u].state, u, eps, ntfns);
    }
  }

  /** The waiters of a notification wait in no endpoint and no other notification. */
  lemma NtfnWaitersWaitNowhereElse(threads: map<nat, Tcb>, eps: map<nat, Endpoint>, ntfns: map<nat, Notification>, n: nat)
    requires EndpointsOk(threads, eps) && NotificationsOk(threads, ntfns) && n in ntfns
    ensures forall e :: e in eps ==> Disjoint(eps[e].queue, ntfns[n].queue)
    ensures forall n' :: n' in ntfns && n' != n ==> Disjoint(ntfns[n'].queue, ntfns[n].queue)
  {
    assert NotificationOk(threads, n, ntfns[n]);
    forall e | e in eps ensures Disjoint(eps[e].queue, ntfns[n].queue) {
      assert EndpointOk(threads, e, eps[e]);
    }
    forall n' | n' in ntfns && n' != n ensures Disjoint(ntfns[n'].queue, ntfns[n].queue) {
      assert NotificationOk(threads, n', ntfns[n']);
    }
  }

  /** The waiters of an endpoint wait in no other endpoint and no notification. */
  lemma EpWaitersWaitNowhereElse(threads: map<nat, Tcb>, eps: map<nat, Endpoint>, ntfns: map<nat, Notification>, e: nat)
    requires EndpointsOk(threads, eps) && NotificationsOk(threads, ntfns) && e in eps
    ensures forall e' :: e' in eps && e' != e ==> Disjoint(eps[e'].queue, eps[e].queue)
    ensures forall n :: n in ntfns ==> Disjoint(ntfns[n].queue, eps[e].queue)
  {
    assert EndpointOk(threads, e, eps[e]);
    forall e' | e' in eps && e' != e ensures Disjoint(eps[e'].queue, eps[e].queue) {
      assert EndpointOk(threads, e', eps[e']);
    }
    forall n | n in ntfns ensures Disjoint(ntfns[n].queue, eps[e].queue) {
      assert NotificationOk(threads, n, ntfns[n]);
    }
  }

  /** A thread blocked on notification `n` waits in no endpoint and no other notification, so leaving those changes nothing. */
  lemma LeaveOnlyNtfn(threads: map<nat, Tcb>, eps: map<nat, Endpoint>, ntfns: map<nat, Notification>, t: nat, n: nat)
    requires EndpointsOk(threads, eps) && NotificationsOk(threads, ntfns)
    requires t in threads && threads[t].state == BlockedOnNotification(n)
    ensures forall e :: e in eps ==> LeaveEp(eps[e], t) == eps[e]
    ensures forall n' :: n' in ntfns && n' != n ==> LeaveNtfn(ntfns[n'], t) == ntfns[n']
  {
    forall e | e in eps ensures LeaveEp(eps[e], t) == eps[e] {
      assert EndpointOk(threads, e, eps[e]);
      LeaveAbsentEp(threads, e, eps[e], t);
    }
    forall n' | n' in ntfns && n' != n ensures LeaveNtfn(ntfns[n'], t) == ntfns[n'] {
      assert NotificationOk(threads, n', ntfns[n']);
      LeaveAbsentNtfn(threads, n', ntfns[n'], t);
    }
  }

  /** A thread blocked on endpoint `e` waits in no other endpoint and no notification, so leaving those changes nothing. */
  lemma LeaveOnlyEp(threads: map<nat, Tcb>, eps: map<nat, Endpoint>, ntfns: map<nat, Notification>, t: nat, e: nat)
    requires EndpointsOk(threads, eps) && NotificationsOk(threads, ntfns)
    requires t in threads && (threads[t].state.BlockedOnSend? || threads[t].state.BlockedOnReceive?) && threads[t].state.ep == e
    ensures forall e' :: e' in eps && e' != e ==> LeaveEp(eps[e'], t) == eps[e']
    ensures forall n :: n in ntfns ==> LeaveNtfn(ntfns[n], t) == ntfns[n]
  {
    forall e' | e' in eps && e' != e ensures LeaveEp(eps[e'], t) == eps[e'] {
      assert EndpointOk(threads, e', eps[e']);
      LeaveAbsentEp(threads, e', eps[e'], t);
    }
    forall n | n in ntfns ensures LeaveNtfn(ntfns[n], t) == ntfns[n] {
      assert NotificationOk(threads, n, ntfns[n]);
      LeaveAbsentNtfn(threads, n, ntfns[n], t);
    }
  }

  /** A notification nobody waits on may fall idle without disturbing the IPC invariant. */
  lemma QuietNtfnOk(threads: map<nat, Tcb>, eps: map<nat, Endpoint>, ntfns: map<nat, Notification>, n: nat)
    requires NotificationsOk(threads, ntfns) && BindingsOk(threads, ntfns) && BlockersQueued(threads, eps, ntfns)
    requires n in ntfns && ntfns[n].state != NtfnWaiting
    ensures var ntfns' := ntfns[n := ntfns[n].(state := NtfnIdle)];
      NotificationsOk(threads, ntfns') && BindingsOk(threads, ntfns') && BlockersQueued(threads, eps, ntfns')
  {
    var ntfns' := ntfns[n := ntfns[n].(state := NtfnIdle)];
    forall n' | n' in ntfns' ensures NotificationOk(threads, n', ntfns'[n']) {
      assert NotificationOk(threads, n', ntfns[n']);
    }
    forall u | u in threads ensures QueuedWhereBlocked(threads[u].state, u, eps, ntfns') {
      assert QueuedWhereBlocked(threads[u].state, u, eps, ntfns);
    }
  }

  /** Emptying notification `n` and restarting its waiters keeps every part of the IPC invariant. */
  lemma RestartNtfnWaitersOk(threads: map<nat, Tcb>, eps: map<nat, Endpoint>, ntfns: map<nat, Notification>,
                             threads': map<nat, Tcb>, n: nat)
    requires EndpointsOk(threads, eps) && NotificationsOk(threads, ntfns) && BindingsOk(threads, ntfns)
    requires BlockersQueued(threads, eps, ntfns) && n in ntfns && RestartedIn(threads, threads', ntfns[n].queue)
    ensures var ntfns' := ntfns[n := ntfns[n].(state := NtfnIdle, queue := [])];
      EndpointsOk(threads', eps) && NotificationsOk(threads', ntfns') && BindingsOk(threads', ntfns')
      && BlockersQueued(threads', eps, ntfns')
  {
    var q := ntfns[n].queue;
    var ntfns' := ntfns[n := ntfns[n].(state := NtfnIdle, queue := [])];
    NtfnWaitersWaitNowhereElse(threads, eps, ntfns, n);
    RestartKeepsEndpoints(threads, threads', eps, eps, q);
    RestartKeepsNtfns(threads, threads', ntfns, ntfns', q);
    RestartKeepsBlockers(threads, threads', eps, ntfns, eps, ntfns', q);
    SameBoundsKeepBindings(threads, ntfns, threads', ntfns');
  }

  /** Emptying endpoint `e` and restarting its waiters keeps every part of the IPC invariant. */
  lemma RestartEpWaitersOk(threads: map<nat, Tcb>, eps: map<nat, Endpoint>, ntfns: map<nat, Notification>,
                           threads': map<nat, Tcb>, e: nat)
    requires EndpointsOk(threads, eps) && NotificationsOk(threads, ntfns) && BindingsOk(threads, ntfns)
    requires BlockersQueued(threads, eps, ntfns) && e in eps && RestartedIn(threads, threads', eps[e].queue)
    ensures var eps' := eps[e := Endpoint(EpIdle, [])];
      EndpointsOk(threads', eps') && NotificationsOk(threads', ntfns) && BindingsOk(threads', ntfns)
      && BlockersQueued(threads', eps', ntfns)
  {
    var q := eps[e].queue;
    var eps' := eps[e := Endpoint(EpIdle, [])];
    EpWaitersWaitNowhereElse(threads, eps, ntfns, e);
    RestartKeepsEndpoints(threads, threads', eps, eps', q);
    RestartKeepsNtfns(threads, threads', ntfns, ntfns, q);
    RestartKeepsBlockers(threads, threads', eps, ntfns, eps', ntfns, q);
    SameBoundsKeepBindings(threads, ntfns, threads', ntfns);
  }

  /** Changes that keep every thread state and every object's state and queue keep the queue parts of the invariant. */
  lemma SameQueuesKeepQueues(s: Sys, r: Sys)
    requires EndpointsOk(s.threads, s.endpoints) && NotificationsOk(s.threads, s.ntfns) && BlockersQueued(s.threads, s.endpoints, s.ntfns)
    requires r.endpoints == s.endpoints && r.threads.Keys == s.threads.Keys && r.ntfns.Keys == s.ntfns.Keys
    requires forall u :: u in s.threads ==> r.threads[u].state == s.threads[u].state
    requires forall n :: n in s.ntfns ==> r.ntfns[n].state == s.ntfns[n].state && r.ntfns[n].queue == s.ntfns[n].queue
    ensures EndpointsOk(r.threads, r.endpoints) && NotificationsOk(r.threads, r.ntfns) && BlockersQueued(r.threads, r.endpoints, r.ntfns)
  {
    forall e | e in r.endpoints ensures EndpointOk(r.threads, e, r.endpoints[e]) {
      assert EndpointOk(s.threads, e, s.endpoints[e]);
    }
    forall n | n in r.ntfns ensures NotificationOk(r.threads, n, r.ntfns[n]) {
      assert NotificationOk(s.threads, n, s.ntfns[n]);
    }
    forall u | u in r.threads ensures QueuedWhereBlocked(r.threads[u].state, u, r.endpoints, r.ntfns) {
      assert QueuedWhereBlocked(s.threads[u].state, u, s.endpoints, s.ntfns);
    }
  }

  /**
   * The loop of `cancelAllIPC` and `cancelAllSignals` (non-MCS): every
   * thread of `q`, from the head, is set to `Restart` and put at the head
   * of its ready queue.  Nothing else about the threads changes.
   */
  function RestartAll(s: Sys, q: seq<nat>): (r: Sys)
    requires SchedOk(s) && forall u :: u in q ==> u in s.threads
    ensures SchedOk(r) && r == s.(threads := r.threads, ready := r.ready) && r.threads.Keys == s.threads.Keys
    decreases |q|
  {
    if q == [] then s
    else
      var t := q[0];
      RestartAll(Enqueue(SetState(s, t, Restart), t), q[1..])
  }

  /** `RestartAll` sets exactly the threads of `q` to `Restart`, and changes nothing else about any thread. */
  lemma {:induction false} RestartAllStates(s: Sys, q: seq<nat>)
    requires SchedOk(s) && forall u :: u in q ==> u in s.threads
    ensures forall u :: u in s.threads ==> RestartAll(s, q).threads[u] == if u in q then s.threads[u].(state := Restart) else s.threads[u]
    decreases |q|
  {
    if q != [] {
      var t := q[0];
      var s1 := Enqueue(SetState(s, t, Restart), t);
      RestartAllStates(s1, q[1..]);
      var r := RestartAll(s, q);
      assert r == RestartAll(s1, q[1..]);
      forall u | u in s.threads
        ensures r.threads[u] == if u in q then s.threads[u].(state := Restart) else s.threads[u]
      {
        assert u in q <==> u == t || u in q[1..];
      }
    }
  }

  /** After `RestartAll` the ready threads are those ready before plus the threads of `q`. */
  lemma {:induction false} RestartAllReady(s: Sys, q: seq<nat>)
    requires SchedOk(s) && forall u :: u in q ==> u in s.threads
    ensures forall u :: u in RestartAll(s, q).ready.queued <==> u in s.ready.queued || u in q
    decreases |q|
  {
    if q != [] {
      var t := q[0];
      var s1 := Enqueue(SetState(s, t, Restart), t);
      RestartAllReady(s1, q[1..]);
      var r := RestartAll(s, q);
      assert r == RestartAll(s1, q[1..]);
      forall u ensures u in r.ready.queued <==> u in s.ready.queued || u in q {
        assert u in q <==> u == t || u in q[1..];
      }
    }
  }
}
