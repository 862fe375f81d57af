/**
 * The state the seL4 scheduler and IPC paths work on (non-MCS kernel, one
 * core): the thread control blocks, the ready queues, the scheduler action
 * `ksSchedulerAction`, the current and idle threads, the domain schedule,
 * and the endpoint and notification objects.  Threads, endpoints and
 * notifications are named by numbers standing for their kernel pointers.
 *
 * Two invariants are kept apart because different paths maintain them:
 * `SchedOk` ties the ready queues to the threads' domains and priorities;
 * `IpcOk` ties the endpoint and notification queues to the threads'
 * blocking states, and the notification bindings to both sides.
 */
module KernelState {
  import opened Wrappers
  import opened Sel4Words
  import opened ReadyQueues

  /** `_thread_state`, with the fields `thread_state_t` carries for each blocking kind. */
  datatype ThreadState =
    | Inactive
    | Running
    | Restart
    | IdleThreadState
    | BlockedOnReply
    | BlockedOnReceive(ep: nat, canGrant: bool)
    | BlockedOnSend(ep: nat, badge: Word, canGrant: bool, canGrantReply: bool, isCall: bool)
    | BlockedOnNotification(ntfn: nat)

  /** `isRunnable`: the thread may be picked to run. */
  predicate IsRunnable(ts: ThreadState)
  {
    ts.Running? || ts.Restart?
  }

  /** `isStopped`: inactive or waiting for some object. */
  predicate IsStopped(ts: ThreadState)
  {
    ts.Inactive? || ts.BlockedOnReceive? || ts.BlockedOnSend? || ts.BlockedOnNotification? || ts.BlockedOnReply?
  }

  /** The states in which a thread sits in an endpoint or notification queue. */
  predicate IsQueuedState(ts: ThreadState)
  {
    ts.BlockedOnSend? || ts.BlockedOnReceive? || ts.BlockedOnNotification?
  }

  /** The reply capability in a thread's `tcbCaller` slot: whom a reply goes to, and with what grant right. */
  datatype Caller = Caller(tcb: nat, canGrant: bool)

  /**
   * The parts of `tcb_t` the scheduler and IPC paths read or write; the
   * badge register is the only message register kept.
   */
  datatype Tcb = Tcb(state: ThreadState, domain: nat, priority: nat, mcp: nat, timeSlice: nat,
                     boundNtfn: Option<nat>, badgeReg: Word, caller: Option<Caller>)

  /** `ksSchedulerAction`: resume the current thread, choose anew, or a candidate thread. */
  datatype Action = ResumeCurrent | ChooseNew | SwitchTo(target: nat)

  datatype EpState = EpIdle | EpSend | EpRecv

  /** `endpoint_t`: its state and the queue from `epQueue_head` to `epQueue_tail`. */
  datatype Endpoint = Endpoint(state: EpState, queue: seq<nat>)

  datatype NtfnState = NtfnIdle | NtfnWaiting | NtfnActive

  /** `notification_t`: state, waiting queue, `ntfnMsgIdentifier` and `ntfnBoundTCB`. */
  datatype Notification = Notification(state: NtfnState, queue: seq<nat>, msg: Word, bound: Option<nat>)

  /** One entry of `ksDomSchedule`. */
  datatype DomEntry = DomEntry(domain: nat, length: Word)

  datatype Sys = Sys(threads: map<nat, Tcb>, ready: Ready, action: Action, cur: nat, idle: nat,
                     curDomain: nat, domainTime: Word, domIdx: nat, domSchedule: seq<DomEntry>, workUnits: nat,
                     endpoints: map<nat, Endpoint>, ntfns: map<nat, Notification>)

  /** The ready queue a thread belongs in. */
  function SlotOf(t: Tcb): Slot { Slot(t.domain, t.priority) }

  // ---------------------------------------------------------------------
  // The scheduler's invariant

  /** The domain schedule is non-empty, its index in range, and it names existing domains. */
  ghost predicate DomainsOk(domains: nat, curDomain: nat, domIdx: nat, sched: seq<DomEntry>)
  {
    domains >= 1 && curDomain < domains && |sched| > 0 && domIdx < |sched|
    && forall i :: 0 <= i < |sched| ==> sched[i].domain < domains
  }

  /** Every thread has a domain and priority that name a ready queue. */
  ghost predicate ThreadsOk(threads: map<nat, Tcb>, rq: Ready)
  {
    forall t :: t in threads ==> InRange(rq, SlotOf(threads[t]))
  }

  /** A queued thread exists and sits in the queue of its own domain and priority. */
  ghost predicate QueuedOk(threads: map<nat, Tcb>, rq: Ready)
  {
    forall t :: t in rq.queued ==> t in threads && rq.queued[t] == SlotOf(threads[t])
  }

  /** The ready queues are consistent and agree with the threads' domains and priorities. */
  ghost predicate QueuesOk(threads: map<nat, Tcb>, rq: Ready)
  {
    ReadyOk(rq) && ThreadsOk(threads, rq) && QueuedOk(threads, rq)
  }

  ghost predicate SchedOk(s: Sys)
  {
    QueuesOk(s.threads, s.ready) && DomainsOk(|s.ready.queues|, s.curDomain, s.domIdx, s.domSchedule)
    && s.cur in s.threads && s.idle in s.threads
    && (s.action.SwitchTo? ==> s.action.target in s.threads)
  }

  /** The threads the scheduler will consider: the queued ones and the candidate. */
  ghost predicate Visible(s: Sys, t: nat)
  {
    t in s.ready.queued || s.action == SwitchTo(t)
  }

  // ---------------------------------------------------------------------
  // The IPC invariant

  /** The thread state that belongs with a place in a queue of endpoint `e` in state `st`. */
  predicate WaitsOnEndpoint(ts: ThreadState, e: nat, st: EpState)
  {
    (st == EpSend ==> ts.BlockedOnSend? && ts.ep == e)
    && (st == EpRecv ==> ts.BlockedOnReceive? && ts.ep == e)
  }

  /** An endpoint is idle exactly when nobody waits, and every waiter is blocked on it the matching way. */
  ghost predicate EndpointOk(threads: map<nat, Tcb>, e: nat, ep: Endpoint)
  {
    (ep.state == EpIdle <==> ep.queue == []) && Distinct(ep.queue)
    && forall t :: t in ep.queue ==> t in threads && WaitsOnEndpoint(threads[t].state, e, ep.state)
  }

  /** A notification has waiters exactly when it is `Waiting`, and they are blocked on it. */
  ghost predicate NotificationOk(threads: map<nat, Tcb>, n: nat, nt: Notification)
  {
    (nt.state == NtfnWaiting <==> nt.queue != []) && Distinct(nt.queue)
    && forall t :: t in nt.queue ==> t in threads && threads[t].state == BlockedOnNotification(n)
  }

  /** A binding between a thread and a notification is recorded on both sides. */
  ghost predicate BindingsOk(threads: map<nat, Tcb>, ntfns: map<nat, Notification>)
  {
    (forall n :: n in ntfns && ntfns[n].bound.Some? ==>
       ntfns[n].bound.value in threads && threads[ntfns[n].bound.value].boundNtfn == Some(n))
    && (forall t :: t in threads && threads[t].boundNtfn.Some? ==>
       threads[t].boundNtfn.value in ntfns && ntfns[threads[t].boundNtfn.value].bound == Some(t))
  }

  /** A blocked thread waits in the queue of the object it is blocked on. */
  predicate QueuedWhereBlocked(ts: ThreadState, t: nat, eps: map<nat, Endpoint>, ntfns: map<nat, Notification>)
  {
    ((ts.BlockedOnSend? || ts.BlockedOnReceive?) ==> ts.ep in eps && t in eps[ts.ep].queue)
    && (ts.BlockedOnNotification? ==> ts.ntfn in ntfns && t in ntfns[ts.ntfn].queue)
  }

  ghost predicate BlockersQueued(threads: map<nat, Tcb>, eps: map<nat, Endpoint>, ntfns: map<nat, Notification>)
  {
    forall t :: t in threads ==> QueuedWhereBlocked(threads[t].state, t, eps, ntfns)
  }

  ghost predicate EndpointsOk(threads: map<nat, Tcb>, eps: map<nat, Endpoint>)
  {
    forall e :: e in eps ==> EndpointOk(threads, e, eps[e])
  }

  ghost predicate NotificationsOk(threads: map<nat, Tcb>, ntfns: map<nat, Notification>)
  {
    forall n :: n in ntfns ==> NotificationOk(threads, n, ntfns[n])
  }

  ghost predicate IpcOk(s: Sys)
  {
    EndpointsOk(s.threads, s.endpoints) && NotificationsOk(s.threads, s.ntfns) && BindingsOk(s.threads, s.ntfns)
    && BlockersQueued(s.threads, s.endpoints, s.ntfns)
  }

  /** Thread `t` waits in no endpoint or notification queue. */
  ghost predicate InNoQueue(s: Sys, t: nat)
  {
    (forall e :: e in s.endpoints ==> t !in s.endpoints[e].queue)
    && (forall n :: n in s.ntfns ==> t !in s.ntfns[n].queue)
  }

  /** A thread that is not blocked on an object waits in no queue. */
  lemma NotBlockedInNoQueue(s: Sys, t: nat)
    requires IpcOk(s) && t in s.threads && !IsQueuedState(s.threads[t].state)
    ensures InNoQueue(s, t)
  {
    forall e | e in s.endpoints ensures t !in s.endpoints[e].queue {
      assert EndpointOk(s.threads, e, s.endpoints[e]);
    }
    forall n | n in s.ntfns ensures t !in s.ntfns[n].queue {
      assert NotificationOk(s.threads, n, s.ntfns[n]);
    }
  }

  // ---------------------------------------------------------------------
  // Primitive updates

  /** `SCHED_ENQUEUE(t)`: `tcbSchedEnqueue` with the thread's own domain and priority. */
  function Enqueue(s: Sys, t: nat): (r: Sys)
    requires SchedOk(s) && t in s.threads
    ensures SchedOk(r) && r == s.(ready := r.ready) && Domains(r.ready) == Domains(s.ready)
    ensures t in r.ready.queued
    ensures forall u :: u in r.ready.queued <==> u in s.ready.queued || u == t
    ensures t !in s.ready.queued ==>
      r.ready.queues[s.threads[t].domain][s.threads[t].priority] == [t] + s.ready.queues[s.threads[t].domain][s.threads[t].priority]
    ensures t in s.ready.queued ==> r == s
  {
    var rq := SchedEnqueue(s.ready, t, s.threads[t].domain, s.threads[t].priority);
    NewReadyKeepsSchedOk(s, rq);
    s.(ready := rq)
  }

  /** `SCHED_APPEND(t)`: `tcbSchedAppend` with the thread's own domain and priority. */
  function Append(s: Sys, t: nat): (r: Sys)
    requires SchedOk(s) && t in s.threads
    ensures SchedOk(r) && r == s.(ready := r.ready) && Domains(r.ready) == Domains(s.ready)
    ensures t in r.ready.queued
    ensures forall u :: u in r.ready.queued <==> u in s.ready.queued || u == t
    ensures t !in s.ready.queued ==>
      r.ready.queues[s.threads[t].domain][s.threads[t].priority] == s.ready.queues[s.threads[t].domain][s.threads[t].priority] + [t]
    ensures t in s.ready.queued ==> r == s
  {
    var rq := SchedAppend(s.ready, t, s.threads[t].domain, s.threads[t].priority);
    NewReadyKeepsSchedOk(s, rq);
    s.(ready := rq)
  }

  /** `tcbSchedDequeue(t)`. */
  function Dequeue(s: Sys, t: nat): (r: Sys)
    requires SchedOk(s) && t in s.threads
    ensures SchedOk(r) && r == s.(ready := r.ready) && Domains(r.ready) == Domains(s.ready)
    ensures t !in r.ready.queued
    ensures forall u :: u in r.ready.queued <==> u in s.ready.queued && u != t
    ensures t !in s.ready.queued ==> r == s
  {
    var rq := SchedDequeue(s.ready, t, s.threads[t].domain, s.threads[t].priority);
    NewReadyKeepsSchedOk(s, rq);
    s.(ready := rq)
  }

  /** Ready queues that keep every thread in the queue of its own domain and priority keep the scheduler's invariant. */
  lemma NewReadyKeepsSchedOk(s: Sys, rq: Ready)
    requires SchedOk(s) && ReadyOk(rq) && |rq.queues| == |s.ready.queues|
    requires forall u :: u in rq.queued ==> u in s.threads && rq.queued[u] == SlotOf(s.threads[u])
    ensures SchedOk(s.(ready := rq))
  {
  }

  /** The thread table with `t`'s state replaced. */
  function WithState(threads: map<nat, Tcb>, t: nat, ts: ThreadState): (r: map<nat, Tcb>)
    requires t in threads
    ensures r.Keys == threads.Keys && r[t].state == ts
    ensures forall u :: u in threads ==> SlotOf(r[u]) == SlotOf(threads[u]) && r[u].boundNtfn == threads[u].boundNtfn
    ensures forall u :: u in threads && u != t ==> r[u] == threads[u]
  {
    threads[t := threads[t].(state := ts)]
  }

  /** `thread_state_ptr_set_tsType` without the scheduling check that `setThreadState` adds. */
  function SetState(s: Sys, t: nat, ts: ThreadState): (r: Sys)
    requires SchedOk(s) && t in s.threads
    ensures SchedOk(r) && r == s.(threads := r.threads)
    ensures r.threads == WithState(s.threads, t, ts)
    ensures InNoQueue(s, t) && !IsQueuedState(ts) && IpcOk(s) ==> IpcOk(r)
  {
    var r := s.(threads := WithState(s.threads, t, ts));
    assert ThreadsOk(r.threads, r.ready) && QueuedOk(r.threads, r.ready);
    StateOfUnqueuedThread(s, t, ts, r);
    r
  }

  /** Changing the state of a thread that waits in no queue to one that needs no queue keeps every queue consistent. */
  lemma StateOfUnqueuedThread(s: Sys, t: nat, ts: ThreadState, r: Sys)
    requires t in s.threads && r == s.(threads := WithState(s.threads, t, ts))
    ensures IpcOk(s) && InNoQueue(s, t) && !IsQueuedState(ts) ==> IpcOk(r)
  {
    if IpcOk(s) && InNoQueue(s, t) && !IsQueuedState(ts) {
      forall e | e in r.endpoints ensures EndpointOk(r.threads, e, r.endpoints[e]) {
        assert EndpointOk(s.threads, e, s.endpoints[e]);
      }
      forall n | n in r.ntfns ensures NotificationOk(r.threads, n, r.ntfns[n]) {
        assert NotificationOk(s.threads, n, s.ntfns[n]);
      }
      forall u | u in r.threads ensures QueuedWhereBlocked(r.threads[u].state, u, r.endpoints, r.ntfns) {
        assert u != t ==> QueuedWhereBlocked(s.threads[u].state, u, s.endpoints, s.ntfns);
      }
    }
  }

  /** Changes to threads that keep every state and binding, with the objects untouched, keep every queue consistent. */
  lemma SameStatesKeepIpcOk(s: Sys, r: Sys)
    requires r.endpoints == s.endpoints && r.ntfns == s.ntfns && r.threads.Keys == s.threads.Keys
    requires forall u :: u in s.threads ==> r.threads[u].state == s.threads[u].state && r.threads[u].boundNtfn == s.threads[u].boundNtfn
    ensures IpcOk(s) ==> IpcOk(r)
  {
    if IpcOk(s) {
      forall e | e in r.endpoints ensures EndpointOk(r.threads, e, r.endpoints[e]) {
        assert EndpointOk(s.threads, e, s.endpoints[e]);
      }
      forall n | n in r.ntfns ensures NotificationOk(r.threads, n, r.ntfns[n]) {
        assert NotificationOk(s.threads, n, s.ntfns[n]);
      }
      forall u | u in r.threads ensures QueuedWhereBlocked(r.threads[u].state, u, r.endpoints, r.ntfns) {
        assert QueuedWhereBlocked(s.threads[u].state, u, s.endpoints, s.ntfns);
      }
    }
  }

  /** `setRegister(t, badgeRegister, w)`. */
  function SetBadgeReg(s: Sys, t: nat, w: Word): (r: Sys)
    requires SchedOk(s) && t in s.threads
    ensures SchedOk(r) && r == s.(threads := r.threads) && r.threads.Keys == s.threads.Keys
    ensures r.threads[t] == s.threads[t].(badgeReg := w)
    ensures forall u :: u in s.threads && u != t ==> r.threads[u] == s.threads[u]
    ensures IpcOk(s) ==> IpcOk(r)
  {
    var r := s.(threads := s.threads[t := s.threads[t].(badgeReg := w)]);
    assert ThreadsOk(r.threads, r.ready) && QueuedOk(r.threads, r.ready);
    SameStatesKeepIpcOk(s, r);
    r
  }
}
