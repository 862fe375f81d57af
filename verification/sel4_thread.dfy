/**
 * The scheduler decisions of `thread.c` (non-MCS): `rescheduleRequired`,
 * `scheduleTCB`, `setThreadState`, `possibleSwitchTo`, `nextDomain`,
 * `chooseThread`, `switchToThread`, `schedule`, `timerTick` and
 * `activateThread`.  The architecture's part of a switch (address-space
 * change, restart PC) is not modelled; what remains is which thread runs,
 * which threads wait in the ready queues, and the scheduler action.
 */
module Sel4Scheduler {
  import opened Wrappers
  import opened Sel4Words
  import opened Sel4Errors
  import opened ReadyQueues
  import opened KernelState

  /** `CONFIG_TIME_SLICE`, the kernel's default configuration. */
  const TIME_SLICE: nat := 5
  /** The largest `word_t`; `ksDomainTime` wraps to it when decremented at 0. */
  const WORD_MAX: Word := 0xFFFF_FFFF_FFFF_FFFF

  /**
   * `rescheduleRequired`: a pending candidate goes back to the head of its
   * ready queue, and the scheduler must choose anew.  No thread the
   * scheduler could pick is lost, and none is added.
   */
  function RescheduleRequired(s: Sys): (r: Sys)
    requires SchedOk(s)
    ensures SchedOk(r) && r == s.(ready := r.ready, action := ChooseNew)
    ensures forall u :: Visible(s, u) <==> u in r.ready.queued
    ensures !s.action.SwitchTo? ==> r.ready == s.ready
  {
    var s1 := if s.action.SwitchTo? then Enqueue(s, s.action.target) else s;
    s1.(action := ChooseNew)
  }

  /**
   * `scheduleTCB`: if the current thread, about to be resumed, can no
   * longer run, the scheduler must choose anew.  Afterwards the scheduler
   * never resumes a current thread that cannot run.
   */
  function ScheduleTcb(s: Sys, t: nat): (r: Sys)
    requires SchedOk(s) && t in s.threads
    ensures SchedOk(r) && r == s.(ready := r.ready, action := r.action)
    ensures r.action == ResumeCurrent ==> s.action == ResumeCurrent && (t == s.cur ==> IsRunnable(s.threads[t].state))
    ensures (t != s.cur || s.action != ResumeCurrent || IsRunnable(s.threads[t].state)) ==> r == s
    ensures forall u :: Visible(s, u) <==> Visible(r, u)
  {
    if t == s.cur && s.action == ResumeCurrent && !IsRunnable(s.threads[t].state) then RescheduleRequired(s)
    else s
  }

  /** `setThreadState`: the new state, then `scheduleTCB`. */
  function SetThreadState(s: Sys, t: nat, ts: ThreadState): (r: Sys)
    requires SchedOk(s) && t in s.threads
    ensures SchedOk(r) && r == s.(threads := r.threads, ready := r.ready, action := r.action)
    ensures r.threads == WithState(s.threads, t, ts)
    ensures r.action == ResumeCurrent ==> s.action == ResumeCurrent && (t == s.cur ==> IsRunnable(ts))
    ensures (t != s.cur || s.action != ResumeCurrent || IsRunnable(ts)) ==> r == s.(threads := r.threads)
    ensures forall u :: Visible(s, u) <==> Visible(r, u)
    ensures InNoQueue(s, t) && !IsQueuedState(ts) && IpcOk(s) ==> IpcOk(r)
  {
    ScheduleTcb(SetState(s, t, ts), t)
  }

  /** The candidate, if any, belongs to the current domain. */
  ghost predicate CandidateInDomain(s: Sys)
  {
    s.action.SwitchTo? && s.action.target in s.threads ==> s.threads[s.action.target].domain == s.curDomain
  }

  /**
   * `possibleSwitchTo`: a thread of another domain is only queued; if a
   * decision is already pending the thread is queued behind it; otherwise
   * it becomes the candidate.  Either way the scheduler will consider it,
   * and every thread it considered before.
   */
  function PossibleSwitchTo(s: Sys, t: nat): (r: Sys)
    requires SchedOk(s) && t in s.threads
    ensures SchedOk(r) && r == s.(ready := r.ready, action := r.action)
    ensures forall u :: Visible(r, u) <==> Visible(s, u) || u == t
    ensures s.threads[t].domain == s.curDomain && s.action == ResumeCurrent ==> r == s.(action := SwitchTo(t))
    ensures !(s.threads[t].domain == s.curDomain && s.action == ResumeCurrent) ==> t in r.ready.queued
    ensures CandidateInDomain(s) ==> CandidateInDomain(r)
  {
    if s.curDomain != s.threads[t].domain then Enqueue(s, t)
    else if s.action != ResumeCurrent then Enqueue(RescheduleRequired(s), t)
    else s.(action := SwitchTo(t))
  }

  // ---------------------------------------------------------------------
  // Domains

  /** `nextDomain`: the next entry of the domain schedule, cyclically, with fresh work units and time. */
  function NextDomain(s: Sys): (r: Sys)
    requires SchedOk(s)
    ensures SchedOk(r) && r == s.(domIdx := r.domIdx, workUnits := 0, curDomain := r.curDomain, domainTime := r.domainTime)
    ensures r.domIdx == (s.domIdx + 1) % |s.domSchedule|
    ensures r.curDomain == s.domSchedule[r.domIdx].domain && r.domainTime == s.domSchedule[r.domIdx].length
  {
    ModStep(s.domIdx, |s.domSchedule|);
    var i := if s.domIdx + 1 >= |s.domSchedule| then 0 else s.domIdx + 1;
    s.(domIdx := i, workUnits := 0, curDomain := s.domSchedule[i].domain, domainTime := s.domSchedule[i].length)
  }

  /** `n` domain switches in a row. */
  function NextDomainN(s: Sys, n: nat): (r: Sys)
    requires SchedOk(s)
    ensures SchedOk(r) && r.domSchedule == s.domSchedule && r.threads == s.threads && r.ready == s.ready
  {
    if n == 0 then s else NextDomain(NextDomainN(s, n - 1))
  }

  /** One step of the index, modulo the schedule's length. */
  lemma ModStep(a: nat, m: nat)
    requires a < m
    ensures (a + 1) % m == if a + 1 < m then a + 1 else 0
  {
  }

  /**
   * The domain schedule is walked cyclically: within one round, `n`
   * switches advance the index by `n`, wrapping once past the end.
   */
  lemma {:induction false} DomainScheduleCycles(s: Sys, n: nat)
    requires SchedOk(s) && n <= |s.domSchedule|
    ensures NextDomainN(s, n).domIdx == if s.domIdx + n < |s.domSchedule| then s.domIdx + n else s.domIdx + n - |s.domSchedule|
  {
    if n > 0 {
      DomainScheduleCycles(s, n - 1);
      var p := NextDomainN(s, n - 1);
      ModStep(p.domIdx, |s.domSchedule|);
    }
  }

  /** A full round of the schedule comes back to the entry it started from. */
  lemma FullRoundReturns(s: Sys)
    requires SchedOk(s)
    ensures NextDomainN(s, |s.domSchedule|).domIdx == s.domIdx
  {
    DomainScheduleCycles(s, |s.domSchedule|);
  }

  // ---------------------------------------------------------------------
  // Choosing a thread

  /** `CONFIG_NUM_DOMAINS > 1 ? ksCurDomain : 0`. */
  function ChosenDomain(s: Sys): nat
  {
    if Domains(s.ready) > 1 then s.curDomain else 0
  }

  /** With a single domain the current domain is 0, so the choice is always made in the current domain. */
  lemma ChosenIsCurrent(s: Sys)
    requires SchedOk(s)
    ensures ChosenDomain(s) == s.curDomain
  {
  }

  /** No thread of domain `d` is ready. */
  ghost predicate NoneReady(s: Sys, d: nat)
    requires Shape(s.ready) && d < |s.ready.queues|
  {
    forall p :: 0 <= p < NUM_PRIORITIES ==> s.ready.queues[d][p] == []
  }

  /** `switchToThread`: the thread leaves its ready queue and becomes current. */
  function SwitchToThread(s: Sys, t: nat): (r: Sys)
    requires SchedOk(s) && t in s.threads
    ensures SchedOk(r) && r == s.(ready := r.ready, cur := t) && Domains(r.ready) == Domains(s.ready)
    ensures forall u :: u in r.ready.queued <==> u in s.ready.queued && u != t
  {
    Dequeue(s, t).(cur := t)
  }

  /** `switchToIdleThread`. */
  function SwitchToIdleThread(s: Sys): (r: Sys)
    requires SchedOk(s)
    ensures SchedOk(r) && r == s.(cur := s.idle)
  {
    s.(cur := s.idle)
  }

  /**
   * `r` runs the best thread `s` had ready in the chosen domain: the idle
   * thread when there was none, and otherwise the head of the highest
   * non-empty queue, which has left the queues.
   */
  ghost predicate ChoseBest(s: Sys, r: Sys)
    requires SchedOk(s)
  {
    var d := ChosenDomain(s);
    if NoneReady(s, d) then r.cur == s.idle && r.ready == s.ready
    else
      && r.cur in s.ready.queued && s.ready.queued[r.cur].dom == d
      && s.ready.queues[d][s.ready.queued[r.cur].prio] != [] && s.ready.queues[d][s.ready.queued[r.cur].prio][0] == r.cur
      && (forall p :: s.ready.queued[r.cur].prio < p < NUM_PRIORITIES ==> s.ready.queues[d][p] == [])
      && (forall u :: u in r.ready.queued <==> u in s.ready.queued && u != r.cur)
  }

  /** `chooseThread`: the bitmap's highest priority picks the queue whose head runs; the idle thread runs when the level-1 word is 0. */
  function ChooseThread(s: Sys): (r: Sys)
    requires SchedOk(s)
    ensures SchedOk(r) && r == s.(ready := r.ready, cur := r.cur) && Domains(r.ready) == Domains(s.ready)
  {
    var dom := ChosenDomain(s);
    if s.ready.l1[dom] != {} then
      HighestPrioIsHighest(s.ready, dom);
      var prio := HighestPrio(s.ready, dom);
      var t := s.ready.queues[dom][prio][0];
      assert ListedAt(s.ready, dom, prio);
      SwitchToThread(s, t)
    else
      SwitchToIdleThread(s)
  }

  /** `chooseThread` runs the best thread ready in the chosen domain, or the idle thread when there is none. */
  lemma ChooseThreadChoosesBest(s: Sys)
    requires SchedOk(s)
    ensures ChoseBest(s, ChooseThread(s))
  {
    var dom := ChosenDomain(s);
    EmptyL1MeansNoneReady(s.ready, dom);
    if s.ready.l1[dom] != {} {
      HighestPrioIsHighest(s.ready, dom);
      assert ListedAt(s.ready, dom, HighestPrio(s.ready, dom));
    }
  }

  /** `scheduleChooseNewThread`: a domain whose time is used up is left first. */
  function ScheduleChooseNewThread(s: Sys): (r: Sys)
    requires SchedOk(s)
    ensures SchedOk(r) && r.threads == s.threads && r.action == s.action && r.idle == s.idle
    ensures Domains(r.ready) == Domains(s.ready)
    ensures r.endpoints == s.endpoints && r.ntfns == s.ntfns && r.domSchedule == s.domSchedule
  {
    ChooseThread(if s.domainTime == 0 then NextDomain(s) else s)
  }

  /** Choosing anew moves to the next domain exactly when the current one's time is used up, then chooses the best thread there. */
  lemma ChooseNewThreadDomain(s: Sys)
    requires SchedOk(s)
    ensures var r := ScheduleChooseNewThread(s);
      && (s.domainTime == 0 ==> r.domIdx == (s.domIdx + 1) % |s.domSchedule| && r.curDomain == s.domSchedule[r.domIdx].domain)
      && (s.domainTime != 0 ==> r.domIdx == s.domIdx && r.curDomain == s.curDomain)
      && ChoseBest(if s.domainTime == 0 then NextDomain(s) else s, r)
  {
    ChooseThreadChoosesBest(if s.domainTime == 0 then NextDomain(s) else s);
  }

  /** No ready thread of the current domain outranks the current thread. */
  ghost predicate RunsBest(r: Sys)
    requires SchedOk(r)
  {
    forall p :: r.threads[r.cur].priority < p < NUM_PRIORITIES ==> r.ready.queues[r.curDomain][p] == []
  }

  /** A best choice leaves no ready thread above the chosen one. */
  lemma ChoseBestRunsBest(s: Sys, r: Sys)
    requires SchedOk(s) && SchedOk(r) && ChoseBest(s, r) && r.threads == s.threads && r.curDomain == s.curDomain
    requires Domains(r.ready) == Domains(s.ready)
    ensures RunsBest(r)
  {
    ChosenIsCurrent(s);
    var d := s.curDomain;
    if !NoneReady(s, d) {
      forall p | r.threads[r.cur].priority < p < NUM_PRIORITIES ensures r.ready.queues[d][p] == [] {
        ShrunkQueueStaysEmpty(s, r, d, p);
      }
    }
  }

  /** Ready queues that only lost threads have no thread where there was none. */
  lemma ShrunkQueueStaysEmpty(s: Sys, r: Sys, d: nat, p: nat)
    requires SchedOk(s) && SchedOk(r) && r.threads == s.threads
    requires forall u :: u in r.ready.queued ==> u in s.ready.queued
    requires |r.ready.queues| == |s.ready.queues| && d < |s.ready.queues| && p < NUM_PRIORITIES
    ensures s.ready.queues[d][p] == [] ==> r.ready.queues[d][p] == []
  {
    assert ListedAt(r.ready, d, p);
    var q := r.ready.queues[d][p];
    if q != [] {
      var u := q[0];
      assert u in r.ready.queued && r.ready.queued[u] == Slot(d, p);
      assert s.ready.queued[u] == SlotOf(s.threads[u]) == Slot(d, p);
      assert u in s.ready.queues[d][p];
    }
  }

  /** What choosing anew guarantees, whichever domain it ends in. */
  lemma ChooseNewFacts(s: Sys, r: Sys)
    requires SchedOk(s) && r == ScheduleChooseNewThread(s)
    ensures RunsBest(r)
    ensures forall u :: u in s.ready.queued ==> u in r.ready.queued || u == r.cur
    ensures forall u :: u in r.ready.queued || u == r.cur ==> u in s.ready.queued || u == s.idle
    ensures s.idle !in s.ready.queued ==> r.cur !in r.ready.queued && s.idle !in r.ready.queued
  {
    var s1 := if s.domainTime == 0 then NextDomain(s) else s;
    ChooseNewThreadDomain(s);
    ChoseBestRunsBest(s1, r);
  }

  /** The idle thread is not queued, cannot run, and is never the candidate. */
  ghost predicate IdleOk(s: Sys)
  {
    s.idle in s.threads && s.idle !in s.ready.queued && !IsRunnable(s.threads[s.idle].state) && s.action != SwitchTo(s.idle)
  }

  /** The threads of `s` the scheduler would consider end up queued or running in `r`, and nothing else does but the idle thread. */
  ghost predicate KeepsConsidered(s: Sys, r: Sys)
  {
    (forall u :: Visible(s, u) ==> u in r.ready.queued || u == r.cur)
    && (forall u :: u in r.ready.queued || u == r.cur ==> Visible(s, u) || u == s.idle)
  }

  /** The candidate goes back to its queue, at the head or the end, and the scheduler chooses anew. */
  function ChooseAgain(s: Sys, atHead: bool): (r: Sys)
    requires SchedOk(s) && s.action.SwitchTo?
    ensures SchedOk(r) && r.threads == s.threads && r.idle == s.idle
    ensures r.endpoints == s.endpoints && r.ntfns == s.ntfns && r.domSchedule == s.domSchedule
  {
    var c := s.action.target;
    ScheduleChooseNewThread((if atHead then Enqueue(s, c) else Append(s, c)).(action := ChooseNew))
  }

  /** Putting the candidate back and choosing anew keeps every considered thread and runs one no ready thread outranks. */
  lemma ChooseAgainFacts(s: Sys, atHead: bool)
    requires SchedOk(s) && s.action.SwitchTo?
    ensures var r := ChooseAgain(s, atHead);
      KeepsConsidered(s, r) && RunsBest(r) && (IdleOk(s) ==> r.cur !in r.ready.queued && r.idle !in r.ready.queued)
  {
    var c := s.action.target;
    var s1 := (if atHead then Enqueue(s, c) else Append(s, c)).(action := ChooseNew);
    ChooseNewFacts(s1, ScheduleChooseNewThread(s1));
  }

  /**
   * The candidate branch of `schedule`.  A candidate that is not the best
   * choice while the current thread is idle or outranks it goes back to
   * its queue; one of the current thread's own priority queues up behind
   * it; in both cases the scheduler chooses anew.  Otherwise the candidate
   * runs at once.
   */
  function ScheduleCandidate(s: Sys, wasRunnable: bool): (r: Sys)
    requires SchedOk(s) && s.action.SwitchTo?
    ensures SchedOk(r) && r.threads == s.threads && r.idle == s.idle
    ensures r.endpoints == s.endpoints && r.ntfns == s.ntfns && r.domSchedule == s.domSchedule
  {
    var c := s.action.target;
    var fastfail := s.cur == s.idle || s.threads[c].priority < s.threads[s.cur].priority;
    if fastfail && !IsHighestPrio(s.ready, s.curDomain, s.threads[c].priority) then ChooseAgain(s, true)
    else if wasRunnable && s.threads[c].priority == s.threads[s.cur].priority then ChooseAgain(s, false)
    else SwitchToThread(s, c)
  }

  /**
   * The candidate runs only if no ready thread outranks it, or if the
   * current thread was not idle and does not outrank it; otherwise the
   * thread that runs is one no ready thread outranks.  Either way no
   * considered thread is lost.
   */
  lemma CandidateFacts(s: Sys, wasRunnable: bool)
    requires SchedOk(s) && s.action.SwitchTo?
    ensures var r := ScheduleCandidate(s, wasRunnable);
      && KeepsConsidered(s, r)
      && (RunsBest(r) || (r.cur == s.action.target && s.cur != s.idle && s.threads[s.cur].priority <= s.threads[r.cur].priority))
      && (IdleOk(s) ==> r.cur !in r.ready.queued && r.idle !in r.ready.queued)
  {
    var c := s.action.target;
    var fastfail := s.cur == s.idle || s.threads[c].priority < s.threads[s.cur].priority;
    if fastfail && !IsHighestPrio(s.ready, s.curDomain, s.threads[c].priority) {
      ChooseAgainFacts(s, true);
    } else if wasRunnable && s.threads[c].priority == s.threads[s.cur].priority {
      ChooseAgainFacts(s, false);
    } else {
      IsHighestPrioMeansNoneAbove(s.ready, s.curDomain, s.threads[c].priority);
      CandidateRuns(s, SwitchToThread(s, c), c, fastfail);
    }
  }

  /** The candidate that runs at once outranks every ready thread, or the current thread was not idle and did not outrank it. */
  lemma CandidateRuns(s: Sys, r: Sys, c: nat, fastfail: bool)
    requires SchedOk(s) && c in s.threads && r == SwitchToThread(s, c)
    requires fastfail == (s.cur == s.idle || s.threads[c].priority < s.threads[s.cur].priority)
    requires fastfail ==> forall p :: s.threads[c].priority < p < NUM_PRIORITIES ==> s.ready.queues[s.curDomain][p] == []
    ensures RunsBest(r) || (s.cur != s.idle && s.threads[s.cur].priority <= s.threads[c].priority)
  {
    if fastfail {
      forall p | s.threads[c].priority < p < NUM_PRIORITIES ensures r.ready.queues[r.curDomain][p] == [] {
        ShrunkQueueStaysEmpty(s, r.(cur := s.cur), s.curDomain, p);
      }
    }
  }

  /**
   * `schedule`: a pending decision is carried out and the action reset to
   * `ResumeCurrentThread`; a runnable current thread first goes back to
   * the head of its queue.
   */
  function Schedule(s: Sys): (r: Sys)
    requires SchedOk(s)
    ensures SchedOk(r) && r.action == ResumeCurrent && r.threads == s.threads && r.idle == s.idle
    ensures r.endpoints == s.endpoints && r.ntfns == s.ntfns && r.domSchedule == s.domSchedule
    ensures s.action == ResumeCurrent ==> r == s
  {
    if s.action == ResumeCurrent then s
    else
      var w := IsRunnable(s.threads[s.cur].state);
      ScheduleAfterRequeue(if w then Enqueue(s, s.cur) else s, w).(action := ResumeCurrent)
  }

  /**
   * What `schedule` guarantees: no thread that could run is lost and none
   * is invented; a fresh choice runs a thread no ready thread of the
   * domain outranks, and a candidate runs only if it is such a thread or
   * the current thread was not idle and does not outrank it; the running
   * thread is not also queued.
   */
  lemma ScheduleFacts(s: Sys)
    requires SchedOk(s) && s.action != ResumeCurrent
    ensures var r := Schedule(s);
      && (forall u :: Visible(s, u) || (u == s.cur && IsRunnable(s.threads[u].state)) ==> u in r.ready.queued || u == r.cur)
      && (forall u :: u in r.ready.queued || u == r.cur ==> Visible(s, u) || u == s.cur || u == s.idle)
      && (s.action == ChooseNew ==> RunsBest(r))
      && (s.action.SwitchTo? ==>
            RunsBest(r) || (r.cur == s.action.target && s.cur != s.idle && s.threads[s.cur].priority <= s.threads[r.cur].priority))
      && (IdleOk(s) ==> IdleOk(r) && r.cur !in r.ready.queued)
  {
    var w := IsRunnable(s.threads[s.cur].state);
    var s1 := if w then Enqueue(s, s.cur) else s;
    RequeueFacts(s);
    if s.action == ChooseNew {
      ChooseNewFacts(s1, ScheduleChooseNewThread(s1));
    } else {
      CandidateFacts(s1, w);
    }
  }

  /** The decision `schedule` carries out once the current thread is back in its queue. */
  function ScheduleAfterRequeue(s1: Sys, wasRunnable: bool): (r: Sys)
    requires SchedOk(s1) && s1.action != ResumeCurrent
    ensures SchedOk(r) && r.threads == s1.threads && r.idle == s1.idle
    ensures r.endpoints == s1.endpoints && r.ntfns == s1.ntfns && r.domSchedule == s1.domSchedule
  {
    if s1.action == ChooseNew then ScheduleChooseNewThread(s1) else ScheduleCandidate(s1, wasRunnable)
  }

  /** Requeueing a runnable current thread makes it considered and changes nothing else the scheduler looks at. */
  lemma RequeueFacts(s: Sys)
    requires SchedOk(s)
    ensures var w := IsRunnable(s.threads[s.cur].state);
      var s1 := if w then Enqueue(s, s.cur) else s;
      && s1.action == s.action && s1.cur == s.cur && s1.idle == s.idle && s1.threads == s.threads
      && (forall u :: Visible(s1, u) <==> Visible(s, u) || (u == s.cur && w))
      && (IdleOk(s) ==> IdleOk(s1))
  {
    if IsRunnable(s.threads[s.cur].state) {
      var s1 := Enqueue(s, s.cur);
      assert forall u :: u in s1.ready.queued <==> u in s.ready.queued || u == s.cur;
      assert s1.action == s.action && s1.cur == s.cur && s1.idle == s.idle && s1.threads == s.threads;
      assert forall u :: Visible(s1, u) <==> Visible(s, u) || u == s.cur;
      assert IdleOk(s) ==> IdleOk(s1);
    }
  }

  // ---------------------------------------------------------------------
  // The timer

  /** The current thread's remaining time slice replaced. */
  function SetSlice(s: Sys, n: nat): (r: Sys)
    requires SchedOk(s)
    ensures SchedOk(r) && r == s.(threads := r.threads)
    ensures r.threads == s.threads[s.cur := s.threads[s.cur].(timeSlice := n)]
    ensures IpcOk(s) ==> IpcOk(r)
  {
    var r := s.(threads := s.threads[s.cur := s.threads[s.cur].(timeSlice := n)]);
    assert ThreadsOk(r.threads, r.ready) && QueuedOk(r.threads, r.ready);
    SliceKeepsIpcOk(s, n, r);
    r
  }

  lemma SliceKeepsIpcOk(s: Sys, n: nat, r: Sys)
    requires s.cur in s.threads && r == s.(threads := s.threads[s.cur := s.threads[s.cur].(timeSlice := n)])
    ensures IpcOk(s) ==> IpcOk(r)
  {
    SameStatesKeepIpcOk(s, r);
  }

  /** The time-slice half of `timerTick`: a running thread uses up one tick, and at the end of its slice goes to the back of its queue. */
  function SliceTick(s: Sys): (r: Sys)
    requires SchedOk(s)
    ensures SchedOk(r) && r.cur == s.cur && r.curDomain == s.curDomain && r.domainTime == s.domainTime
    ensures r == s.(threads := r.threads, ready := r.ready, action := r.action)
    ensures r.threads == s.threads[s.cur := s.threads[s.cur].(timeSlice := r.threads[s.cur].timeSlice)]
    ensures s.threads[s.cur].state.Running? && s.threads[s.cur].timeSlice > 1 ==>
      r.threads[s.cur].timeSlice == s.threads[s.cur].timeSlice - 1
    ensures s.threads[s.cur].state.Running? && s.threads[s.cur].timeSlice <= 1 ==>
      r.threads[s.cur].timeSlice == TIME_SLICE && s.cur in r.ready.queued && r.action == ChooseNew
    ensures !s.threads[s.cur].state.Running? ==> r == s
    ensures forall u :: Visible(s, u) ==> Visible(r, u)
    ensures IpcOk(s) ==> IpcOk(r)
  {
    var t := s.threads[s.cur];
    if t.state.Running? then
      if t.timeSlice > 1 then SetSlice(s, t.timeSlice - 1)
      else RescheduleRequired(Append(SetSlice(s, TIME_SLICE), s.cur))
    else s
  }

  /** Decrement of a `word_t`: one less, except that 0 wraps to the largest word. */
  function WordDec(w: Word): (r: Word)
    ensures w != 0 ==> r < w && r + 1 == w
    ensures w == 0 ==> r == WORD_MAX
  {
    w - 1
  }

  /** The domain half of `timerTick`: `ksDomainTime` counts down as a `word_t`, and reaching 0 asks for a reschedule. */
  function DomainTick(s: Sys): (r: Sys)
    requires SchedOk(s)
    ensures SchedOk(r) && r == s.(ready := r.ready, action := r.action, domainTime := r.domainTime)
    ensures r.domainTime == WordDec(s.domainTime)
    ensures r.domainTime == 0 ==> r.action == ChooseNew
    ensures r.domainTime != 0 ==> r == s.(domainTime := r.domainTime)
    ensures forall u :: Visible(s, u) ==> Visible(r, u)
    ensures s.action == ChooseNew ==> r.ready == s.ready && r.action == ChooseNew
  {
    var s1 := s.(domainTime := WordDec(s.domainTime));
    if s1.domainTime == 0 then RescheduleRequired(s1) else s1
  }

  /**
   * `timerTick`: only the current thread's time slice, its place in the
   * ready queue, the domain time and the scheduler action change.  A
   * running thread loses one tick of its slice; on its last tick it gets
   * a fresh slice, goes to the back of its queue and a reschedule is
   * requested.  With more than one domain the domain time counts down and
   * reaching 0 requests a reschedule.
   */
  function TimerTick(s: Sys): (r: Sys)
    requires SchedOk(s)
    ensures SchedOk(r) && r.cur == s.cur && r.idle == s.idle && r.curDomain == s.curDomain
    ensures r == s.(threads := r.threads, ready := r.ready, action := r.action, domainTime := r.domainTime)
    ensures r.threads == s.threads[s.cur := s.threads[s.cur].(timeSlice := r.threads[s.cur].timeSlice)]
    ensures Domains(s.ready) > 1 ==> r.domainTime == WordDec(s.domainTime)
    ensures Domains(s.ready) > 1 && r.domainTime == 0 ==> r.action == ChooseNew
    ensures Domains(s.ready) == 1 ==> r.domainTime == s.domainTime
  {
    var s1 := SliceTick(s);
    if Domains(s.ready) > 1 then DomainTick(s1) else s1
  }

  /** A tick loses no thread the scheduler would consider and keeps the endpoint and notification queues consistent. */
  lemma TimerTickKeeps(s: Sys)
    requires SchedOk(s)
    ensures var r := TimerTick(s);
      (forall u :: Visible(s, u) ==> Visible(r, u)) && (IpcOk(s) ==> IpcOk(r))
  {
  }

  /**
   * The time-slice effect of a tick: a running thread loses one tick; on
   * its last tick it gets a fresh slice, waits at the back of its queue and
   * the scheduler must choose anew.  A thread that is not running keeps
   * its slice.
   */
  lemma TimerTickSlice(s: Sys)
    requires SchedOk(s)
    ensures var r := TimerTick(s);
      && (s.threads[s.cur].state.Running? && s.threads[s.cur].timeSlice > 1 ==>
            r.threads[s.cur].timeSlice == s.threads[s.cur].timeSlice - 1)
      && (s.threads[s.cur].state.Running? && s.threads[s.cur].timeSlice <= 1 ==>
            r.threads[s.cur].timeSlice == TIME_SLICE && s.cur in r.ready.queued && r.action == ChooseNew)
      && (!s.threads[s.cur].state.Running? ==> r.threads == s.threads)
  {
    var s1 := SliceTick(s);
    assert TimerTick(s) == if Domains(s.ready) > 1 then DomainTick(s1) else s1;
  }

  /** Thread `c` is the current thread, running, with `n` ticks left. */
  ghost predicate RunsWithSlice(s: Sys, c: nat, n: nat)
  {
    s.cur == c && c in s.threads && s.threads[c].state == Running && s.threads[c].timeSlice == n
  }

  /** Thread `c` has a fresh slice and waits in its ready queue, and the scheduler must choose anew. */
  ghost predicate SliceRenewed(s: Sys, c: nat)
  {
    c in s.threads && s.threads[c].timeSlice == TIME_SLICE && c in s.ready.queued && s.action == ChooseNew
  }

  /** One tick of a running thread with more than one tick left. */
  lemma TickCountsDown(s: Sys, r: Sys, c: nat, n: nat)
    requires SchedOk(s) && r == TimerTick(s) && RunsWithSlice(s, c, n) && n > 1
    ensures RunsWithSlice(r, c, n - 1)
  {
    TimerTickSlice(s);
  }

  /** The last tick of a slice. */
  lemma TickExpires(s: Sys, r: Sys, c: nat)
    requires SchedOk(s) && r == TimerTick(s) && RunsWithSlice(s, c, 1)
    ensures SliceRenewed(r, c)
  {
    TimerTickSlice(s);
  }

  /** `run` is a sequence of states each one timer tick after the one before. */
  ghost predicate TickRun(run: seq<Sys>)
  {
    |run| <= 1 || (SchedOk(run[0]) && run[1] == TimerTick(run[0]) && TickRun(run[1..]))
  }

  /**
   * Round robin: a running thread with `k` ticks left in its slice keeps
   * running for `k - 1` ticks, each taking one off the slice.
   */
  lemma {:induction false} SliceCountsDown(run: seq<Sys>, i: nat, c: nat, k: nat)
    requires TickRun(run) && i < |run| && RunsWithSlice(run[0], c, k) && i < k
    ensures RunsWithSlice(run[i], c, k - i)
  {
    if i > 0 {
      TickCountsDown(run[0], run[1], c, k);
      SliceCountsDown(run[1..], i - 1, c, k - 1);
      assert run[1..][i - 1] == run[i];
    }
  }

  /** On the `k`-th tick the slice is used up: the thread gets a fresh slice and waits behind its peers, and the scheduler must choose anew. */
  lemma {:induction false} SliceExpires(run: seq<Sys>, c: nat, k: nat)
    requires |run| == k + 1 && k >= 1 && TickRun(run) && RunsWithSlice(run[0], c, k)
    ensures SliceRenewed(run[k], c)
  {
    if k == 1 {
      TickExpires(run[0], run[1], c);
    } else {
      var rest := run[1..];
      TickCountsDown(run[0], rest[0], c, k);
      SliceExpires(rest, c, k - 1);
      assert rest[k - 1] == run[k];
    }
  }

  // ---------------------------------------------------------------------
  // Activation

  /**
   * `activateThread`: a restarted thread becomes running, a running or
   * idle thread is left alone, and a blocked or inactive current thread
   * halts the kernel.
   */
  function ActivateThread(s: Sys): (r: Result<Sys, Exception>)
    requires SchedOk(s)
    ensures r.Success? <==> IsRunnable(s.threads[s.cur].state) || s.threads[s.cur].state == IdleThreadState
    ensures r.Failure? ==> r.error == KernelHalt
    ensures r.Success? ==> SchedOk(r.value) && r.value == s.(threads := r.value.threads)
    ensures r.Success? ==> r.value.threads == WithState(s.threads, s.cur, r.value.threads[r.value.cur].state)
    ensures r.Success? ==> r.value.threads[r.value.cur].state == Running || r.value.threads[r.value.cur].state == IdleThreadState
  {
    match s.threads[s.cur].state
    case Running => Success(s)
    case Restart => Success(SetThreadState(s, s.cur, Running))
    case IdleThreadState => Success(s)
    case _ => Failure(KernelHalt)
  }
}
