/**
 * Scheduling-context objects of the MCS kernel (`schedcontext.c`): the
 * one-to-one links between a scheduling context and the thread that runs
 * on it, the notification it is bound to and the thread yielding to it;
 * binding, unbinding and donation; the consumed-time counter; and the
 * decoding and invocation of the scheduling-context methods.
 *
 * Threads, contexts and notifications are named by their addresses.  The
 * ready queues and the release queue appear only as the sets of threads
 * they hold, and `rescheduleRequired` as a flag.
 */
module SchedContexts {
  import opened Wrappers
  import opened Sel4Errors
  import opened Sporadic

  /**
   * `sched_context_t`: the bound thread, notification and yielder, the
   * consumed ticks, the badge, and the refill fields.  A context with
   * `scRefillMax` zero has never been configured.
   */
  datatype ScObj = ScObj(tcb: Option<nat>, ntfn: Option<nat>, yieldFrom: Option<nat>, consumed: nat, badge: nat, refills: SchedContext)

  /** The MCS fields of `tcb_t` this model needs. */
  datatype McsTcb = McsTcb(sc: Option<nat>, yieldTo: Option<nat>, priority: nat, mcp: nat, runnable: bool)

  /**
   * The kernel state of the MCS scheduler as far as scheduling contexts
   * are concerned: contexts, threads, each notification's
   * `ntfnSchedContext`, the current thread, the time, the threads in the
   * ready queues and in the release queue, and whether a reschedule is due.
   */
  datatype Mcs = Mcs(scs: map<nat, ScObj>, tcbs: map<nat, McsTcb>, ntfnSc: map<nat, Option<nat>>, cur: nat, now: nat,
                     queued: set<nat>, released: set<nat>, resched: bool)

  /** A context's thread link is returned by the thread, and the other way round. */
  predicate TcbLinks(st: Mcs)
  {
    && (forall c | c in st.scs && st.scs[c].tcb.Some? :: st.scs[c].tcb.value in st.tcbs && st.tcbs[st.scs[c].tcb.value].sc == Some(c))
    && (forall t | t in st.tcbs && st.tcbs[t].sc.Some? :: st.tcbs[t].sc.value in st.scs && st.scs[st.tcbs[t].sc.value].tcb == Some(t))
  }

  /** A context's notification link is returned by the notification, and the other way round. */
  predicate NtfnLinks(st: Mcs)
  {
    && (forall c | c in st.scs && st.scs[c].ntfn.Some? :: st.scs[c].ntfn.value in st.ntfnSc && st.ntfnSc[st.scs[c].ntfn.value] == Some(c))
    && (forall n | n in st.ntfnSc && st.ntfnSc[n].Some? :: st.ntfnSc[n].value in st.scs && st.scs[st.ntfnSc[n].value].ntfn == Some(n))
  }

  /** A context's yielder names the context it yields to, and the other way round. */
  predicate YieldLinks(st: Mcs)
  {
    && (forall c | c in st.scs && st.scs[c].yieldFrom.Some? :: st.scs[c].yieldFrom.value in st.tcbs && st.tcbs[st.scs[c].yieldFrom.value].yieldTo == Some(c))
    && (forall t | t in st.tcbs && st.tcbs[t].yieldTo.Some? :: st.tcbs[t].yieldTo.value in st.scs && st.scs[st.tcbs[t].yieldTo.value].yieldFrom == Some(t))
  }

  /** Every configured context's refills are well formed. */
  predicate RefillsOk(st: Mcs)
  {
    forall c | c in st.scs :: st.scs[c].refills.max > 0 ==> Valid(st.scs[c].refills)
  }

  /** The invariant of the scheduling-context links. */
  predicate LinksOk(st: Mcs)
  {
    TcbLinks(st) && NtfnLinks(st) && YieldLinks(st)
  }

  // ---------------------------------------------------------------------
  // Link writes.

  function WithScTcb(st: Mcs, c: nat, v: Option<nat>): (r: Mcs)
    requires c in st.scs
    ensures r == st.(scs := st.scs[c := st.scs[c].(tcb := v)])
  {
    st.(scs := st.scs[c := st.scs[c].(tcb := v)])
  }

  function WithTcbSc(st: Mcs, t: nat, v: Option<nat>): (r: Mcs)
    requires t in st.tcbs
    ensures r == st.(tcbs := st.tcbs[t := st.tcbs[t].(sc := v)])
  {
    st.(tcbs := st.tcbs[t := st.tcbs[t].(sc := v)])
  }

  // ---------------------------------------------------------------------
  // Schedulability.

  /**
   * `isSchedulable`: runnable, with a configured context, and not waiting
   * in the release queue for its budget.
   */
  predicate Schedulable(st: Mcs, t: nat)
    requires t in st.tcbs
  {
    var tb := st.tcbs[t];
    tb.runnable && tb.sc.Some? && tb.sc.value in st.scs && st.scs[tb.sc.value].refills.max > 0 && t !in st.released
  }

  /** `refill_ready(sc) && refill_sufficient(sc, 0)`: the head refill is available now and is a usable budget. */
  predicate BudgetReady(sc: SchedContext, now: nat)
  {
    Valid(sc) && Ready(sc, now) && Capacity(sc, 0) >= MIN_BUDGET
  }

  /**
   * `schedContext_resume`: a schedulable thread whose budget is not ready
   * is postponed, from the ready queues to the release queue.  Afterwards
   * the thread is schedulable only with a ready budget.
   */
  function Resume(st: Mcs, c: nat): (r: Mcs)
    requires c in st.scs && st.scs[c].tcb.Some? && st.scs[c].tcb.value in st.tcbs
    ensures r == st.(queued := r.queued, released := r.released)
    ensures var t := st.scs[c].tcb.value;
      && (forall u :: u != t ==> (u in r.queued <==> u in st.queued) && (u in r.released <==> u in st.released))
      && (st.tcbs[t].sc == Some(c) && Schedulable(r, t) ==> BudgetReady(st.scs[c].refills, st.now))
      && (Schedulable(st, t) && !BudgetReady(st.scs[c].refills, st.now) ==> t in r.released && t !in r.queued)
      && (Schedulable(st, t) && BudgetReady(st.scs[c].refills, st.now) ==> r == st)
  {
    var t := st.scs[c].tcb.value;
    if Schedulable(st, t) && !BudgetReady(st.scs[c].refills, st.now) then
      st.(queued := st.queued - {t}, released := st.released + {t})
    else st
  }

  // ---------------------------------------------------------------------
  // Binding threads.

  /**
   * `schedContext_bindTCB`: link both sides, resume the context, and queue
   * the thread with a reschedule if it can run.  Both sides must be
   * unbound (the kernel asserts it).
   */
  function BindTcb(st: Mcs, c: nat, t: nat): (r: Mcs)
    requires c in st.scs && t in st.tcbs && st.scs[c].tcb.None? && st.tcbs[t].sc.None?
    ensures r.scs == st.scs[c := st.scs[c].(tcb := Some(t))] && r.tcbs == st.tcbs[t := st.tcbs[t].(sc := Some(c))]
    ensures r.ntfnSc == st.ntfnSc && r.cur == st.cur && r.now == st.now
    ensures Schedulable(r, t) ==> t in r.queued && r.resched && BudgetReady(st.scs[c].refills, st.now)
    ensures forall u :: u != t ==> (u in r.queued <==> u in st.queued) && (u in r.released <==> u in st.released)
  {
    var s1 := WithTcbSc(WithScTcb(st, c, Some(t)), t, Some(c));
    var s2 := Resume(s1, c);
    if Schedulable(s2, t) then s2.(queued := s2.queued + {t}, resched := true) else s2
  }

  /**
   * `schedContext_unbindTCB`: the thread leaves the ready and release
   * queues and both links are cleared; unbinding the current thread
   * requires a reschedule.  The kernel asserts that `t` is the bound
   * thread.
   */
  function UnbindTcb(st: Mcs, c: nat, t: nat): (r: Mcs)
    requires c in st.scs && t in st.tcbs && st.scs[c].tcb == Some(t)
    ensures r.scs == st.scs[c := st.scs[c].(tcb := None)] && r.tcbs == st.tcbs[t := st.tcbs[t].(sc := None)]
    ensures r.ntfnSc == st.ntfnSc && r.cur == st.cur && r.now == st.now
    ensures r.queued == st.queued - {t} && r.released == st.released - {t}
    ensures r.resched <==> st.resched || t == st.cur
  {
    var s1 := st.(resched := st.resched || t == st.cur);
    var s2 := s1.(queued := s1.queued - {t}, released := s1.released - {t});
    WithTcbSc(WithScTcb(s2, c, None), t, None)
  }

  /** `schedContext_unbindAllTCBs`: unbind the context's thread, if it has one. */
  function UnbindAllTcbs(st: Mcs, c: nat): (r: Mcs)
    requires c in st.scs && TcbLinks(st)
    ensures r.scs == st.scs[c := st.scs[c].(tcb := None)] && r.ntfnSc == st.ntfnSc
    ensures st.scs[c].tcb.None? ==> r == st
    ensures st.scs[c].tcb.Some? ==> var t := st.scs[c].tcb.value;
      r.tcbs == st.tcbs[t := st.tcbs[t].(sc := None)] && t !in r.queued && t !in r.released
  {
    if st.scs[c].tcb.Some? then UnbindTcb(st, c, st.scs[c].tcb.value)
    else
      assert st.scs[c := st.scs[c].(tcb := None)] == st.scs;
      st
  }

  /**
   * `schedContext_donate`: the context leaves its old thread, which is
   * dequeued (with a reschedule if it is the current thread), and is
   * linked to `to`, which must have no context of its own.
   */
  function Donate(st: Mcs, c: nat, to: nat): (r: Mcs)
    requires c in st.scs && to in st.tcbs && st.tcbs[to].sc.None? && TcbLinks(st)
    ensures r.scs == st.scs[c := st.scs[c].(tcb := Some(to))] && r.ntfnSc == st.ntfnSc && r.released == st.released
    ensures r.tcbs.Keys == st.tcbs.Keys && r.tcbs[to].sc == Some(c)
    ensures st.scs[c].tcb.Some? ==> var from := st.scs[c].tcb.value;
      from != to && r.tcbs == st.tcbs[from := st.tcbs[from].(sc := None)][to := st.tcbs[to].(sc := Some(c))]
      && from !in r.queued && (from == st.cur ==> r.resched)
    ensures st.scs[c].tcb.None? ==> r.tcbs == st.tcbs[to := st.tcbs[to].(sc := Some(c))] && r.queued == st.queued
  {
    var s1 :=
      if st.scs[c].tcb.Some? then
        var from := st.scs[c].tcb.value;
        WithTcbSc(st.(queued := st.queued - {from}, resched := st.resched || from == st.cur), from, None)
      else st;
    WithTcbSc(WithScTcb(s1, c, Some(to)), to, Some(c))
  }

  // ---------------------------------------------------------------------
  // Binding notifications and yielding.

  /** `schedContext_bindNtfn`: link both sides. */
  function BindNtfn(st: Mcs, c: nat, n: nat): (r: Mcs)
    requires c in st.scs
    ensures r.scs == st.scs[c := st.scs[c].(ntfn := Some(n))] && r.ntfnSc == st.ntfnSc[n := Some(c)]
    ensures r.tcbs == st.tcbs && r.queued == st.queued && r.released == st.released
  {
    st.(scs := st.scs[c := st.scs[c].(ntfn := Some(n))], ntfnSc := st.ntfnSc[n := Some(c)])
  }

  /** `schedContext_unbindNtfn`: clear both sides of the context's notification link, if it has one. */
  function UnbindNtfn(st: Mcs, c: nat): (r: Mcs)
    requires c in st.scs
    ensures r.scs == st.scs[c := st.scs[c].(ntfn := None)] && r.tcbs == st.tcbs
    ensures st.scs[c].ntfn.Some? ==> r.ntfnSc == st.ntfnSc[st.scs[c].ntfn.value := None]
    ensures st.scs[c].ntfn.None? ==> r == st
    ensures r.queued == st.queued && r.released == st.released
  {
    if st.scs[c].ntfn.Some? then
      st.(scs := st.scs[c := st.scs[c].(ntfn := None)], ntfnSc := st.ntfnSc[st.scs[c].ntfn.value := None])
    else
      assert st.scs[c := st.scs[c].(ntfn := None)] == st.scs;
      st
  }

  /** `schedContext_cancelYieldTo`: clear both sides of the thread's yield link, if it has one. */
  function CancelYieldTo(st: Mcs, t: nat): (r: Mcs)
    requires t in st.tcbs && YieldLinks(st)
    ensures r.tcbs == st.tcbs[t := st.tcbs[t].(yieldTo := None)] && r.scs.Keys == st.scs.Keys
    ensures st.tcbs[t].yieldTo.Some? ==> var c := st.tcbs[t].yieldTo.value;
      r.scs == st.scs[c := st.scs[c].(yieldFrom := None)]
    ensures st.tcbs[t].yieldTo.None? ==> r == st
    ensures r.ntfnSc == st.ntfnSc && r.queued == st.queued && r.released == st.released && r.cur == st.cur
  {
    if st.tcbs[t].yieldTo.Some? then
      var c := st.tcbs[t].yieldTo.value;
      st.(scs := st.scs[c := st.scs[c].(yieldFrom := None)], tcbs := st.tcbs[t := st.tcbs[t].(yieldTo := None)])
    else
      assert st.tcbs[t := st.tcbs[t].(yieldTo := None)] == st.tcbs;
      st
  }

  // ---------------------------------------------------------------------
  // The links invariant.

  /** The thread links read only the contexts' `scTcb` and the threads' `tcbSchedContext`. */
  lemma SameTcbFields(st: Mcs, r: Mcs)
    requires TcbLinks(st) && r.scs.Keys == st.scs.Keys && r.tcbs.Keys == st.tcbs.Keys
    requires forall c | c in st.scs :: r.scs[c].tcb == st.scs[c].tcb
    requires forall t | t in st.tcbs :: r.tcbs[t].sc == st.tcbs[t].sc
    ensures TcbLinks(r)
  {
  }

  /** The notification links read only the contexts' `scNotification` and the notifications' `ntfnSchedContext`. */
  lemma SameNtfnFields(st: Mcs, r: Mcs)
    requires NtfnLinks(st) && r.scs.Keys == st.scs.Keys && r.ntfnSc == st.ntfnSc
    requires forall c | c in st.scs :: r.scs[c].ntfn == st.scs[c].ntfn
    ensures NtfnLinks(r)
  {
  }

  /** The yield links read only the contexts' `scYieldFrom` and the threads' `tcbYieldTo`. */
  lemma SameYieldFields(st: Mcs, r: Mcs)
    requires YieldLinks(st) && r.scs.Keys == st.scs.Keys && r.tcbs.Keys == st.tcbs.Keys
    requires forall c | c in st.scs :: r.scs[c].yieldFrom == st.scs[c].yieldFrom
    requires forall t | t in st.tcbs :: r.tcbs[t].yieldTo == st.tcbs[t].yieldTo
    ensures YieldLinks(r)
  {
  }

  /** Binding an unbound thread to an unbound context keeps every link two-way. */
  lemma BindTcbKeepsLinks(st: Mcs, c: nat, t: nat)
    requires LinksOk(st) && c in st.scs && t in st.tcbs && st.scs[c].tcb.None? && st.tcbs[t].sc.None?
    ensures LinksOk(BindTcb(st, c, t))
  {
    var r := BindTcb(st, c, t);
    SameNtfnFields(st, r);
    SameYieldFields(st, r);
  }

  /** Unbinding a context's thread keeps every link two-way. */
  lemma UnbindTcbKeepsLinks(st: Mcs, c: nat, t: nat)
    requires LinksOk(st) && c in st.scs && t in st.tcbs && st.scs[c].tcb == Some(t)
    ensures LinksOk(UnbindTcb(st, c, t))
  {
    var r := UnbindTcb(st, c, t);
    SameNtfnFields(st, r);
    SameYieldFields(st, r);
  }

  /** Donating a context to a thread without one keeps every link two-way. */
  lemma DonateKeepsLinks(st: Mcs, c: nat, to: nat)
    requires LinksOk(st) && c in st.scs && to in st.tcbs && st.tcbs[to].sc.None?
    ensures LinksOk(Donate(st, c, to))
  {
    var r := Donate(st, c, to);
    SameNtfnFields(st, r);
    SameYieldFields(st, r);
    DonateKeepsTcbLinks(st, c, to);
  }

  lemma DonateKeepsTcbLinks(st: Mcs, c: nat, to: nat)
    requires TcbLinks(st) && c in st.scs && to in st.tcbs && st.tcbs[to].sc.None?
    ensures TcbLinks(Donate(st, c, to))
  {
    var r := Donate(st, c, to);
    forall d | d in r.scs && r.scs[d].tcb.Some?
      ensures r.scs[d].tcb.value in r.tcbs && r.tcbs[r.scs[d].tcb.value].sc == Some(d)
    {
      if d != c {
        var u := st.scs[d].tcb.value;
        assert u != to && st.scs[c].tcb != Some(u);
      }
    }
    forall u | u in r.tcbs && r.tcbs[u].sc.Some?
      ensures r.tcbs[u].sc.value in r.scs && r.scs[r.tcbs[u].sc.value].tcb == Some(u)
    {
      if u != to {
        assert st.scs[c].tcb != Some(u);
        assert st.tcbs[u].sc != Some(c);
      }
    }
  }

  /** Binding an unbound notification to a context without one keeps every link two-way. */
  lemma BindNtfnKeepsLinks(st: Mcs, c: nat, n: nat)
    requires LinksOk(st) && c in st.scs && st.scs[c].ntfn.None? && n in st.ntfnSc && st.ntfnSc[n].None?
    ensures LinksOk(BindNtfn(st, c, n))
  {
    var r := BindNtfn(st, c, n);
    SameTcbFields(st, r);
    SameYieldFields(st, r);
  }

  /** Unbinding a context's notification keeps every link two-way. */
  lemma UnbindNtfnKeepsLinks(st: Mcs, c: nat)
    requires LinksOk(st) && c in st.scs
    ensures LinksOk(UnbindNtfn(st, c))
  {
    var r := UnbindNtfn(st, c);
    SameTcbFields(st, r);
    SameYieldFields(st, r);
  }

  /** Cancelling a yield keeps every link two-way. */
  lemma CancelYieldToKeepsLinks(st: Mcs, t: nat)
    requires LinksOk(st) && t in st.tcbs
    ensures LinksOk(CancelYieldTo(st, t))
  {
    var r := CancelYieldTo(st, t);
    SameTcbFields(st, r);
    SameNtfnFields(st, r);
    CancelYieldToKeepsYieldLinks(st, t);
  }

  lemma CancelYieldToKeepsYieldLinks(st: Mcs, t: nat)
    requires YieldLinks(st) && t in st.tcbs
    ensures YieldLinks(CancelYieldTo(st, t))
  {
    var r := CancelYieldTo(st, t);
    if st.tcbs[t].yieldTo.Some? {
      var c := st.tcbs[t].yieldTo.value;
      forall d | d in r.scs && r.scs[d].yieldFrom.Some?
        ensures r.scs[d].yieldFrom.value in r.tcbs && r.tcbs[r.scs[d].yieldFrom.value].yieldTo == Some(d)
      {
        assert d != c;
        assert st.scs[d].yieldFrom.value != t;
      }
      forall u | u in r.tcbs && r.tcbs[u].yieldTo.Some?
        ensures r.tcbs[u].yieldTo.value in r.scs && r.scs[r.tcbs[u].yieldTo.value].yieldFrom == Some(u)
      {
        assert u != t;
        assert st.tcbs[u].yieldTo.value != c;
      }
    }
  }

  /** Binding a thread and unbinding it again restores every link. */
  lemma BindThenUnbind(st: Mcs, c: nat, t: nat)
    requires c in st.scs && t in st.tcbs && st.scs[c].tcb.None? && st.tcbs[t].sc.None?
    ensures var s1 := BindTcb(st, c, t);
      c in s1.scs && t in s1.tcbs && s1.scs[c].tcb == Some(t)
      && var r := UnbindTcb(s1, c, t);
      r.scs == st.scs && r.tcbs == st.tcbs && r.ntfnSc == st.ntfnSc && t !in r.queued && t !in r.released
  {
    var s1 := BindTcb(st, c, t);
    assert s1.scs[c := s1.scs[c].(tcb := None)] == st.scs;
    assert s1.tcbs[t := s1.tcbs[t].(sc := None)] == st.tcbs;
  }

  /** A donated context is found again by its new thread, and the old thread no longer has one. */
  lemma DonateMovesContext(st: Mcs, c: nat, to: nat)
    requires LinksOk(st) && c in st.scs && to in st.tcbs && st.tcbs[to].sc.None? && st.scs[c].tcb.Some?
    ensures var from := st.scs[c].tcb.value; var r := Donate(st, c, to);
      from in r.tcbs && r.tcbs[from].sc.None? && r.tcbs[to].sc == Some(c) && r.scs[c].tcb == Some(to)
  {
  }

  // ---------------------------------------------------------------------
  // Consumed time.

  /**
   * The platform's timer: ticks per microsecond, and the largest tick and
   * microsecond counts the conversions accept.
   */
  datatype Clock = Clock(ticksPerUs: nat, maxTicksToUs: nat, maxUsToTicks: nat)

  predicate ClockOk(clk: Clock)
  {
    clk.ticksPerUs > 0
  }

  /** `ticksToUs`. */
  function TicksToUs(clk: Clock, t: nat): nat
    requires ClockOk(clk)
  {
    t / clk.ticksPerUs
  }

  /** `usToTicks`. */
  function UsToTicks(clk: Clock, us: nat): nat
  {
    us * clk.ticksPerUs
  }

  /**
   * `schedContext_updateConsumed` as the kernel has it: the ticks billed
   * are taken from the counter, capped at `getMaxTicksToUs()`; the cap
   * itself is returned as the microsecond count when it applies.
   */
  function UpdateConsumedAsWritten(clk: Clock, sc: ScObj): (r: (ScObj, nat))
    requires ClockOk(clk)
    ensures r.0 == sc.(consumed := r.0.consumed) && r.0.consumed <= sc.consumed
  {
    if sc.consumed >= clk.maxTicksToUs then (sc.(consumed := sc.consumed - clk.maxTicksToUs), clk.maxTicksToUs)
    else (sc.(consumed := 0), TicksToUs(clk, sc.consumed))
  }

  /** With two ticks to the microsecond, a saturated counter reports twice the time it is billed for. */
  lemma UpdateConsumedMixesUnits()
    ensures var clk := Clock(2, 100, 50); var sc := ScObj(None, None, None, 150, 0, SchedContext(0, 0, 0, 0, []));
      var r := UpdateConsumedAsWritten(clk, sc);
      r.0.consumed == 50 && r.1 == 100 && TicksToUs(clk, sc.consumed - r.0.consumed) == 50
  {
  }

  /**
   * `schedContext_updateConsumed` with the saturated count converted:
   * the microseconds returned are those of the ticks taken from the
   * counter, at most the largest convertible count; the counter is
   * cleared unless it held more than that.
   */
  function UpdateConsumed(clk: Clock, sc: ScObj): (r: (ScObj, nat))
    requires ClockOk(clk)
    ensures r.0 == sc.(consumed := r.0.consumed) && r.0.consumed <= sc.consumed
    ensures r.1 == TicksToUs(clk, sc.consumed - r.0.consumed)
    ensures sc.consumed - r.0.consumed <= clk.maxTicksToUs || sc.consumed - r.0.consumed == sc.consumed
    ensures sc.consumed < clk.maxTicksToUs ==> r.0.consumed == 0
    ensures sc.consumed >= clk.maxTicksToUs ==> sc.consumed - r.0.consumed == clk.maxTicksToUs
  {
    if sc.consumed >= clk.maxTicksToUs then (sc.(consumed := sc.consumed - clk.maxTicksToUs), TicksToUs(clk, clk.maxTicksToUs))
    else (sc.(consumed := 0), TicksToUs(clk, sc.consumed))
  }

  /**
   * Reading the consumed time repeatedly hands out every tick exactly
   * once: what two reads bill adds up to what the counter held, when the
   * first read clears it.
   */
  lemma ConsumedReadTwice(clk: Clock, sc: ScObj)
    requires ClockOk(clk) && sc.consumed < clk.maxTicksToUs
    ensures var r1 := UpdateConsumed(clk, sc); var r2 := UpdateConsumed(clk, r1.0);
      r1.1 == TicksToUs(clk, sc.consumed) && r2.0 == r1.0 && r2.1 == 0
  {
  }

  /** Where the conversion is the identity the kernel's version and the corrected one agree. */
  lemma UpdateConsumedAgreesAtOneTickPerUs(clk: Clock, sc: ScObj)
    requires clk.ticksPerUs == 1
    ensures ClockOk(clk) && UpdateConsumedAsWritten(clk, sc) == UpdateConsumed(clk, sc)
  {
  }
}
