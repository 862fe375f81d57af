/**
 * The scheduling-context methods (`decodeSchedContextInvocation` and the
 * `invokeSchedContext_*` functions of `schedcontext.c`): the checks each
 * message must pass, and what each method then does to the links and
 * queues of `SchedContexts`.
 */
module SchedContextMethods {
  import opened Wrappers
  import opened Sel4Errors
  import opened Sporadic
  import opened SchedContexts

  /** The capabilities the MCS methods look at among a message's extra caps; every other kind is `OtherCap`. */
  datatype McsCap =
    | ThreadCapOf(tcb: nat)
    | NotificationCapOf(ntfn: nat)
    | SchedContextCapOf(sc: nat, refillAbsoluteMax: nat)
    | OtherCap

  /** Every extra cap names an object of its kind. */
  predicate CapsValid(st: Mcs, excaps: seq<McsCap>)
  {
    forall i | 0 <= i < |excaps| ::
      && (excaps[i].ThreadCapOf? ==> excaps[i].tcb in st.tcbs)
      && (excaps[i].NotificationCapOf? ==> excaps[i].ntfn in st.ntfnSc)
      && (excaps[i].SchedContextCapOf? ==> excaps[i].sc in st.scs)
  }

  datatype ScLabel = ConsumedLabel | BindLabel | UnbindObjectLabel | UnbindLabel | YieldToLabel | OtherScLabel

  /** A decoded scheduling-context method. */
  datatype ScInvocation =
    | ConsumedInv(sc: nat)
    | BindTcbInv(sc: nat, tcb: nat)
    | BindNtfnInv(sc: nat, ntfn: nat)
    | UnbindTcbInv(sc: nat, tcb: nat)
    | UnbindNtfnInv(sc: nat)
    | UnbindInv(sc: nat)
    | YieldToInv(sc: nat)

  /**
   * What the decoder guarantees of each method before it is invoked: the
   * objects exist, a binding finds both sides free, an unbinding names the
   * bound object and not the current thread, and a yield goes to another
   * thread of priority within the caller's maximum controlled priority.
   */
  predicate Admissible(st: Mcs, inv: ScInvocation)
  {
    inv.sc in st.scs &&
    match inv
    case ConsumedInv(_) => true
    case BindTcbInv(c, t) => t in st.tcbs && st.scs[c].tcb.None? && st.scs[c].ntfn.None? && st.tcbs[t].sc.None?
    case BindNtfnInv(c, n) => n in st.ntfnSc && st.scs[c].tcb.None? && st.scs[c].ntfn.None? && st.ntfnSc[n].None?
    case UnbindTcbInv(c, t) => t in st.tcbs && st.scs[c].tcb == Some(t) && t != st.cur
    case UnbindNtfnInv(c) => st.scs[c].ntfn.Some?
    case UnbindInv(c) => st.scs[c].tcb != Some(st.cur)
    case YieldToInv(c) =>
      st.cur in st.tcbs && st.scs[c].tcb.Some? && st.scs[c].tcb.value != st.cur && st.scs[c].tcb.value in st.tcbs
      && st.tcbs[st.scs[c].tcb.value].priority <= st.tcbs[st.cur].mcp
  }

  /**
   * `decodeSchedContext_Bind`: an extra cap is needed; the context must
   * be bound to nothing; a thread or notification that already has a
   * context is refused; any other cap is invalid.
   */
  function DecodeBind(st: Mcs, c: nat, excaps: seq<McsCap>): (r: Result<ScInvocation, SyscallError>)
    requires c in st.scs && CapsValid(st, excaps)
    ensures excaps == [] ==> r == Failure(TruncatedMessage)
    ensures excaps != [] && (st.scs[c].tcb.Some? || st.scs[c].ntfn.Some?) ==> r == Failure(IllegalOperation)
    ensures excaps != [] && st.scs[c].tcb.None? && st.scs[c].ntfn.None? ==>
      && (excaps[0].ThreadCapOf? ==> r == if st.tcbs[excaps[0].tcb].sc.Some? then Failure(IllegalOperation) else Success(BindTcbInv(c, excaps[0].tcb)))
      && (excaps[0].NotificationCapOf? ==> r == if st.ntfnSc[excaps[0].ntfn].Some? then Failure(IllegalOperation) else Success(BindNtfnInv(c, excaps[0].ntfn)))
      && (!excaps[0].ThreadCapOf? && !excaps[0].NotificationCapOf? ==> r == Failure(InvalidCapability(1)))
  {
    if excaps == [] then Failure(TruncatedMessage)
    else if st.scs[c].tcb.Some? || st.scs[c].ntfn.Some? then Failure(IllegalOperation)
    else
      match excaps[0]
      case ThreadCapOf(t) => if st.tcbs[t].sc.Some? then Failure(IllegalOperation) else Success(BindTcbInv(c, t))
      case NotificationCapOf(n) => if st.ntfnSc[n].Some? then Failure(IllegalOperation) else Success(BindNtfnInv(c, n))
      case _ => Failure(InvalidCapability(1))
  }

  /**
   * `decodeSchedContext_UnbindObject`: an extra cap is needed; a thread
   * cap must name the bound thread, which must not be the current one; a
   * notification cap must name the bound notification; any other cap is
   * invalid.
   */
  function DecodeUnbindObject(st: Mcs, c: nat, excaps: seq<McsCap>): (r: Result<ScInvocation, SyscallError>)
    requires c in st.scs
    ensures excaps == [] ==> r == Failure(TruncatedMessage)
    ensures excaps != [] && excaps[0].ThreadCapOf? ==>
      r == if st.scs[c].tcb != Some(excaps[0].tcb) || excaps[0].tcb == st.cur then Failure(IllegalOperation)
           else Success(UnbindTcbInv(c, excaps[0].tcb))
    ensures excaps != [] && excaps[0].NotificationCapOf? ==>
      r == if st.scs[c].ntfn != Some(excaps[0].ntfn) then Failure(IllegalOperation) else Success(UnbindNtfnInv(c))
    ensures excaps != [] && !excaps[0].ThreadCapOf? && !excaps[0].NotificationCapOf? ==> r == Failure(InvalidCapability(1))
  {
    if excaps == [] then Failure(TruncatedMessage)
    else
      match excaps[0]
      case ThreadCapOf(t) =>
        if st.scs[c].tcb != Some(t) then Failure(IllegalOperation)
        else if st.scs[c].tcb == Some(st.cur) then Failure(IllegalOperation)
        else Success(UnbindTcbInv(c, t))
      case NotificationCapOf(n) =>
        if st.scs[c].ntfn != Some(n) then Failure(IllegalOperation) else Success(UnbindNtfnInv(c))
      case _ => Failure(InvalidCapability(1))
  }

  /**
   * `decodeSchedContext_YieldTo`: yielding to the caller's own context,
   * to a context with no thread, or to a thread of higher priority than
   * the caller's maximum controlled priority is refused.
   */
  function DecodeYieldTo(st: Mcs, c: nat): (r: Result<ScInvocation, SyscallError>)
    requires c in st.scs && st.cur in st.tcbs && TcbLinks(st)
    ensures r.Success? <==> st.scs[c].tcb.Some? && st.scs[c].tcb.value != st.cur
                            && st.tcbs[st.scs[c].tcb.value].priority <= st.tcbs[st.cur].mcp
    ensures r.Success? ==> r.value == YieldToInv(c)
    ensures r.Failure? ==> r.error == IllegalOperation
  {
    if st.scs[c].tcb == Some(st.cur) then Failure(IllegalOperation)
    else if st.scs[c].tcb.None? then Failure(IllegalOperation)
    else if st.tcbs[st.scs[c].tcb.value].priority > st.tcbs[st.cur].mcp then Failure(IllegalOperation)
    else Success(YieldToInv(c))
  }

  /**
   * `decodeSchedContextInvocation`: reading the consumed time and
   * unbinding everything need no decoding (but the context of the current
   * thread may not be unbound); unknown labels are illegal.
   */
  function DecodeSchedContext(op: ScLabel, st: Mcs, c: nat, excaps: seq<McsCap>): (r: Result<ScInvocation, SyscallError>)
    requires c in st.scs && st.cur in st.tcbs && TcbLinks(st) && CapsValid(st, excaps)
    ensures op.OtherScLabel? ==> r == Failure(IllegalOperation)
    ensures op.ConsumedLabel? ==> r == Success(ConsumedInv(c))
    ensures op.UnbindLabel? ==> r == if st.scs[c].tcb == Some(st.cur) then Failure(IllegalOperation) else Success(UnbindInv(c))
    ensures r.Success? ==> Admissible(st, r.value) && r.value.sc == c
  {
    match op
    case ConsumedLabel => Success(ConsumedInv(c))
    case BindLabel => DecodeBind(st, c, excaps)
    case UnbindObjectLabel => DecodeUnbindObject(st, c, excaps)
    case UnbindLabel => if st.scs[c].tcb == Some(st.cur) then Failure(IllegalOperation) else Success(UnbindInv(c))
    case YieldToLabel => DecodeYieldTo(st, c)
    case OtherScLabel => Failure(IllegalOperation)
  }

  // ---------------------------------------------------------------------
  // Invocation.

  /** The context with its consumed time read and cleared as `setConsumed` does; the microseconds read. */
  function ReadConsumed(clk: Clock, st: Mcs, c: nat): (r: (Mcs, nat))
    requires ClockOk(clk) && c in st.scs
    ensures r.0 == st.(scs := st.scs[c := UpdateConsumed(clk, st.scs[c]).0]) && r.1 == UpdateConsumed(clk, st.scs[c]).1
  {
    var (sc2, us) := UpdateConsumed(clk, st.scs[c]);
    (st.(scs := st.scs[c := sc2]), us)
  }

  /**
   * `schedContext_completeYieldTo`: a thread that yielded gets the time
   * its yield consumed (into its own message registers, which the model
   * does not keep) and the yield link is cleared.
   */
  function CompleteYieldTo(clk: Clock, st: Mcs, y: nat): (r: Mcs)
    requires ClockOk(clk) && y in st.tcbs && YieldLinks(st)
    ensures r.tcbs == st.tcbs[y := st.tcbs[y].(yieldTo := None)] && r.scs.Keys == st.scs.Keys
    ensures forall d | d in st.scs :: r.scs[d] == st.scs[d].(yieldFrom := r.scs[d].yieldFrom, consumed := r.scs[d].consumed)
    ensures forall d | d in st.scs :: st.tcbs[y].yieldTo != Some(d) ==> r.scs[d].yieldFrom == st.scs[d].yieldFrom
    ensures st.tcbs[y].yieldTo.Some? ==> r.scs[st.tcbs[y].yieldTo.value].yieldFrom.None?
    ensures r.ntfnSc == st.ntfnSc && r.queued == st.queued && r.released == st.released && r.cur == st.cur && r.now == st.now
    ensures YieldLinks(r)
  {
    if st.tcbs[y].yieldTo.Some? then
      var s1 := ReadConsumed(clk, st, st.tcbs[y].yieldTo.value).0;
      SameYieldFields(st, s1);
      CancelYieldToKeepsYieldLinks(s1, y);
      CancelYieldTo(s1, y)
    else
      assert st.tcbs[y := st.tcbs[y].(yieldTo := None)] == st.tcbs;
      st
  }

  /** A yielder to context `c`, if there is one, completes its yield; afterwards nothing yields to `c`. */
  function ClearYielder(clk: Clock, st: Mcs, c: nat): (r: Mcs)
    requires ClockOk(clk) && c in st.scs && YieldLinks(st)
    ensures r.scs.Keys == st.scs.Keys && r.tcbs.Keys == st.tcbs.Keys
    ensures forall d | d in st.scs :: r.scs[d] == st.scs[d].(yieldFrom := r.scs[d].yieldFrom, consumed := r.scs[d].consumed)
    ensures forall u | u in st.tcbs :: r.tcbs[u] == st.tcbs[u].(yieldTo := r.tcbs[u].yieldTo)
    ensures r.scs[c].yieldFrom.None? && r.scs[c].tcb == st.scs[c].tcb && YieldLinks(r)
    ensures r.ntfnSc == st.ntfnSc && r.queued == st.queued && r.released == st.released && r.cur == st.cur && r.now == st.now
    ensures r.resched == st.resched
    ensures forall u | u in st.tcbs && st.tcbs[u].yieldTo.None? :: r.tcbs[u].yieldTo.None?
  {
    if st.scs[c].yieldFrom.Some? then CompleteYieldTo(clk, st, st.scs[c].yieldFrom.value) else st
  }

  /** The caller yields to context `c` and its thread `t`: the two are linked, both are queued and a reschedule is due. */
  function Yield(st: Mcs, c: nat, t: nat): (r: Mcs)
    requires c in st.scs && st.cur in st.tcbs
    ensures r.tcbs == st.tcbs[st.cur := st.tcbs[st.cur].(yieldTo := Some(c))]
    ensures r.scs == st.scs[c := st.scs[c].(yieldFrom := Some(st.cur))]
    ensures r.queued == st.queued + {st.cur, t} && r.resched
    ensures r == st.(tcbs := r.tcbs, scs := r.scs, queued := r.queued, resched := r.resched)
  {
    st.(tcbs := st.tcbs[st.cur := st.tcbs[st.cur].(yieldTo := Some(c))],
        scs := st.scs[c := st.scs[c].(yieldFrom := Some(st.cur))],
        queued := st.queued + {st.cur, t}, resched := true)
  }

  /** `refill_unblock_check` on context `c`: only its refills change, and a ready head is not blocked afterwards. */
  function Unblock(st: Mcs, c: nat): (r: Mcs)
    requires c in st.scs && Valid(st.scs[c].refills)
    ensures r == st.(scs := r.scs) && r.scs.Keys == st.scs.Keys
    ensures r.scs[c] == st.scs[c].(refills := r.scs[c].refills)
    ensures forall d | d in st.scs && d != c :: r.scs[d] == st.scs[d]
    ensures Valid(r.scs[c].refills) && Sum(Contents(r.scs[c].refills)) == Sum(Contents(st.scs[c].refills))
  {
    st.(scs := st.scs[c := st.scs[c].(refills := UnblockCheck(st.scs[c].refills, st.now).0)])
  }

  /**
   * A runnable thread `t` of lower priority than the caller is only
   * queued, and the caller reads the consumed time at once; otherwise the
   * caller yields to it.
   */
  function YieldRunnable(clk: Clock, st: Mcs, c: nat, t: nat): (r: (Mcs, Option<nat>))
    requires ClockOk(clk) && c in st.scs && t in st.tcbs && st.cur in st.tcbs
    ensures r.0.scs.Keys == st.scs.Keys && r.0.tcbs.Keys == st.tcbs.Keys && r.0.ntfnSc == st.ntfnSc
    ensures r.1.None? <==> st.tcbs[t].priority >= st.tcbs[st.cur].priority
    ensures r.1.None? ==> r.0 == Yield(st, c, t)
    ensures r.1.Some? ==> r.0.tcbs == st.tcbs && r.0.scs[c].yieldFrom == st.scs[c].yieldFrom && t in r.0.queued
    ensures forall d | d in st.scs :: r.0.scs[d].tcb == st.scs[d].tcb && r.0.scs[d].ntfn == st.scs[d].ntfn
    ensures forall d | d in st.scs && d != c :: r.0.scs[d] == st.scs[d]
    ensures r.0.released == st.released
  {
    if st.tcbs[t].priority < st.tcbs[st.cur].priority then
      var rr := ReadConsumed(clk, st.(queued := st.queued + {t}), c);
      (rr.0, Some(rr.1))
    else
      (Yield(st, c, t), None)
  }

  /**
   * The second half of `invokeSchedContext_YieldTo`, once the context is
   * resumed: if its thread `t` can run, its refills are unblocked, and
   * either `t` is of lower priority than the caller and is only queued,
   * or the caller yields to it.  The consumed time is read at once unless
   * the caller yields.
   */
  function YieldOrReturn(clk: Clock, st: Mcs, c: nat, t: nat): (r: (Mcs, Option<nat>))
    requires ClockOk(clk) && c in st.scs && t in st.tcbs && st.cur in st.tcbs && t != st.cur
    requires st.scs[c].yieldFrom.None? && st.tcbs[st.cur].yieldTo != Some(c)
    requires Schedulable(st, t) ==> Valid(st.scs[c].refills)
    ensures r.0.scs.Keys == st.scs.Keys && r.0.tcbs.Keys == st.tcbs.Keys && r.0.ntfnSc == st.ntfnSc
    ensures r.1.None? <==> Schedulable(st, t) && st.tcbs[t].priority >= st.tcbs[st.cur].priority
    ensures r.1.None? ==>
      && r.0.tcbs == st.tcbs[st.cur := st.tcbs[st.cur].(yieldTo := Some(c))] && r.0.scs[c].yieldFrom == Some(st.cur)
      && r.0.queued == st.queued + {st.cur, t} && r.0.resched
    ensures r.1.Some? ==> r.0.tcbs == st.tcbs && r.0.scs[c].yieldFrom.None?
    ensures r.1.Some? && Schedulable(st, t) ==> t in r.0.queued
    ensures r.0.released == st.released
  {
    if Schedulable(st, t) then
      YieldRunnable(clk, Unblock(st, c), c, t)
    else
      var rr := ReadConsumed(clk, st, c);
      (rr.0, Some(rr.1))
  }

  /**
   * `r` keeps every binding of `st`: the same objects, the same thread
   * and notification of every context and the same context of every
   * thread, and every context's refills stay configured and well formed.
   */
  predicate KeepsBindings(st: Mcs, r: Mcs)
  {
    && r.scs.Keys == st.scs.Keys && r.tcbs.Keys == st.tcbs.Keys && r.ntfnSc == st.ntfnSc
    && (forall d | d in st.scs ::
          && r.scs[d].tcb == st.scs[d].tcb && r.scs[d].ntfn == st.scs[d].ntfn
          && r.scs[d].refills.max == st.scs[d].refills.max
          && (Valid(st.scs[d].refills) ==> Valid(r.scs[d].refills)))
    && (forall u | u in st.tcbs :: r.tcbs[u].sc == st.tcbs[u].sc)
  }

  lemma KeepsBindingsTrans(s1: Mcs, s2: Mcs, s3: Mcs)
    requires KeepsBindings(s1, s2) && KeepsBindings(s2, s3)
    ensures KeepsBindings(s1, s3)
  {
  }

  /** Kept bindings keep the thread and notification links and the well-formed refills. */
  lemma KeepsBindingsKeepsLinks(st: Mcs, r: Mcs)
    requires KeepsBindings(st, r) && TcbLinks(st) && NtfnLinks(st) && RefillsOk(st)
    ensures TcbLinks(r) && NtfnLinks(r) && RefillsOk(r)
  {
    SameTcbFields(st, r);
    SameNtfnFields(st, r);
  }

  /** Reading the consumed time keeps every binding and every yield link. */
  lemma ReadConsumedKeeps(clk: Clock, st: Mcs, c: nat)
    requires ClockOk(clk) && c in st.scs
    ensures var r := ReadConsumed(clk, st, c).0;
      && KeepsBindings(st, r) && r.tcbs == st.tcbs
      && (forall d | d in st.scs :: r.scs[d].yieldFrom == st.scs[d].yieldFrom)
  {
  }

  /**
   * The second half of a yield keeps every binding, and the only yield
   * link it can add is the caller's to `c`.
   */
  lemma YieldOrReturnFrame(clk: Clock, st: Mcs, c: nat, t: nat)
    requires ClockOk(clk) && c in st.scs && t in st.tcbs && st.cur in st.tcbs && t != st.cur
    requires st.scs[c].yieldFrom.None? && st.tcbs[st.cur].yieldTo != Some(c)
    requires Schedulable(st, t) ==> Valid(st.scs[c].refills)
    ensures var r := YieldOrReturn(clk, st, c, t);
      && KeepsBindings(st, r.0)
      && (forall d | d in st.scs && d != c :: r.0.scs[d].yieldFrom == st.scs[d].yieldFrom)
      && (r.1.Some? ==> r.0.scs[c].yieldFrom == st.scs[c].yieldFrom)
  {
    if Schedulable(st, t) {
      var s3 := Unblock(st, c);
      assert KeepsBindings(st, s3);
      YieldRunnableFrame(clk, s3, c, t);
      KeepsBindingsTrans(st, s3, YieldOrReturn(clk, st, c, t).0);
    } else {
      ReadConsumedKeeps(clk, st, c);
    }
  }

  /** Queueing a runnable thread, or yielding to it, keeps every binding; only `c`'s yield link can change. */
  lemma YieldRunnableFrame(clk: Clock, st: Mcs, c: nat, t: nat)
    requires ClockOk(clk) && c in st.scs && t in st.tcbs && st.cur in st.tcbs
    ensures var r := YieldRunnable(clk, st, c, t);
      && KeepsBindings(st, r.0)
      && (forall d | d in st.scs && d != c :: r.0.scs[d].yieldFrom == st.scs[d].yieldFrom)
      && (r.1.Some? ==> r.0.scs[c].yieldFrom == st.scs[c].yieldFrom)
  {
    if st.tcbs[t].priority < st.tcbs[st.cur].priority {
      ReadConsumedKeeps(clk, st.(queued := st.queued + {t}), c);
    }
  }

  /**
   * `invokeSchedContext_YieldTo`: a previous yielder to the context is
   * completed, the context is resumed, and if its thread can then run its
   * refills are unblocked.  A thread of lower priority than the caller is
   * only queued and the caller learns the consumed time at once;
   * otherwise the caller yields to it, both are queued, a reschedule is
   * due, and the consumed time is reported when the caller runs again.
   */
  function InvokeYieldTo(clk: Clock, st: Mcs, c: nat): (r: (Mcs, Option<nat>))
    requires ClockOk(clk) && LinksOk(st) && RefillsOk(st) && Admissible(st, YieldToInv(c))
    ensures r.0.scs.Keys == st.scs.Keys && r.0.tcbs.Keys == st.tcbs.Keys && r.0.ntfnSc == st.ntfnSc
    ensures r.1.None? ==> r.0.tcbs[st.cur].yieldTo == Some(c) && r.0.scs[c].yieldFrom == Some(st.cur) && r.0.resched
    ensures r.1.None? ==> st.cur in r.0.queued && st.scs[c].tcb.value in r.0.queued
    ensures r.1.Some? ==> r.0.scs[c].yieldFrom.None? && r.0.tcbs[st.cur].yieldTo != Some(c)
    ensures r.1.None? ==> st.tcbs[st.scs[c].tcb.value].priority >= st.tcbs[st.cur].priority && BudgetReady(st.scs[c].refills, st.now)
  {
    var s1 := ClearYielder(clk, st, c);
    var t := st.scs[c].tcb.value;
    var s2 := Resume(s1, c);
    assert s2.tcbs[s2.cur].yieldTo != Some(c);
    assert Schedulable(s2, t) ==> Valid(s2.scs[c].refills) by {
      assert st.tcbs[t].sc == Some(c);
      assert s2.scs[c].refills == st.scs[c].refills;
    }
    YieldOrReturn(clk, s2, c, t)
  }

  /** Linking a thread that yields to nothing with a context that nobody yields to keeps every yield link two-way. */
  lemma LinkYieldKeepsYieldLinks(st: Mcs, r: Mcs, c: nat, y: nat)
    requires YieldLinks(st) && c in st.scs && y in st.tcbs && st.scs[c].yieldFrom.None? && st.tcbs[y].yieldTo.None?
    requires r.scs.Keys == st.scs.Keys && r.tcbs.Keys == st.tcbs.Keys
    requires r.scs[c].yieldFrom == Some(y) && r.tcbs[y].yieldTo == Some(c)
    requires forall d | d in st.scs && d != c :: r.scs[d].yieldFrom == st.scs[d].yieldFrom
    requires forall u | u in st.tcbs && u != y :: r.tcbs[u].yieldTo == st.tcbs[u].yieldTo
    ensures YieldLinks(r)
  {
    forall d | d in r.scs && r.scs[d].yieldFrom.Some?
      ensures r.scs[d].yieldFrom.value in r.tcbs && r.tcbs[r.scs[d].yieldFrom.value].yieldTo == Some(d)
    {
      if d != c {
        var u := st.scs[d].yieldFrom.value;
        assert st.tcbs[u].yieldTo == Some(d);
        assert u != y;
      }
    }
    forall u | u in r.tcbs && r.tcbs[u].yieldTo.Some?
      ensures r.tcbs[u].yieldTo.value in r.scs && r.scs[r.tcbs[u].yieldTo.value].yieldFrom == Some(u)
    {
      if u != y {
        var d := st.tcbs[u].yieldTo.value;
        assert st.scs[d].yieldFrom == Some(u);
        assert d != c;
      }
    }
  }

  /**
   * A yield keeps every link two-way and every configured context's
   * refills well formed, provided the caller yields to nothing when it
   * makes the call (the kernel completes any yield of the current thread
   * when it activates it).
   */
  lemma InvokeYieldToKeepsLinks(clk: Clock, st: Mcs, c: nat)
    requires ClockOk(clk) && LinksOk(st) && RefillsOk(st) && Admissible(st, YieldToInv(c))
    requires st.tcbs[st.cur].yieldTo.None?
    ensures LinksOk(InvokeYieldTo(clk, st, c).0) && RefillsOk(InvokeYieldTo(clk, st, c).0)
  {
    var t := st.scs[c].tcb.value;
    var s2 := Resume(ClearYielder(clk, st, c), c);
    PrepareYieldFrame(clk, st, c, t);
    var r := YieldOrReturn(clk, s2, c, t);
    assert r == InvokeYieldTo(clk, st, c);
    YieldOrReturnFrame(clk, s2, c, t);
    KeepsBindingsTrans(st, s2, r.0);
    KeepsBindingsKeepsLinks(st, r.0);
    YieldOrReturnKeepsYieldLinks(clk, s2, c, t);
  }

  /** The second half of a yield keeps the yield links two-way when the caller yields to nothing. */
  lemma YieldOrReturnKeepsYieldLinks(clk: Clock, st: Mcs, c: nat, t: nat)
    requires ClockOk(clk) && c in st.scs && t in st.tcbs && st.cur in st.tcbs && t != st.cur
    requires st.scs[c].yieldFrom.None? && st.tcbs[st.cur].yieldTo.None? && YieldLinks(st)
    requires Schedulable(st, t) ==> Valid(st.scs[c].refills)
    ensures YieldLinks(YieldOrReturn(clk, st, c, t).0)
  {
    var r := YieldOrReturn(clk, st, c, t);
    YieldOrReturnFrame(clk, st, c, t);
    if r.1.Some? {
      SameYieldFields(st, r.0);
    } else {
      assert forall u | u in st.tcbs && u != st.cur :: r.0.tcbs[u] == st.tcbs[u];
      LinkYieldKeepsYieldLinks(st, r.0, c, st.cur);
    }
  }

  /** Completing the earlier yield to `c` and resuming `c` keeps every binding and frees both ends of the new yield. */
  lemma PrepareYieldFrame(clk: Clock, st: Mcs, c: nat, t: nat)
    requires ClockOk(clk) && YieldLinks(st) && c in st.scs && t in st.tcbs && st.cur in st.tcbs
    requires st.scs[c].tcb == Some(t) && st.tcbs[t].sc == Some(c) && st.tcbs[st.cur].yieldTo.None?
    requires st.scs[c].refills.max > 0 ==> Valid(st.scs[c].refills)
    ensures var s2 := Resume(ClearYielder(clk, st, c), c);
      && s2.scs.Keys == st.scs.Keys && s2.tcbs.Keys == st.tcbs.Keys && s2.cur == st.cur
      && KeepsBindings(st, s2) && YieldLinks(s2)
      && s2.scs[c].yieldFrom.None? && s2.tcbs[st.cur].yieldTo.None?
      && (Schedulable(s2, t) ==> Valid(s2.scs[c].refills))
  {
    var s1 := ClearYielder(clk, st, c);
    assert KeepsBindings(st, s1);
    var s2 := Resume(s1, c);
    assert KeepsBindings(s1, s2);
    KeepsBindingsTrans(st, s1, s2);
    assert s2.scs[c].refills == st.scs[c].refills;
  }


  // ---------------------------------------------------------------------
  // Dispatch.

  /** The methods that only bind or unbind. */
  predicate IsBinding(inv: ScInvocation)
  {
    inv.BindTcbInv? || inv.BindNtfnInv? || inv.UnbindTcbInv? || inv.UnbindNtfnInv? || inv.UnbindInv?
  }

  /**
   * `invokeSchedContext_Bind`, `_UnbindObject` and `_Unbind`: the named
   * links are made or cleared on both sides.  Unbinding everything also
   * drops the context's reply link, which the model does not keep.
   */
  function InvokeBinding(st: Mcs, inv: ScInvocation): (r: Mcs)
    requires LinksOk(st) && Admissible(st, inv) && IsBinding(inv)
    ensures r.scs.Keys == st.scs.Keys && r.tcbs.Keys == st.tcbs.Keys && r.ntfnSc.Keys == st.ntfnSc.Keys
    ensures inv.BindTcbInv? ==> r.scs[inv.sc].tcb == Some(inv.tcb) && r.tcbs[inv.tcb].sc == Some(inv.sc)
    ensures inv.BindNtfnInv? ==> r.scs[inv.sc].ntfn == Some(inv.ntfn) && r.ntfnSc[inv.ntfn] == Some(inv.sc)
    ensures inv.UnbindTcbInv? ==> r.scs[inv.sc].tcb.None? && r.tcbs[inv.tcb].sc.None? && inv.tcb !in r.queued
    ensures inv.UnbindNtfnInv? ==> r.scs[inv.sc].ntfn.None? && r.ntfnSc[st.scs[inv.sc].ntfn.value].None?
    ensures inv.UnbindInv? ==> r.scs[inv.sc].tcb.None? && r.scs[inv.sc].ntfn.None?
    ensures forall d | d in st.scs :: r.scs[d].refills == st.scs[d].refills
  {
    match inv
    case BindTcbInv(c, t) => BindTcb(st, c, t)
    case BindNtfnInv(c, n) => BindNtfn(st, c, n)
    case UnbindTcbInv(c, t) => UnbindTcb(st, c, t)
    case UnbindNtfnInv(c) => UnbindNtfn(st, c)
    case UnbindInv(c) => UnbindAll(st, c)
  }

  /** `invokeSchedContext_Unbind`: the context loses its thread and its notification. */
  function UnbindAll(st: Mcs, c: nat): (r: Mcs)
    requires TcbLinks(st) && NtfnLinks(st) && c in st.scs
    ensures r.scs.Keys == st.scs.Keys && r.tcbs.Keys == st.tcbs.Keys && r.ntfnSc.Keys == st.ntfnSc.Keys
    ensures r.scs[c] == st.scs[c].(tcb := None, ntfn := None)
    ensures forall d | d in st.scs && d != c :: r.scs[d] == st.scs[d]
    ensures st.scs[c].tcb.Some? ==> r.tcbs[st.scs[c].tcb.value].sc.None? && st.scs[c].tcb.value !in r.queued
  {
    UnbindNtfn(UnbindAllTcbs(st, c), c)
  }

  /**
   * The `invokeSchedContext_*` methods.  The second component is the
   * consumed time reported to the caller at once, if any: reading it
   * always reports, a yield reports unless the caller yields, and the
   * other methods report nothing.
   */
  function InvokeSchedContext(clk: Clock, st: Mcs, inv: ScInvocation): (r: (Mcs, Option<nat>))
    requires ClockOk(clk) && LinksOk(st) && RefillsOk(st) && Admissible(st, inv)
    ensures r.0.scs.Keys == st.scs.Keys && r.0.tcbs.Keys == st.tcbs.Keys
    ensures inv.ConsumedInv? ==> r.1.Some? && r.0.scs[inv.sc].consumed <= st.scs[inv.sc].consumed
    ensures IsBinding(inv) ==> r == (InvokeBinding(st, inv), None)
    ensures inv.YieldToInv? && r.1.None? ==> r.0.tcbs[st.cur].yieldTo == Some(inv.sc) && r.0.scs[inv.sc].yieldFrom == Some(st.cur)
  {
    match inv
    case ConsumedInv(c) =>
      var rr := ReadConsumed(clk, st, c);
      (rr.0, Some(rr.1))
    case YieldToInv(c) => InvokeYieldTo(clk, st, c)
    case _ => (InvokeBinding(st, inv), None)
  }

  /** Binding and unbinding keep every link two-way and every configured context's refills well formed. */
  lemma InvokeBindingKeepsLinks(st: Mcs, inv: ScInvocation)
    requires LinksOk(st) && RefillsOk(st) && Admissible(st, inv) && IsBinding(inv)
    ensures LinksOk(InvokeBinding(st, inv)) && RefillsOk(InvokeBinding(st, inv))
  {
    var r := InvokeBinding(st, inv);
    SameRefillsKeepRefillsOk(st, r);
    match inv
    case BindTcbInv(c, t) => BindTcbKeepsLinks(st, c, t);
    case BindNtfnInv(c, n) => BindNtfnKeepsLinks(st, c, n);
    case UnbindTcbInv(c, t) => UnbindTcbKeepsLinks(st, c, t);
    case UnbindNtfnInv(c) => UnbindNtfnKeepsLinks(st, c);
    case UnbindInv(c) => UnbindAllKeepsLinks(st, c);
  }

  /** Unbinding everything keeps every link two-way. */
  lemma UnbindAllKeepsLinks(st: Mcs, c: nat)
    requires LinksOk(st) && c in st.scs
    ensures LinksOk(UnbindAll(st, c))
  {
    var s1 := UnbindAllTcbs(st, c);
    if st.scs[c].tcb.Some? {
      UnbindTcbKeepsLinks(st, c, st.scs[c].tcb.value);
    }
    UnbindNtfnKeepsLinks(s1, c);
  }

  /** Changing only bindings, never refills, keeps every configured context's refills well formed. */
  lemma SameRefillsKeepRefillsOk(st: Mcs, r: Mcs)
    requires RefillsOk(st) && r.scs.Keys == st.scs.Keys
    requires forall d | d in st.scs :: r.scs[d].refills == st.scs[d].refills
    ensures RefillsOk(r)
  {
  }

  /**
   * Every scheduling-context method keeps every link two-way and every
   * configured context's refills well formed, when the caller yields to
   * nothing as it makes the call.
   */
  lemma InvokeKeepsLinks(clk: Clock, st: Mcs, inv: ScInvocation)
    requires ClockOk(clk) && LinksOk(st) && RefillsOk(st) && Admissible(st, inv)
    requires st.cur in st.tcbs && st.tcbs[st.cur].yieldTo.None?
    ensures LinksOk(InvokeSchedContext(clk, st, inv).0) && RefillsOk(InvokeSchedContext(clk, st, inv).0)
  {
    var r := InvokeSchedContext(clk, st, inv).0;
    match inv
    case ConsumedInv(c) =>
      ReadConsumedKeeps(clk, st, c);
      KeepsBindingsKeepsLinks(st, r);
      SameYieldFields(st, r);
    case YieldToInv(c) =>
      InvokeYieldToKeepsLinks(clk, st, c);
    case _ =>
      InvokeBindingKeepsLinks(st, inv);
  }

  /**
   * Whatever message the decoder accepts, invoking it keeps every link
   * two-way and every configured context's refills well formed.
   */
  lemma DecodeThenInvokeKeepsLinks(clk: Clock, op: ScLabel, st: Mcs, c: nat, excaps: seq<McsCap>)
    requires ClockOk(clk) && LinksOk(st) && RefillsOk(st) && c in st.scs && CapsValid(st, excaps)
    requires st.cur in st.tcbs && st.tcbs[st.cur].yieldTo.None?
    ensures var d := DecodeSchedContext(op, st, c, excaps);
      d.Success? ==> Admissible(st, d.value) && LinksOk(InvokeSchedContext(clk, st, d.value).0)
  {
    var d := DecodeSchedContext(op, st, c, excaps);
    if d.Success? {
      InvokeKeepsLinks(clk, st, d.value);
    }
  }

  /**
   * Whatever a bind message binds, an unbind message with the same cap
   * then names for unbinding (unless it names the current thread).
   */
  lemma BindThenUnbindObject(st: Mcs, c: nat, excaps: seq<McsCap>)
    requires LinksOk(st) && c in st.scs && CapsValid(st, excaps) && DecodeBind(st, c, excaps).Success?
    requires excaps[0].ThreadCapOf? ==> excaps[0].tcb != st.cur
    ensures var s1 := InvokeBinding(st, DecodeBind(st, c, excaps).value);
      DecodeUnbindObject(s1, c, excaps) ==
        if excaps[0].ThreadCapOf? then Success(UnbindTcbInv(c, excaps[0].tcb)) else Success(UnbindNtfnInv(c))
  {
  }
}
