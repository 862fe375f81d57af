/**
 * Configuring a scheduling context through the scheduling-control cap
 * (`schedcontrol.c`): the decoder's range checks on the budget, the
 * period and the number of refills, and what `invokeSchedControl_Configure`
 * then does to the context's refills and its thread's queues.
 */
module SchedControl {
  import opened Wrappers
  import opened Sel4Errors
  import opened Sporadic
  import opened SchedContexts
  import opened SchedContextMethods

  /** `TIME_ARG_SIZE` on a 64-bit kernel: a time argument takes one message word. */
  const TIME_ARG_SIZE: nat := 1

  /** Machine words wrap at this modulus. */
  const WORD_MOD: int := 0x1_0000_0000_0000_0000

  /** A message word, as a number. */
  type MsgWord = x: nat | x < WORD_MOD

  /** The configuration the decoder hands to `invokeSchedControl_Configure`; budget and period in ticks. */
  datatype Configure = Configure(sc: nat, budget: nat, period: nat, maxRefills: nat, badge: MsgWord)

  datatype SchedControlLabel = ConfigureLabel | OtherControlLabel

  /**
   * The range checks on the budget and the period, in microseconds: each
   * lies between the least budget and the largest time the timer can
   * convert, and the budget does not exceed the period.
   */
  function CheckTimes(clk: Clock, minUs: nat, budgetUs: nat, periodUs: nat): (r: Option<SyscallError>)
    ensures r.None? <==> minUs <= budgetUs <= clk.maxUsToTicks && minUs <= periodUs <= clk.maxUsToTicks && budgetUs <= periodUs
    ensures !(minUs <= budgetUs <= clk.maxUsToTicks) ==> r == Some(RangeError(minUs, clk.maxUsToTicks))
    ensures minUs <= budgetUs <= clk.maxUsToTicks && !(minUs <= periodUs <= clk.maxUsToTicks) ==> r == Some(RangeError(minUs, clk.maxUsToTicks))
    ensures minUs <= budgetUs <= clk.maxUsToTicks && minUs <= periodUs <= clk.maxUsToTicks && budgetUs > periodUs ==>
      r == Some(RangeError(minUs, periodUs))
  {
    if budgetUs > clk.maxUsToTicks || budgetUs < minUs then Some(RangeError(minUs, clk.maxUsToTicks))
    else if periodUs > clk.maxUsToTicks || periodUs < minUs then Some(RangeError(minUs, clk.maxUsToTicks))
    else if budgetUs > periodUs then Some(RangeError(minUs, periodUs))
    else None
  }

  /**
   * The checks both decoders share, up to the one on the number of
   * refills: a target cap and four message words are needed (the cap is
   * checked first), the target must be a scheduling-context cap, and the
   * times must pass `CheckTimes`.  The result is budget, period and extra
   * refill count as sent.
   */
  function DecodeTimes(clk: Clock, minUs: nat, args: seq<MsgWord>, excaps: seq<McsCap>): (r: Result<(nat, nat, nat), SyscallError>)
    ensures excaps == [] || |args| < TIME_ARG_SIZE * 2 + 2 ==> r == Failure(TruncatedMessage)
    ensures excaps != [] && |args| >= 4 && !excaps[0].SchedContextCapOf? ==> r == Failure(InvalidCapability(1))
    ensures excaps != [] && |args| >= 4 && excaps[0].SchedContextCapOf? ==>
      match CheckTimes(clk, minUs, args[0], args[1])
      case Some(e) => r == Failure(e)
      case None => r == Success((args[0], args[1], args[2]))
  {
    if excaps == [] then Failure(TruncatedMessage)
    else if |args| < TIME_ARG_SIZE * 2 + 2 then Failure(TruncatedMessage)
    else
      var budgetUs := args[0];
      var periodUs := args[TIME_ARG_SIZE];
      var extra := args[TIME_ARG_SIZE * 2];
      if !excaps[0].SchedContextCapOf? then Failure(InvalidCapability(1))
      else
        match CheckTimes(clk, minUs, budgetUs, periodUs)
        case Some(e) => Failure(e)
        case None => Success((budgetUs, periodUs, extra))
  }

  /**
   * `decodeSchedControl_Configure` as written: the number of refills is
   * `extra_refills + MIN_REFILLS` in word arithmetic, so an extra count
   * near the top of the word wraps to a small sum that passes the check
   * against the context's storage.
   */
  function DecodeConfigureAsWritten(clk: Clock, minUs: nat, args: seq<MsgWord>, excaps: seq<McsCap>): (r: Result<Configure, SyscallError>)
    ensures DecodeTimes(clk, minUs, args, excaps).Failure? ==> r == Failure(DecodeTimes(clk, minUs, args, excaps).error)
    ensures r.Success? ==> r.value.maxRefills < WORD_MOD && r.value.maxRefills <= excaps[0].refillAbsoluteMax
  {
    match DecodeTimes(clk, minUs, args, excaps)
    case Failure(e) => Failure(e)
    case Success((budgetUs, periodUs, extra)) =>
      var cap := excaps[0];
      var sum := (extra + MIN_REFILLS) % WORD_MOD;
      if sum > cap.refillAbsoluteMax then Failure(RangeError(0, (cap.refillAbsoluteMax - MIN_REFILLS) % WORD_MOD))
      else Success(Configure(cap.sc, UsToTicks(clk, budgetUs), UsToTicks(clk, periodUs), sum, args[3]))
  }

  /**
   * `decodeSchedControl_Configure` with the refill count checked without
   * wrapping: a configuration it accepts names a context cap, keeps the
   * budget within the period, and asks for at least `MIN_REFILLS` and at
   * most as many refills as the context can hold.
   */
  function DecodeConfigure(clk: Clock, minUs: nat, args: seq<MsgWord>, excaps: seq<McsCap>): (r: Result<Configure, SyscallError>)
    ensures DecodeTimes(clk, minUs, args, excaps).Failure? ==> r == Failure(DecodeTimes(clk, minUs, args, excaps).error)
    ensures DecodeTimes(clk, minUs, args, excaps).Success? ==>
      (r.Success? <==> args[2] + MIN_REFILLS <= excaps[0].refillAbsoluteMax)
    ensures DecodeTimes(clk, minUs, args, excaps).Success? && r.Failure? ==>
      r.error == RangeError(0, (excaps[0].refillAbsoluteMax - MIN_REFILLS) % WORD_MOD)
    ensures r.Success? ==>
      && excaps[0].SchedContextCapOf? && r.value.sc == excaps[0].sc && r.value.badge == args[3]
      && MIN_REFILLS <= r.value.maxRefills <= excaps[0].refillAbsoluteMax
      && r.value.maxRefills == args[2] + MIN_REFILLS
      && r.value.budget == UsToTicks(clk, args[0]) && r.value.period == UsToTicks(clk, args[1])
      && r.value.budget <= r.value.period
      && UsToTicks(clk, minUs) <= r.value.budget
  {
    match DecodeTimes(clk, minUs, args, excaps)
    case Failure(e) => Failure(e)
    case Success((budgetUs, periodUs, extra)) =>
      var cap := excaps[0];
      if extra + MIN_REFILLS > cap.refillAbsoluteMax then Failure(RangeError(0, (cap.refillAbsoluteMax - MIN_REFILLS) % WORD_MOD))
      else
        UsToTicksMonotone(clk, budgetUs, periodUs);
        UsToTicksMonotone(clk, minUs, budgetUs);
        Success(Configure(cap.sc, UsToTicks(clk, budgetUs), UsToTicks(clk, periodUs), extra + MIN_REFILLS, args[3]))
  }

  lemma UsToTicksMonotone(clk: Clock, a: nat, b: nat)
    requires a <= b
    ensures UsToTicks(clk, a) <= UsToTicks(clk, b)
  {
    var k := clk.ticksPerUs;
    assert b * k == a * k + (b - a) * k;
  }

  /**
   * An extra-refill count of `2^64 - 2` wraps the refill count to zero:
   * the message is accepted and the context would be configured with no
   * refills at all, where the unwrapped check refuses it.
   */
  lemma RefillCountWraps()
    ensures var clk := Clock(1, 1000, 1000);
      var args: seq<MsgWord> := [100, 200, 0xFFFF_FFFF_FFFF_FFFE, 7];
      var excaps := [SchedContextCapOf(0, 10)];
      && DecodeConfigureAsWritten(clk, 10, args, excaps) == Success(Configure(0, 100, 200, 0, 7))
      && DecodeConfigure(clk, 10, args, excaps) == Failure(RangeError(0, 8))
  {
    var clk := Clock(1, 1000, 1000);
    var args: seq<MsgWord> := [100, 200, 0xFFFF_FFFF_FFFF_FFFE, 7];
    var excaps := [SchedContextCapOf(0, 10)];
    assert DecodeTimes(clk, 10, args, excaps) == Success((100, 200, 0xFFFF_FFFF_FFFF_FFFE));
  }

  /** Where the sum does not wrap, the two decoders agree. */
  lemma DecodersAgreeWithoutWrap(clk: Clock, minUs: nat, args: seq<MsgWord>, excaps: seq<McsCap>)
    requires |args| >= 3 ==> args[2] + MIN_REFILLS < WORD_MOD
    ensures DecodeConfigureAsWritten(clk, minUs, args, excaps) == DecodeConfigure(clk, minUs, args, excaps)
  {
  }

  /** `decodeSchedControlInvocation`: only `Configure` is a scheduling-control method. */
  function DecodeSchedControl(op: SchedControlLabel, clk: Clock, minUs: nat, args: seq<MsgWord>, excaps: seq<McsCap>): (r: Result<Configure, SyscallError>)
    ensures op.OtherControlLabel? ==> r == Failure(IllegalOperation)
    ensures op.ConfigureLabel? ==> r == DecodeConfigure(clk, minUs, args, excaps)
  {
    match op
    case ConfigureLabel => DecodeConfigure(clk, minUs, args, excaps)
    case OtherControlLabel => Failure(IllegalOperation)
  }

  // ---------------------------------------------------------------------
  // Invocation.

  /** What the decoder guarantees a configuration: the context exists and can hold the refills asked for. */
  predicate ConfigOk(st: Mcs, cfg: Configure)
  {
    cfg.sc in st.scs && MIN_REFILLS <= cfg.maxRefills <= |st.scs[cfg.sc].refills.refills|
  }

  /** The context is in use: it is configured and its thread can run, so its bandwidth must be kept. */
  predicate Active(st: Mcs, c: nat)
    requires c in st.scs
  {
    var sc := st.scs[c];
    sc.refills.max > 0 && sc.tcb.Some? && sc.tcb.value in st.tcbs && st.tcbs[sc.tcb.value].runnable
  }

  /**
   * The new refills: a budget equal to the period makes the context round
   * robin (period zero, `MIN_REFILLS` refills); an active context has its
   * refills updated so its bandwidth is kept, any other starts afresh.
   * Starting afresh needs a budget above `MIN_BUDGET` (the kernel asserts
   * it).
   */
  function NewRefills(st: Mcs, cfg: Configure): (r: SchedContext)
    requires RefillsOk(st) && ConfigOk(st, cfg)
    requires !Active(st, cfg.sc) ==> cfg.budget > MIN_BUDGET
    ensures Valid(r) && Sum(Contents(r)) == cfg.budget && Ordered(Contents(r))
    ensures cfg.budget == cfg.period ==> IsRoundRobin(r) && r.max == MIN_REFILLS
    ensures cfg.budget != cfg.period ==> r.period == cfg.period && r.max == cfg.maxRefills
    ensures r.max > 0
  {
    var sc := st.scs[cfg.sc].refills;
    var period := if cfg.budget == cfg.period then 0 else cfg.period;
    var maxRefills := if cfg.budget == cfg.period then MIN_REFILLS else cfg.maxRefills;
    if Active(st, cfg.sc) then
      RefillUpdate(sc, period, cfg.budget, maxRefills, st.now)
    else
      RefillNew(sc, maxRefills, cfg.budget, period, st.now)
  }

  /**
   * The end of `invokeSchedControl_Configure` for a context with a
   * thread: the context is resumed; a runnable thread other than the
   * current one is considered for a switch (queued, with a reschedule
   * due), and the current thread's reconfiguration always asks for a
   * reschedule.
   */
  function Requeue(st: Mcs, c: nat): (r: Mcs)
    requires c in st.scs && st.scs[c].tcb.Some? && st.scs[c].tcb.value in st.tcbs
    ensures r == st.(queued := r.queued, released := r.released, resched := r.resched)
    ensures var t := st.scs[c].tcb.value;
      && (forall u :: u != t ==> (u in r.queued <==> u in st.queued) && (u in r.released <==> u in st.released))
      && (t == st.cur ==> r.resched)
      && (t != st.cur && st.tcbs[t].sc == Some(c) && Schedulable(r, t) ==> t in r.queued && r.resched && BudgetReady(st.scs[c].refills, st.now))
      && (t !in st.queued && !Schedulable(r, t) ==> t !in r.queued)
  {
    var t := st.scs[c].tcb.value;
    var s1 := Resume(st, c);
    if t == st.cur then s1.(resched := true)
    else if Schedulable(s1, t) then s1.(queued := s1.queued + {t}, resched := true)
    else s1
  }

  /**
   * `invokeSchedControl_Configure`: the badge is set; a bound thread leaves
   * the ready and release queues while the refills change (billing the
   * current context's time first is not modelled); the refills are
   * replaced by `NewRefills`; and the thread, if any, is resumed and
   * considered for a switch by `Requeue`.  Nothing but the target context
   * and the queues changes.
   */
  function InvokeConfigure(st: Mcs, cfg: Configure): (r: Mcs)
    requires TcbLinks(st) && RefillsOk(st) && ConfigOk(st, cfg)
    requires !Active(st, cfg.sc) ==> cfg.budget > MIN_BUDGET
    ensures r.scs.Keys == st.scs.Keys && r.tcbs == st.tcbs && r.ntfnSc == st.ntfnSc && r.cur == st.cur && r.now == st.now
    ensures r.scs[cfg.sc] == st.scs[cfg.sc].(badge := cfg.badge, refills := NewRefills(st, cfg))
    ensures forall d | d in st.scs && d != cfg.sc :: r.scs[d] == st.scs[d]
    ensures st.scs[cfg.sc].tcb.None? ==> r.queued == st.queued && r.released == st.released && r.resched == st.resched
    ensures st.scs[cfg.sc].tcb.Some? ==> var t := st.scs[cfg.sc].tcb.value;
      && (forall u :: u != t ==> (u in r.queued <==> u in st.queued) && (u in r.released <==> u in st.released))
      && (t == st.cur ==> r.resched)
      && (t != st.cur && Schedulable(r, t) ==> t in r.queued && r.resched && BudgetReady(r.scs[cfg.sc].refills, st.now))
      && (!Schedulable(r, t) ==> t !in r.queued)
  {
    var c := cfg.sc;
    var sc := st.scs[c];
    var s1 := if sc.tcb.Some? then st.(queued := st.queued - {sc.tcb.value}, released := st.released - {sc.tcb.value}) else st;
    var s2 := s1.(scs := s1.scs[c := sc.(badge := cfg.badge, refills := NewRefills(st, cfg))]);
    if sc.tcb.Some? then Requeue(s2, c) else s2
  }

  /** Reconfiguring keeps every link two-way and every configured context's refills well formed. */
  lemma ConfigureKeepsLinks(st: Mcs, cfg: Configure)
    requires LinksOk(st) && RefillsOk(st) && ConfigOk(st, cfg)
    requires !Active(st, cfg.sc) ==> cfg.budget > MIN_BUDGET
    ensures LinksOk(InvokeConfigure(st, cfg)) && RefillsOk(InvokeConfigure(st, cfg))
  {
    var r := InvokeConfigure(st, cfg);
    ConfigureKeepsLinkFields(st, cfg);
    SameTcbFields(st, r);
    SameNtfnFields(st, r);
    SameYieldFields(st, r);
    ConfigureKeepsRefillsOk(st, cfg);
  }

  /** Reconfiguring changes no context's thread, notification or yielder, and no thread. */
  lemma ConfigureKeepsLinkFields(st: Mcs, cfg: Configure)
    requires TcbLinks(st) && RefillsOk(st) && ConfigOk(st, cfg)
    requires !Active(st, cfg.sc) ==> cfg.budget > MIN_BUDGET
    ensures var r := InvokeConfigure(st, cfg);
      && r.scs.Keys == st.scs.Keys && r.tcbs == st.tcbs && r.ntfnSc == st.ntfnSc
      && forall d | d in st.scs :: r.scs[d].tcb == st.scs[d].tcb && r.scs[d].ntfn == st.scs[d].ntfn && r.scs[d].yieldFrom == st.scs[d].yieldFrom
  {
  }

  /** Reconfiguring keeps every configured context's refills well formed. */
  lemma ConfigureKeepsRefillsOk(st: Mcs, cfg: Configure)
    requires TcbLinks(st) && RefillsOk(st) && ConfigOk(st, cfg)
    requires !Active(st, cfg.sc) ==> cfg.budget > MIN_BUDGET
    ensures RefillsOk(InvokeConfigure(st, cfg))
  {
    var r := InvokeConfigure(st, cfg);
    forall d | d in r.scs && r.scs[d].refills.max > 0
      ensures Valid(r.scs[d].refills)
    {
      if d != cfg.sc {
        assert r.scs[d] == st.scs[d];
      }
    }
  }

  /**
   * Whatever configuration the decoder accepts for a context whose cap
   * reports its real storage, invoking it is defined (when the clock
   * converts the least budget to more than `MIN_BUDGET` ticks) and leaves
   * the context with exactly the budget asked for, in well-formed,
   * ordered refills.
   */
  lemma DecodeThenConfigure(clk: Clock, minUs: nat, args: seq<MsgWord>, excaps: seq<McsCap>, st: Mcs)
    requires LinksOk(st) && RefillsOk(st) && UsToTicks(clk, minUs) > MIN_BUDGET
    requires excaps != [] && excaps[0].SchedContextCapOf? ==>
      excaps[0].sc in st.scs && excaps[0].refillAbsoluteMax == |st.scs[excaps[0].sc].refills.refills|
    ensures var d := DecodeConfigure(clk, minUs, args, excaps);
      d.Success? ==>
        && ConfigOk(st, d.value) && d.value.budget > MIN_BUDGET
        && var r := InvokeConfigure(st, d.value);
        && r.scs[d.value.sc].badge == args[3]
        && Sum(Contents(r.scs[d.value.sc].refills)) == UsToTicks(clk, args[0])
        && Ordered(Contents(r.scs[d.value.sc].refills))
        && LinksOk(r)
  {
    var d := DecodeConfigure(clk, minUs, args, excaps);
    if d.Success? {
      ConfigureKeepsLinks(st, d.value);
    }
  }
}
