/**
 * The kernel's interrupt objects (`interrupt.c`): the per-IRQ state table
 * `intStateIRQTable`, the IRQ node `intStateIRQNode` that holds the
 * notification cap each IRQ signals, the IRQ-control and IRQ-handler
 * invocations, and `handleInterrupt`.
 *
 * The interrupt controller is represented by the set of IRQs it has
 * masked and the sequence of IRQs it has been told to acknowledge.
 */
module Interrupts {
  import opened Wrappers
  import opened Sel4Words
  import opened Sel4Errors
  import opened Capabilities
  import opened CSpace
  import opened Mdb
  import opened CNodeDecode
  import opened KernelState
  import opened Sel4Scheduler
  import opened Signals

  /** `irq_state_t` without the SMP inter-processor state. */
  datatype IrqState = IrqInactive | IrqSignal | IrqTimer | IrqReserved

  /**
   * `intStateIRQTable` and `intStateIRQNode` for IRQs `0..maxIRQ`, the
   * controller's mask bits, and the acknowledgements sent to it, oldest
   * first.
   */
  datatype IntState = IntState(table: seq<IrqState>, node: seq<Cap>, masked: set<nat>, acks: seq<nat>)

  /** Both tables have one entry for every IRQ up to `maxIRQ`. */
  predicate WellSized(ist: IntState)
  {
    |ist.table| == |ist.node| && |ist.table| > 0
  }

  /** `maxIRQ`. */
  function MaxIrq(ist: IntState): nat
    requires WellSized(ist)
  {
    |ist.table| - 1
  }

  /** `isIRQActive`. */
  predicate IsIrqActive(ist: IntState, irq: nat)
    requires irq < |ist.table|
  {
    ist.table[irq] != IrqInactive
  }

  /** `maskInterrupt`: the controller masks or unmasks one IRQ. */
  function MaskInterrupt(ist: IntState, disable: bool, irq: nat): (r: IntState)
    ensures r == ist.(masked := r.masked)
    ensures irq in r.masked <==> disable
    ensures forall j :: j != irq ==> (j in r.masked <==> j in ist.masked)
  {
    if disable then ist.(masked := ist.masked + {irq}) else ist.(masked := ist.masked - {irq})
  }

  /** `ackInterrupt`. */
  function AckInterrupt(ist: IntState, irq: nat): (r: IntState)
    ensures r == ist.(acks := r.acks) && r.acks == ist.acks + [irq]
  {
    ist.(acks := ist.acks + [irq])
  }

  /**
   * `setIRQState`: record the state, and mask the IRQ exactly when the
   * new state is inactive.
   */
  function SetIrqState(ist: IntState, st: IrqState, irq: nat): (r: IntState)
    requires irq < |ist.table|
    ensures r.table == ist.table[irq := st] && r.node == ist.node && r.acks == ist.acks
    ensures irq in r.masked <==> st == IrqInactive
    ensures forall j :: j != irq ==> (j in r.masked <==> j in ist.masked)
  {
    MaskInterrupt(ist.(table := ist.table[irq := st]), st == IrqInactive, irq)
  }

  /** `deletedIRQHandler`: the last handler cap is gone, so the IRQ is inactive again. */
  function DeletedIrqHandler(ist: IntState, irq: nat): (r: IntState)
    requires irq < |ist.table|
    ensures |r.table| == |ist.table| && !IsIrqActive(r, irq) && irq in r.masked
    ensures forall j :: 0 <= j < |ist.table| && j != irq ==> r.table[j] == ist.table[j]
    ensures r.node == ist.node && r.acks == ist.acks
  {
    SetIrqState(ist, IrqInactive, irq)
  }

  /** After `setIRQState` the IRQ is active exactly when the state set is not inactive, and masked exactly when it is. */
  lemma SetIrqStateThenActive(ist: IntState, st: IrqState, irq: nat)
    requires irq < |ist.table|
    ensures var r := SetIrqState(ist, st, irq);
      (IsIrqActive(r, irq) <==> st != IrqInactive) && (irq in r.masked <==> !IsIrqActive(r, irq))
  {
  }

  /** Every inactive IRQ is masked at the controller. */
  predicate InactiveMasked(ist: IntState)
  {
    forall j :: 0 <= j < |ist.table| && ist.table[j] == IrqInactive ==> j in ist.masked
  }

  /** `setIRQState` keeps inactive IRQs masked. */
  lemma SetIrqStateKeepsInactiveMasked(ist: IntState, st: IrqState, irq: nat)
    requires irq < |ist.table| && InactiveMasked(ist)
    ensures InactiveMasked(SetIrqState(ist, st, irq))
  {
  }

  // ---------------------------------------------------------------------
  // IRQ control: `IRQIssueIRQHandler`.

  /** An IRQ-control invocation: make IRQ `irq` signal, and put its handler cap in `dest`, a child of the control cap in `src`. */
  datatype IssueIrqHandler = IssueIrqHandler(irq: Word, dest: nat, src: nat)

  /**
   * `decodeIRQControlInvocation` for `IRQIssueIRQHandler`: three message
   * words (IRQ, index, depth) and a CNode cap are needed; the IRQ must
   * exist and be inactive; the target slot must resolve and be empty.
   */
  function DecodeIssueIrqHandler(args: seq<Word>, excaps: seq<Cap>, src: nat, m: Cdt, ist: IntState): (r: Result<IssueIrqHandler, Exception>)
    requires WellSized(ist)
    ensures |args| < 3 || |excaps| < 1 ==> r == Failure(Syscall(TruncatedMessage))
    ensures r.Success? ==>
      && r.value.src == src && r.value.irq == args[0]
      && args[0] as int <= MaxIrq(ist) && !IsIrqActive(ist, args[0] as int)
      && LookupSlotForCNodeOp(false, CapTable(m), excaps[0], args[1], args[2]).Success?
      && LookupSlotForCNodeOp(false, CapTable(m), excaps[0], args[1], args[2]).value as int == r.value.dest
      && CapIn(m, r.value.dest).NullCap?
    ensures |args| >= 3 && |excaps| >= 1 && args[0] as int <= MaxIrq(ist) && IsIrqActive(ist, args[0] as int) ==>
      r == Failure(Syscall(RevokeFirst))
  {
    if |args| < 3 || |excaps| < 1 then Failure(Syscall(TruncatedMessage))
    else
      var irqW := args[0];
      if irqW as int > MaxIrq(ist) then Failure(Syscall(RangeError(0, MaxIrq(ist))))
      else if IsIrqActive(ist, irqW as int) then Failure(Syscall(RevokeFirst))
      else
        match LookupSlotForCNodeOp(false, CapTable(m), excaps[0], args[1], args[2])
        case Failure(e) => Failure(e)
        case Success(w) =>
          if EnsureEmptySlot(CteIn(m, w as int)).Failure? then Failure(Syscall(DeleteFirst))
          else Success(IssueIrqHandler(irqW, w as int, src))
  }

  /**
   * `invokeIRQControl`: the IRQ becomes a signalling IRQ and a handler
   * cap for it is inserted as a child of the control slot.  `None` is the
   * kernel's own assertion in `cteInsert` failing, or a slot address that
   * is not a slot.
   */
  function InvokeIrqControl(ist: IntState, m: Cdt, inv: IssueIrqHandler): (r: Option<(IntState, Cdt)>)
    requires inv.irq as int < |ist.table|
    ensures r.Some? ==> r.value.0 == SetIrqState(ist, IrqSignal, inv.irq as int) && r.value.1.Keys == m.Keys
    ensures r.Some? <==> inv.src in m && inv.dest in m && Unlinked(m[inv.dest])
  {
    if inv.src in m && inv.dest in m then
      var m2 := CteInsert(IrqHandlerCap(inv.irq), inv.src, inv.dest, m);
      if m2.Some? then Some((SetIrqState(ist, IrqSignal, inv.irq as int), m2.value)) else None
    else None
  }

  /**
   * In a well-linked slot table, the handler cap lands in the empty
   * destination as the next entry after the control cap, and the table
   * stays well linked.
   */
  lemma IssueInsertsChild(ist: IntState, m: Cdt, inv: IssueIrqHandler)
    requires inv.irq as int < |ist.table|
    requires Linked(m) && inv.src in m && inv.dest in m && inv.src != inv.dest && Separate(m, inv.src)
    requires Unlinked(m[inv.dest]) && !m[inv.src].cap.NullCap?
    ensures InvokeIrqControl(ist, m, inv).Some?
    ensures var m2 := InvokeIrqControl(ist, m, inv).value.1;
      Linked(m2) && m2[inv.dest].cap == IrqHandlerCap(inv.irq)
      && m2[inv.dest].mdb.prev == inv.src && m2[inv.src].mdb.next == inv.dest
  {
    InsertKeepsLinked(IrqHandlerCap(inv.irq), inv.src, inv.dest, m);
  }

  /**
   * An IRQ that has been issued a handler cannot be issued another: the
   * second request is told to revoke first.
   */
  lemma IssueTwiceRevokeFirst(args: seq<Word>, args2: seq<Word>, excaps: seq<Cap>, excaps2: seq<Cap>, src: nat, m: Cdt, ist: IntState)
    requires WellSized(ist) && DecodeIssueIrqHandler(args, excaps, src, m, ist).Success?
    requires InvokeIrqControl(ist, m, DecodeIssueIrqHandler(args, excaps, src, m, ist).value).Some?
    requires |args2| >= 3 && |excaps2| >= 1 && args2[0] == args[0]
    ensures var ist2 := InvokeIrqControl(ist, m, DecodeIssueIrqHandler(args, excaps, src, m, ist).value).value.0;
      WellSized(ist2) && DecodeIssueIrqHandler(args2, excaps2, src, InvokeIrqControl(ist, m, DecodeIssueIrqHandler(args, excaps, src, m, ist).value).value.1, ist2)
        == Failure(Syscall(RevokeFirst))
  {
  }

  // ---------------------------------------------------------------------
  // IRQ handler invocations.

  datatype HandlerLabel = AckIrqLabel | SetIrqHandlerLabel | ClearIrqHandlerLabel | OtherHandlerLabel

  /** A decoded IRQ-handler invocation; `SetHandler` carries the cap and the slot it is copied from. */
  datatype HandlerInvocation =
    | AckIrq(irq: nat)
    | SetHandler(irq: nat, cap: Cap, slot: nat)
    | ClearHandler(irq: nat)

  /**
   * `decodeIRQHandlerInvocation`.  `excaps` are the slots of the extra
   * caps; setting a handler needs the first to hold a notification cap
   * with the right to send.
   */
  function DecodeIrqHandler(op: HandlerLabel, irq: nat, excaps: seq<nat>, m: Cdt): (r: Result<HandlerInvocation, SyscallError>)
    ensures op.AckIrqLabel? ==> r == Success(AckIrq(irq))
    ensures op.ClearIrqHandlerLabel? ==> r == Success(ClearHandler(irq))
    ensures op.OtherHandlerLabel? ==> r == Failure(IllegalOperation)
    ensures op.SetIrqHandlerLabel? && excaps == [] ==> r == Failure(TruncatedMessage)
    ensures op.SetIrqHandlerLabel? && excaps != [] ==>
      (r.Success? <==> CapIn(m, excaps[0]).NotificationCap? && CapIn(m, excaps[0]).canSend)
      && (r.Failure? ==> r.error == InvalidCapability(0))
    ensures r.Success? && r.value.SetHandler? ==> r.value.cap.NotificationCap? && r.value.cap.canSend && r.value.irq == irq
  {
    match op
    case AckIrqLabel => Success(AckIrq(irq))
    case SetIrqHandlerLabel =>
      if excaps == [] then Failure(TruncatedMessage)
      else
        var c := CapIn(m, excaps[0]);
        if !c.NotificationCap? || !c.canSend then Failure(InvalidCapability(0))
        else Success(SetHandler(irq, c, excaps[0]))
    case ClearIrqHandlerLabel => Success(ClearHandler(irq))
    case OtherHandlerLabel => Failure(IllegalOperation)
  }

  /**
   * The IRQ-handler invocations: acknowledging unmasks the IRQ; setting a
   * handler replaces the IRQ's node cap by the notification cap; clearing
   * empties it.
   */
  function InvokeIrqHandler(ist: IntState, inv: HandlerInvocation): (r: IntState)
    requires inv.irq < |ist.node|
    ensures r.table == ist.table && r.acks == ist.acks && |r.node| == |ist.node|
    ensures inv.AckIrq? ==> r.node == ist.node && inv.irq !in r.masked
    ensures !inv.AckIrq? ==> r.masked == ist.masked
    ensures inv.SetHandler? ==> r.node[inv.irq] == inv.cap
    ensures inv.ClearHandler? ==> r.node[inv.irq] == NullCap
    ensures forall j :: 0 <= j < |ist.node| && j != inv.irq ==> r.node[j] == ist.node[j]
  {
    match inv
    case AckIrq(irq) => MaskInterrupt(ist, false, irq)
    case SetHandler(irq, c, _) => ist.(node := ist.node[irq := c])
    case ClearHandler(irq) => ist.(node := ist.node[irq := NullCap])
  }

  /** A handler set and then cleared leaves the IRQ's node slot empty, whatever it held before. */
  lemma SetThenClearHandler(ist: IntState, irq: nat, c: Cap, slot: nat)
    requires irq < |ist.node|
    ensures var r := InvokeIrqHandler(InvokeIrqHandler(ist, SetHandler(irq, c, slot)), ClearHandler(irq));
      r == ist.(node := ist.node[irq := NullCap])
  {
  }

  // ---------------------------------------------------------------------
  // Interrupt delivery.

  /** Every notification cap in the IRQ node names a notification object. */
  predicate NodeOk(s: Sys, ist: IntState)
  {
    forall j :: 0 <= j < |ist.node| && ist.node[j].NotificationCap? ==> ist.node[j].ptr as int in s.ntfns
  }

  /** The cap the IRQ signals, if it is a notification cap with the right to send. */
  predicate Sendable(c: Cap)
  {
    c.NotificationCap? && c.canSend
  }

  /**
   * `handleInterrupt` (non-MCS, uniprocessor): an IRQ above `maxIRQ` is
   * masked and acknowledged and nothing else happens.  A signalling IRQ
   * signals its notification, if its node cap may send, and is masked
   * until the handler acknowledges it; a timer IRQ ticks the scheduler; a
   * reserved IRQ is left to the platform; an inactive IRQ is masked again.
   * Every path acknowledges the IRQ.
   */
  function HandleInterrupt(s: Sys, ist: IntState, irq: nat): (r: (Sys, IntState))
    requires SchedOk(s) && IpcOk(s) && WellSized(ist) && NodeOk(s, ist)
    ensures SchedOk(r.0) && r.0.threads.Keys == s.threads.Keys
    ensures r.1 == ist.(masked := r.1.masked, acks := ist.acks + [irq])
    ensures irq in r.1.masked <==> irq in ist.masked || irq > MaxIrq(ist) || ist.table[irq] == IrqSignal || ist.table[irq] == IrqInactive
    ensures forall j :: j != irq ==> (j in r.1.masked <==> j in ist.masked)
    ensures irq > MaxIrq(ist) || ist.table[irq] == IrqInactive || ist.table[irq] == IrqReserved ==> r.0 == s
    ensures irq <= MaxIrq(ist) && ist.table[irq] == IrqSignal && !Sendable(ist.node[irq]) ==> r.0 == s
    ensures irq <= MaxIrq(ist) && ist.table[irq] == IrqTimer ==> r.0 == TimerTick(s)
  {
    if irq > MaxIrq(ist) then
      (s, AckInterrupt(MaskInterrupt(ist, true, irq), irq))
    else
      match ist.table[irq]
      case IrqSignal =>
        var c := ist.node[irq];
        var s2 := if Sendable(c) then IpcOkSignalOk(s, c.ptr as int); SendSignal(s, c.ptr as int, c.badge) else s;
        (s2, AckInterrupt(MaskInterrupt(ist, true, irq), irq))
      case IrqTimer => (TimerTick(s), AckInterrupt(ist, irq))
      case IrqReserved => (s, AckInterrupt(ist, irq))
      case IrqInactive => (s, AckInterrupt(MaskInterrupt(ist, true, irq), irq))
  }

  /** A signalling IRQ whose node cap may send delivers that cap's badge to its notification. */
  lemma InterruptSignals(s: Sys, ist: IntState, irq: nat)
    requires SchedOk(s) && IpcOk(s) && WellSized(ist) && NodeOk(s, ist)
    requires irq <= MaxIrq(ist) && ist.table[irq] == IrqSignal && Sendable(ist.node[irq])
    ensures var c := ist.node[irq];
      c.ptr as int in s.ntfns && SignalOk(s, c.ptr as int)
      && HandleInterrupt(s, ist, irq).0 == SendSignal(s, c.ptr as int, c.badge)
  {
    IpcOkSignalOk(s, ist.node[irq].ptr as int);
  }

  /** An interrupt keeps the IPC invariant. */
  lemma HandleInterruptKeepsIpcOk(s: Sys, ist: IntState, irq: nat)
    requires SchedOk(s) && IpcOk(s) && WellSized(ist) && NodeOk(s, ist)
    ensures IpcOk(HandleInterrupt(s, ist, irq).0)
  {
    if irq <= MaxIrq(ist) {
      if ist.table[irq] == IrqSignal && Sendable(ist.node[irq]) {
        InterruptSignals(s, ist, irq);
        SendSignalKeepsIpcOk(s, ist.node[irq].ptr as int, ist.node[irq].badge);
      } else if ist.table[irq] == IrqTimer {
        TimerTickKeeps(s);
      }
    }
  }

  /** An interrupt keeps inactive IRQs masked. */
  lemma HandleInterruptKeepsInactiveMasked(s: Sys, ist: IntState, irq: nat)
    requires SchedOk(s) && IpcOk(s) && WellSized(ist) && NodeOk(s, ist) && InactiveMasked(ist)
    ensures InactiveMasked(HandleInterrupt(s, ist, irq).1)
  {
  }

  /**
   * A signalling IRQ stays masked from its delivery until its handler
   * acknowledges it; the acknowledgement unmasks it and touches nothing
   * else in the tables.
   */
  lemma SignalMaskedUntilAck(s: Sys, ist: IntState, irq: nat)
    requires SchedOk(s) && IpcOk(s) && WellSized(ist) && NodeOk(s, ist)
    requires irq <= MaxIrq(ist) && ist.table[irq] == IrqSignal
    ensures var ist2 := HandleInterrupt(s, ist, irq).1;
      irq in ist2.masked && irq < |ist2.node|
      && var ist3 := InvokeIrqHandler(ist2, AckIrq(irq));
      irq !in ist3.masked && ist3.table == ist.table && ist3.node == ist.node
  {
  }
}
