/**
 * Decoding of CNode invocations (`decodeCNodeInvocation`): the checks a
 * message must pass, in the order the kernel makes them, before a copy,
 * mint, move, mutate, rotate, revoke, delete, save-caller or
 * cancel-badged-sends is carried out on the slot table.
 */
module CNodeDecode {
  import opened Wrappers
  import opened Sel4Words
  import opened Sel4Errors
  import opened Capabilities
  import opened CSpace
  import opened Mdb

  /** The CNode invocation labels, from `CNodeRevoke` to `CNodeSaveCaller`, and any label outside that range. */
  datatype Label =
    | RevokeLabel
    | DeleteLabel
    | CancelBadgedSendsLabel
    | CopyLabel
    | MintLabel
    | MoveLabel
    | MutateLabel
    | RotateLabel
    | SaveCallerLabel
    | OtherLabel

  /** What a decoded message asks the kernel to do. */
  datatype Invocation =
    | InsertInvocation(newCap: Cap, src: nat, dest: nat)
    | MoveInvocation(newCap: Cap, src: nat, dest: nat)
    | RevokeInvocation(dest: nat)
    | DeleteInvocation(dest: nat)
    | SaveCallerInvocation(dest: nat)
    | CancelBadgedSendsInvocation(epCap: Cap)
    | RotateInvocation(cap1: Cap, cap2: Cap, slot1: nat, slot2: nat, slot3: nat)

  /** The caps of the slot table, as address resolution reads them. */
  function CapTable(m: Cdt): (s: Slots)
    ensures forall a: Word :: CapAt(s, a) == CapIn(m, a as int)
  {
    map a | a in m :: m[a].cap
  }

  function Syscall(e: SyscallError): Exception
  {
    SyscallErrorException(e)
  }

  /** The label's own checks for copy, mint, move and mutate: the cap that ends in the destination, and whether it moves. */
  function TransferCap(op: Label, args: seq<Word>, m: Cdt, src: nat): (r: Result<(Cap, bool), Exception>)
    requires op.CopyLabel? || op.MintLabel? || op.MoveLabel? || op.MutateLabel?
    ensures r.Success? ==> (r.value.1 <==> op.MoveLabel? || op.MutateLabel?)
    ensures r.Failure? ==> r.error.SyscallErrorException?
  {
    var srcCap := CapIn(m, src);
    var hasChildren := src in m && EnsureNoChildren(m, src).Failure?;
    if op.CopyLabel? then
      if |args| < 5 then Failure(Syscall(TruncatedMessage))
      else
        match DeriveCap(hasChildren, MaskCapRights(RightsFromWord(args[4]), srcCap))
        case Failure(e) => Failure(Syscall(e))
        case Success(c) => Success((c, false))
    else if op.MintLabel? then
      if |args| < 6 then Failure(Syscall(TruncatedMessage))
      else
        match DeriveCap(hasChildren, UpdateCapData(false, args[5], MaskCapRights(RightsFromWord(args[4]), srcCap)))
        case Failure(e) => Failure(Syscall(e))
        case Success(c) => Success((c, false))
    else if op.MoveLabel? then Success((srcCap, true))
    else if |args| < 5 then Failure(Syscall(TruncatedMessage))
    else Success((UpdateCapData(true, args[4], srcCap), true))
  }

  /**
   * Copy, mint, move and mutate: a short message or a missing source root
   * is truncated; then the destination must be empty, the source must
   * resolve and hold a cap, and the cap the label makes of it must not be
   * null.
   */
  function DecodeTransfer(op: Label, args: seq<Word>, excaps: seq<Cap>, m: Cdt, dest: nat): (r: Result<Invocation, Exception>)
    requires op.CopyLabel? || op.MintLabel? || op.MoveLabel? || op.MutateLabel?
    ensures r.Success? ==> r.value.InsertInvocation? || r.value.MoveInvocation?
    ensures r.Success? ==> r.value.dest == dest && Admissible(r.value, m)
    ensures r.Success? ==> (r.value.MoveInvocation? <==> op.MoveLabel? || op.MutateLabel?)
  {
    if |args| < 4 || |excaps| < 1 then Failure(Syscall(TruncatedMessage))
    else if EnsureEmptySlot(CteIn(m, dest)).Failure? then Failure(Syscall(DeleteFirst))
    else
      match LookupSlotForCNodeOp(true, CapTable(m), excaps[0], args[2], args[3])
      case Failure(e) => Failure(e)
      case Success(w) =>
        var src := w as int;
        if CapIn(m, src).NullCap? then Failure(Syscall(FailedLookup(true, MissingCapability(args[3] as int))))
        else
          match TransferCap(op, args, m, src)
          case Failure(e) => Failure(e)
          case Success((newCap, isMove)) =>
            if newCap.NullCap? then Failure(Syscall(IllegalOperation))
            else if isMove then Success(MoveInvocation(newCap, src, dest))
            else Success(InsertInvocation(newCap, src, dest))
  }

  /**
   * What `Admissible` demands of a rotation: the pivot apart from the other
   * two slots, the destination empty unless it is the source, source and
   * pivot holding caps, and two non-null caps to put in place.
   */
  predicate RotateAdmissible(m: Cdt, cap1: Cap, cap2: Cap, slot1: nat, slot2: nat, slot3: nat)
  {
    slot2 != slot1 && slot2 != slot3
    && (slot1 != slot3 ==> CapIn(m, slot3).NullCap?)
    && !CapIn(m, slot1).NullCap? && !CapIn(m, slot2).NullCap?
    && !cap1.NullCap? && !cap2.NullCap?
  }

  /**
   * The checks of a rotation once its source and pivot slots are found:
   * the pivot must differ from both other slots; the destination must be
   * empty unless it is the source; source and pivot must hold caps, and
   * their updated caps must not be null.  `pivotWasSource` is what a null
   * pivot is reported as.
   */
  function RotateChecks(pivotWasSource: bool, args: seq<Word>, m: Cdt, src: nat, pivot: nat, dest: nat): (r: Result<Invocation, Exception>)
    requires |args| >= 8
    ensures r.Success? ==>
              r.value.RotateInvocation? && r.value.slot1 == src && r.value.slot2 == pivot && r.value.slot3 == dest
              && RotateAdmissible(m, r.value.cap1, r.value.cap2, src, pivot, dest)
  {
    if pivot == src || pivot == dest then Failure(Syscall(IllegalOperation))
    else if src != dest && EnsureEmptySlot(CteIn(m, dest)).Failure? then Failure(Syscall(DeleteFirst))
    else if CapIn(m, src).NullCap? then Failure(Syscall(FailedLookup(true, MissingCapability(args[7] as int))))
    else if CapIn(m, pivot).NullCap? then Failure(Syscall(FailedLookup(pivotWasSource, MissingCapability(args[4] as int))))
    else
      var newSrcCap := UpdateCapData(true, args[5], CapIn(m, src));
      var newPivotCap := UpdateCapData(true, args[2], CapIn(m, pivot));
      if newSrcCap.NullCap? then Failure(Syscall(IllegalOperation))
      else if newPivotCap.NullCap? then Failure(Syscall(IllegalOperation))
      else Success(RotateInvocation(newSrcCap, newPivotCap, src, pivot, dest))
  }

  /**
   * Rotate: a message shorter than eight words or missing either root is
   * truncated; the source is resolved from the second extra cap, then the
   * pivot from the first, and then the slots are checked.  Both lookups
   * report their failures as failures on the source side
   * (`lookupSourceSlot` and `lookupPivotSlot`).
   */
  function DecodeRotateWith(pivotWasSource: bool, args: seq<Word>, excaps: seq<Cap>, m: Cdt, dest: nat): (r: Result<Invocation, Exception>)
  {
    if |args| < 8 || |excaps| < 2 then Failure(Syscall(TruncatedMessage))
    else
      match LookupSlotForCNodeOp(true, CapTable(m), excaps[1], args[6], args[7])
      case Failure(e) => Failure(e)
      case Success(sw) =>
        match LookupSlotForCNodeOp(true, CapTable(m), excaps[0], args[3], args[4])
        case Failure(e) => Failure(e)
        case Success(pw) => RotateChecks(pivotWasSource, args, m, sw as int, pw as int, dest)
  }

  /** Rotate as `cnode.c` decodes it: a null pivot is a failed lookup of a slot that is not the source. */
  function DecodeRotate(args: seq<Word>, excaps: seq<Cap>, m: Cdt, dest: nat): (r: Result<Invocation, Exception>)
    ensures r.Success? ==>
              r.value.RotateInvocation? && r.value.slot3 == dest
              && RotateAdmissible(m, r.value.cap1, r.value.cap2, r.value.slot1, r.value.slot2, r.value.slot3)
  {
    DecodeRotateWith(false, args, excaps, m, dest)
  }

  /** A pivot root that is not a CNode is a failed lookup on the source side, like every failed lookup of the source slot. */
  lemma RotatePivotRootBlamesSource(args: seq<Word>, excaps: seq<Cap>, m: Cdt, dest: nat)
    requires |args| >= 8 && |excaps| >= 2 && !excaps[0].CNodeCap?
    requires LookupSlotForCNodeOp(true, CapTable(m), excaps[1], args[6], args[7]).Success?
    ensures DecodeRotate(args, excaps, m, dest) == Failure(Syscall(FailedLookup(true, InvalidRoot)))
  {
    var p := LookupSlotForCNodeOp(true, CapTable(m), excaps[0], args[3], args[4]);
    assert p == Failure(Syscall(FailedLookup(true, InvalidRoot)));
  }

  /**
   * Both slot lookups of a rotation report their failures on the source
   * side: the only failed lookup a rotation blames on another slot is an
   * empty pivot.
   */
  lemma RotateBlamesPivotOnlyWhenEmpty(args: seq<Word>, excaps: seq<Cap>, m: Cdt, dest: nat)
    ensures var r := DecodeRotate(args, excaps, m, dest);
            (r.Failure? && r.error.SyscallErrorException? && r.error.error.FailedLookup? && !r.error.error.wasSource)
            ==> |args| >= 8 && r.error.error.fault == MissingCapability(args[4] as int)
  {
    var r := DecodeRotate(args, excaps, m, dest);
    if |args| >= 8 && |excaps| >= 2 {
      var s := LookupSlotForCNodeOp(true, CapTable(m), excaps[1], args[6], args[7]);
      var p := LookupSlotForCNodeOp(true, CapTable(m), excaps[0], args[3], args[4]);
      if s.Failure? {
        assert r == Failure(s.error);
      } else if p.Failure? {
        assert r == Failure(p.error);
      } else {
        assert r == RotateChecks(false, args, m, s.value as int, p.value as int, dest);
        ChecksBlamePivotOnlyWhenEmpty(args, m, s.value as int, p.value as int, dest);
      }
    }
  }

  /** The slot checks blame a slot other than the source only for an empty pivot. */
  lemma ChecksBlamePivotOnlyWhenEmpty(args: seq<Word>, m: Cdt, src: nat, pivot: nat, dest: nat)
    requires |args| >= 8
    ensures var r := RotateChecks(false, args, m, src, pivot, dest);
            (r.Failure? && r.error.SyscallErrorException? && r.error.error.FailedLookup? && !r.error.error.wasSource)
            ==> r.error.error.fault == MissingCapability(args[4] as int)
  {
  }

  /** Rotate as `CNode.rs` decodes it: a null pivot is reported as a failed lookup of the source. */
  function DecodeRotateAsWritten(args: seq<Word>, excaps: seq<Cap>, m: Cdt, dest: nat): Result<Invocation, Exception>
  {
    DecodeRotateWith(true, args, excaps, m, dest)
  }

  /** Once the slots are found, the two rotation checks differ only in whom they blame for an empty pivot. */
  lemma RotateChecksDiffer(args: seq<Word>, m: Cdt, src: nat, pivot: nat, dest: nat)
    requires |args| >= 8
    ensures var c := RotateChecks(false, args, m, src, pivot, dest);
            var w := RotateChecks(true, args, m, src, pivot, dest);
            c != w ==> c == Failure(Syscall(FailedLookup(false, MissingCapability(args[4] as int))))
                       && w == Failure(Syscall(FailedLookup(true, MissingCapability(args[4] as int))))
  {
  }

  /**
   * The Rust decoder blames the source when the pivot slot is empty; the
   * kernel reports the pivot.  The two decoders differ on nothing else.
   */
  lemma RotateAsWrittenBlamesSource(args: seq<Word>, excaps: seq<Cap>, m: Cdt, dest: nat)
    ensures var c := DecodeRotate(args, excaps, m, dest);
            var w := DecodeRotateAsWritten(args, excaps, m, dest);
            c != w ==>
              |args| >= 8
              && c == Failure(Syscall(FailedLookup(false, MissingCapability(args[4] as int))))
              && w == Failure(Syscall(FailedLookup(true, MissingCapability(args[4] as int))))
  {
    if |args| >= 8 && |excaps| >= 2 {
      var s := LookupSlotForCNodeOp(true, CapTable(m), excaps[1], args[6], args[7]);
      var p := LookupSlotForCNodeOp(true, CapTable(m), excaps[0], args[3], args[4]);
      if s.Success? && p.Success? {
        RotateChecksDiffer(args, m, s.value as int, p.value as int, dest);
      }
    }
  }

  /** Rotating a thread cap through an empty pivot slot: the kernel and the Rust decoder report different slots. */
  lemma EmptyPivotReportedDifferently()
    ensures var m := map[1 := Cte(ThreadCap(0), NULL_MDB), 2 := Cte(NullCap, NULL_MDB)];
            var args := [0, 0, 0, 0, 7, 0, 0, 7];
            RotateChecks(false, args, m, 1, 2, 1) == Failure(Syscall(FailedLookup(false, MissingCapability(7))))
            && RotateChecks(true, args, m, 1, 2, 1) == Failure(Syscall(FailedLookup(true, MissingCapability(7))))
  {
  }

  /**
   * The conditions a decoded invocation meets on the slot table it was
   * decoded against: what the kernel's invoke functions rely on.
   */
  predicate Admissible(inv: Invocation, m: Cdt)
  {
    match inv
    case InsertInvocation(c, src, dest) => CapIn(m, dest).NullCap? && !CapIn(m, src).NullCap? && !c.NullCap?
    case MoveInvocation(c, src, dest) => CapIn(m, dest).NullCap? && !CapIn(m, src).NullCap? && !c.NullCap?
    case SaveCallerInvocation(dest) => CapIn(m, dest).NullCap?
    case CancelBadgedSendsInvocation(c) => HasCancelSendRights(c)
    case RotateInvocation(cap1, cap2, slot1, slot2, slot3) => RotateAdmissible(m, cap1, cap2, slot1, slot2, slot3)
    case _ => true
  }

  /** The checks each label makes once the target slot `dest` is found. */
  function DecodeForSlot(op: Label, args: seq<Word>, excaps: seq<Cap>, m: Cdt, dest: nat): (r: Result<Invocation, Exception>)
    requires !op.OtherLabel? && |args| >= 2
    ensures r.Success? ==> Admissible(r.value, m)
    ensures r.Success? ==> ((r.value.InsertInvocation? || r.value.MoveInvocation?) <==> op.CopyLabel? || op.MintLabel? || op.MoveLabel? || op.MutateLabel?)
    ensures r.Success? && r.value.MoveInvocation? ==> op.MoveLabel? || op.MutateLabel?
    ensures r.Success? && r.value.RotateInvocation? ==> op.RotateLabel?
  {
    match op
    case CopyLabel => DecodeTransfer(op, args, excaps, m, dest)
    case MintLabel => DecodeTransfer(op, args, excaps, m, dest)
    case MoveLabel => DecodeTransfer(op, args, excaps, m, dest)
    case MutateLabel => DecodeTransfer(op, args, excaps, m, dest)
    case RevokeLabel => Success(RevokeInvocation(dest))
    case DeleteLabel => Success(DeleteInvocation(dest))
    case SaveCallerLabel =>
      if EnsureEmptySlot(CteIn(m, dest)).Failure? then Failure(Syscall(DeleteFirst))
      else Success(SaveCallerInvocation(dest))
    case CancelBadgedSendsLabel =>
      if !HasCancelSendRights(CapIn(m, dest)) then Failure(Syscall(IllegalOperation))
      else Success(CancelBadgedSendsInvocation(CapIn(m, dest)))
    case RotateLabel => DecodeRotate(args, excaps, m, dest)
  }

  /**
   * `decodeCNodeInvocation`: a label outside the CNode range is an illegal
   * operation and a message shorter than two words is truncated, both
   * before any lookup; then the target slot is resolved from the invoked
   * CNode, and each label makes its own checks.  The invoked cap not being
   * a CNode trips the kernel's assertion.
   */
  function DecodeCNodeInvocation(op: Label, args: seq<Word>, cap: Cap, excaps: seq<Cap>, m: Cdt): (r: Result<Invocation, Exception>)
    ensures !cap.CNodeCap? ==> r == Failure(KernelHalt)
    ensures cap.CNodeCap? && op.OtherLabel? ==> r == Failure(Syscall(IllegalOperation))
    ensures cap.CNodeCap? && !op.OtherLabel? && |args| < 2 ==> r == Failure(Syscall(TruncatedMessage))
    ensures r.Success? ==>
              |args| >= 2 && LookupSlotForCNodeOp(false, CapTable(m), cap, args[0], args[1]).Success?
              && r == DecodeForSlot(op, args, excaps, m, LookupSlotForCNodeOp(false, CapTable(m), cap, args[0], args[1]).value as int)
  {
    if !cap.CNodeCap? then Failure(KernelHalt)
    else if op.OtherLabel? then Failure(Syscall(IllegalOperation))
    else if |args| < 2 then Failure(Syscall(TruncatedMessage))
    else
      match LookupSlotForCNodeOp(false, CapTable(m), cap, args[0], args[1])
      case Failure(e) => Failure(e)
      case Success(w) => DecodeForSlot(op, args, excaps, m, w as int)
  }

  /** Whatever a decoded invocation asks for, the slot table it was decoded against admits it. */
  lemma DecodedIsAdmissible(op: Label, args: seq<Word>, cap: Cap, excaps: seq<Cap>, m: Cdt)
    requires DecodeCNodeInvocation(op, args, cap, excaps, m).Success?
    ensures Admissible(DecodeCNodeInvocation(op, args, cap, excaps, m).value, m)
    ensures var inv := DecodeCNodeInvocation(op, args, cap, excaps, m).value;
            (inv.InsertInvocation? ==> op.CopyLabel? || op.MintLabel?)
            && (inv.MoveInvocation? ==> op.MoveLabel? || op.MutateLabel?)
            && (inv.RotateInvocation? ==> op.RotateLabel?)
  {
  }

  /** Every slot of the table sits apart from its neighbours, as in a list without cycles. */
  predicate AllSeparate(m: Cdt)
  {
    forall a | a in m :: Separate(m, a)
  }

  /**
   * A decoded copy or mint carries out an insertion that keeps the mapping
   * database well formed and puts the new cap in the addressed destination.
   */
  lemma AdmissibleInsertKeepsLinked(inv: Invocation, m: Cdt)
    requires Linked(m) && AllSeparate(m)
    requires inv.InsertInvocation? && inv.src in m && inv.dest in m && Admissible(inv, m)
    ensures var r := CteInsert(inv.newCap, inv.src, inv.dest, m);
            r.Some? && Linked(r.value) && r.value[inv.dest].cap == inv.newCap
  {
    assert NodeLinked(m, inv.dest);
    InsertKeepsLinked(inv.newCap, inv.src, inv.dest, m);
  }

  /**
   * A decoded move or mutate carries out a move that keeps the mapping
   * database well formed and leaves the source empty.
   */
  lemma AdmissibleMoveKeepsLinked(inv: Invocation, m: Cdt)
    requires Linked(m) && AllSeparate(m)
    requires inv.MoveInvocation? && inv.src in m && inv.dest in m && Admissible(inv, m)
    ensures var r := CteMove(inv.newCap, inv.src, inv.dest, m);
            r.Some? && Linked(r.value) && r.value[inv.dest].cap == inv.newCap && r.value[inv.src].cap == NullCap
  {
    assert NodeLinked(m, inv.dest);
    MoveKeepsLinked(inv.newCap, inv.src, inv.dest, m);
  }

  /** A decoded rotation keeps the mapping database well formed and puts the updated caps where the rotation sends them. */
  lemma AdmissibleRotateKeepsLinked(inv: Invocation, m: Cdt)
    requires Linked(m) && AllSeparate(m)
    requires inv.RotateInvocation? && inv.slot1 in m && inv.slot2 in m && inv.slot3 in m && Admissible(inv, m)
    ensures var r := InvokeCNodeRotate(inv.cap1, inv.cap2, inv.slot1, inv.slot2, inv.slot3, m);
            r.Some? && Linked(r.value) && r.value[inv.slot2].cap == inv.cap1 && r.value[inv.slot3].cap == inv.cap2
  {
    assert NodeLinked(m, inv.slot3);
    RotateKeepsLinked(inv.cap1, inv.cap2, inv.slot1, inv.slot2, inv.slot3, m);
  }

  /**
   * The destination is checked before the source: a copy, mint, move or
   * mutate into an occupied slot fails with `DeleteFirst` whatever the
   * source words say.
   */
  lemma OccupiedDestinationFirst(op: Label, args: seq<Word>, cap: Cap, excaps: seq<Cap>, m: Cdt)
    requires op.CopyLabel? || op.MintLabel? || op.MoveLabel? || op.MutateLabel?
    requires |args| >= 4 && |excaps| >= 1 && cap.CNodeCap?
    requires var t := LookupSlotForCNodeOp(false, CapTable(m), cap, args[0], args[1]);
             t.Success? && !CapIn(m, t.value as int).NullCap?
    ensures DecodeCNodeInvocation(op, args, cap, excaps, m) == Failure(Syscall(DeleteFirst))
  {
  }
}
