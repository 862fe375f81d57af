/**
 * Guarded address resolution in a thread's capability space (`cspace.c`,
 * `CSpace.rs`).  A capability address is read from its most significant
 * end: each CNode on the way strips its guard and then uses its radix
 * bits as an index into its slots, and resolution stops when the bits are
 * used up or the indexed slot does not hold another CNode.
 *
 * Bit counts are numbers here: the kernel's counts never exceed the word
 * size, and a CNode's radix and guard size are six-bit fields.
 */
module CSpace {
  import opened Wrappers
  import opened Sel4Words
  import opened Sel4Errors
  import opened Capabilities

  /**
   * The kernel's capability slots by address, an address being the number
   * a word holds; memory outside the map reads as a null cap.
   */
  type Slots = map<nat, Cap>

  function CapAt(s: Slots, a: Word): Cap
  {
    if a as int in s then s[a as int] else NullCap
  }

  /** A resolved slot, and how many address bits were left when a non-CNode cap stopped the walk. */
  datatype Resolved = Resolved(slot: Word, bitsRemaining: nat)

  /** The address of slot `index` of a CNode at `ptr` (`CTE_PTR(ptr) + offset`). */
  function SlotOf(ptr: Word, index: Word): Word
  {
    ptr + (index << CTE_SIZE_BITS)
  }

  /** What one level of resolution does: fail, finish at a slot, or go on into the cap found there. */
  datatype Step =
    | Fault(exc: Exception)
    | Done(res: Resolved)
    | Descend(next: Cap, at: Word, bitsLeft: nat)

  /**
   * One turn of the resolution loop as `CSpace.rs` writes it.  Of the
   * `nBits` low bits of `capptr` still to resolve, the top `guardSize` must
   * equal the CNode's guard (a guard longer than the bits left fails too),
   * the whole level must fit, and the next `radix` bits index the CNode;
   * the indexed slot ends the walk when no bits are left and is entered
   * otherwise.
   */
  function LevelStepAsWritten(slots: Slots, node: Cap, capptr: Word, nBits: nat): (r: Step)
    requires node.CNodeCap? && nBits <= 64
    ensures r.Descend? ==> node.radix as int + node.guardSize as int < nBits
                           && r.bitsLeft == nBits - (node.radix as int + node.guardSize as int)
    ensures r.Done? ==> r.res.bitsRemaining == 0 && nBits == node.radix as int + node.guardSize as int
    ensures r.Fault? ==> r.exc.LookupFaultException? && (r.exc.fault.GuardMismatch? || r.exc.fault.DepthMismatch?)
  {
    var guardBits := node.guardSize as int;
    var levelBits := node.radix as int + guardBits;
    if guardBits > nBits || Field(capptr, nBits - guardBits, guardBits) != node.guard as int then
      Fault(LookupFaultException(GuardMismatch(node.guard, nBits, guardBits)))
    else if levelBits > nBits then
      Fault(LookupFaultException(DepthMismatch(levelBits, nBits)))
    else
      IndexLevel(slots, node, capptr, nBits)
  }

  /** The indexing half of a level, once the guard has matched and the level fits in the bits left. */
  function IndexLevel(slots: Slots, node: Cap, capptr: Word, nBits: nat): (r: Step)
    requires node.CNodeCap? && node.radix as int + node.guardSize as int <= nBits <= 64
    ensures r.Descend? || r.Done?
    ensures r.Descend? ==> r.bitsLeft == nBits - (node.radix as int + node.guardSize as int) > 0
    ensures r.Done? ==> r.res.bitsRemaining == 0 && nBits == node.radix as int + node.guardSize as int
  {
    var levelBits := node.radix as int + node.guardSize as int;
    var slot := SlotOf(node.ptr, FieldWord(capptr, nBits - levelBits, node.radix as int));
    if nBits <= levelBits then Done(Resolved(slot, 0))
    else Descend(CapAt(slots, slot), slot, nBits - levelBits)
  }

  /**
   * One turn of the loop as `cspace.c` writes it: the same, after the
   * assertion that every CNode resolves at least one bit.  That assertion
   * is what makes the walk terminate.
   */
  function LevelStep(slots: Slots, node: Cap, capptr: Word, nBits: nat): (r: Step)
    requires node.CNodeCap? && nBits <= 64
    ensures r.Descend? ==> r.bitsLeft < nBits
    ensures r.Fault? && r.exc == KernelHalt <==> node.radix as int + node.guardSize as int == 0
  {
    if node.radix as int + node.guardSize as int == 0 then Fault(KernelHalt)
    else LevelStepAsWritten(slots, node, capptr, nBits)
  }

  /** The walk from a CNode cap, level by level, until a slot is reached or a fault stops it. */
  function ResolveFrom(slots: Slots, node: Cap, capptr: Word, nBits: nat): Result<Resolved, Exception>
    requires node.CNodeCap? && nBits <= 64
    decreases nBits
  {
    match LevelStep(slots, node, capptr, nBits)
    case Fault(e) => Failure(e)
    case Done(r) => Success(r)
    case Descend(next, slot, left) =>
      if next.CNodeCap? then ResolveFrom(slots, next, capptr, left)
      else Success(Resolved(slot, left))
  }

  /** `resolveAddressBits`: resolve the low `nBits` bits of `capptr` from `nodeCap`. */
  function ResolveAddressBits(slots: Slots, nodeCap: Cap, capptr: Word, nBits: nat): Result<Resolved, Exception>
    requires nBits <= 64
  {
    if !nodeCap.CNodeCap? then Failure(LookupFaultException(InvalidRoot))
    else ResolveFrom(slots, nodeCap, capptr, nBits)
  }

  /**
   * Every walk ends consistently: a resolved slot used at least one bit,
   * and either used all of them or stopped at a slot holding no CNode; a
   * failure is a guard or depth fault, or the halt on a CNode that
   * resolves no bits.
   */
  lemma {:induction false} ResolveFromOutcome(slots: Slots, node: Cap, capptr: Word, nBits: nat)
    requires node.CNodeCap? && nBits <= 64
    ensures var r := ResolveFrom(slots, node, capptr, nBits);
            (r.Success? ==> r.value.bitsRemaining < nBits
                            && (r.value.bitsRemaining != 0 ==> !CapAt(slots, r.value.slot).CNodeCap?))
            && (r.Failure? ==> r.error == KernelHalt
                               || (r.error.LookupFaultException? && (r.error.fault.GuardMismatch? || r.error.fault.DepthMismatch?)))
    decreases nBits
  {
    match LevelStep(slots, node, capptr, nBits)
    case Fault(e) =>
    case Done(r) =>
    case Descend(next, slot, left) =>
      if next.CNodeCap? {
        ResolveFromOutcome(slots, next, capptr, left);
      }
  }

  /** The root of a walk must be a CNode cap, and only a non-CNode root gives the invalid-root fault. */
  lemma ResolveRoot(slots: Slots, nodeCap: Cap, capptr: Word, nBits: nat)
    requires nBits <= 64
    ensures var r := ResolveAddressBits(slots, nodeCap, capptr, nBits);
            (r == Failure(LookupFaultException(InvalidRoot)) <==> !nodeCap.CNodeCap?)
            && (r.Success? ==> r.value.bitsRemaining < nBits
                               && (r.value.bitsRemaining != 0 ==> !CapAt(slots, r.value.slot).CNodeCap?))
  {
    if nodeCap.CNodeCap? {
      ResolveFromOutcome(slots, nodeCap, capptr, nBits);
    }
  }

  /**
   * An address made of a CNode's guard followed by a slot index, resolved
   * with exactly guard-plus-radix bits, comes back as that slot with no
   * bits left, whenever the guard and the index fit their widths.
   */
  lemma AddressResolvesToSlot(slots: Slots, ptr: Word, radix: Word, guardSize: Word, guard: Word, index: Word, capptr: Word)
    requires radix < 64 && guardSize < 64 && 0 < radix as int + guardSize as int <= 64
    requires guard as int < Pow2(guardSize as int) && index as int < Pow2(radix as int)
    requires capptr as int == guard as int * Pow2(radix as int) + index as int
    ensures ResolveAddressBits(slots, CNodeCap(ptr, radix, guardSize, guard), capptr, radix as int + guardSize as int)
            == Success(Resolved(SlotOf(ptr, index), 0))
  {
    OneLevelStep(slots, ptr, radix, guardSize, guard, index, capptr);
  }

  /** The single step behind `AddressResolvesToSlot`. */
  lemma OneLevelStep(slots: Slots, ptr: Word, radix: Word, guardSize: Word, guard: Word, index: Word, capptr: Word)
    requires radix < 64 && guardSize < 64 && 0 < radix as int + guardSize as int <= 64
    requires guard as int < Pow2(guardSize as int) && index as int < Pow2(radix as int)
    requires capptr as int == guard as int * Pow2(radix as int) + index as int
    ensures LevelStepAsWritten(slots, CNodeCap(ptr, radix, guardSize, guard), capptr, radix as int + guardSize as int)
            == Done(Resolved(SlotOf(ptr, index), 0))
  {
    var r, g := radix as int, guardSize as int;
    FieldsOfConcatenation(capptr, guard as int, index, r, g);
    assert (r + g) - g == r && (r + g) - (r + g) == 0;
  }

  /**
   * `CSpace.rs` drops the C assertion that a level resolves at least one
   * bit.  A CNode with radix and guard size 0 whose slot 0 holds that same
   * cap is then a fixed point of the loop: the step re-enters the same CNode
   * with the same number of bits, so the lookup never returns.  The C walk
   * halts there instead.
   */
  lemma ZeroLevelLoopsForever(slots: Slots, p: Word, capptr: Word, nBits: nat)
    requires 0 < nBits <= 64
    requires CapAt(slots, p) == CNodeCap(p, 0, 0, 0)
    ensures LevelStepAsWritten(slots, CNodeCap(p, 0, 0, 0), capptr, nBits) == Descend(CNodeCap(p, 0, 0, 0), p, nBits)
    ensures LevelStep(slots, CNodeCap(p, 0, 0, 0), capptr, nBits) == Fault(KernelHalt)
  {
    assert Field(capptr, nBits, 0) == 0;
    assert FieldWord(capptr, nBits, 0) == 0;
    assert SlotOf(p, 0) == p;
  }

  // ---------------------------------------------------------------------
  // Lookups built on resolution.

  /**
   * `lookupSlotForCNodeOp`: the root must be a CNode cap and the depth
   * between 1 and the word size, and the address must resolve with no bits
   * left; every lookup failure is reported as a failed lookup on the source
   * or destination side.
   */
  function LookupSlotForCNodeOp(isSource: bool, slots: Slots, root: Cap, capptr: Word, depth: Word): (r: Result<Word, Exception>)
    ensures r.Success? <==>
              root.CNodeCap? && 1 <= depth <= 64
              && ResolveAddressBits(slots, root, capptr, depth as int).Success?
              && ResolveAddressBits(slots, root, capptr, depth as int).value.bitsRemaining == 0
    ensures r.Success? ==> ResolveAddressBits(slots, root, capptr, depth as int).value.slot == r.value
    ensures !root.CNodeCap? ==> r == Failure(SyscallErrorException(FailedLookup(isSource, InvalidRoot)))
    ensures root.CNodeCap? && !(1 <= depth <= 64) ==> r == Failure(SyscallErrorException(RangeError(1, 64)))
    ensures r.Failure? ==> r.error == KernelHalt || r.error.SyscallErrorException?
    ensures r.Failure? && r.error.SyscallErrorException? && r.error.error.FailedLookup? ==> r.error.error.wasSource == isSource
  {
    if !root.CNodeCap? then
      Failure(SyscallErrorException(FailedLookup(isSource, InvalidRoot)))
    else if depth < 1 || depth > 64 then
      Failure(SyscallErrorException(RangeError(1, 64)))
    else
      ResolveFromOutcome(slots, root, capptr, depth as int);
      match ResolveAddressBits(slots, root, capptr, depth as int)
      case Failure(KernelHalt) => Failure(KernelHalt)
      case Failure(LookupFaultException(f)) => Failure(SyscallErrorException(FailedLookup(isSource, f)))
      case Failure(SyscallErrorException(e)) => Failure(SyscallErrorException(e))
      case Success(res) =>
        if res.bitsRemaining != 0 then
          Failure(SyscallErrorException(FailedLookup(isSource, DepthMismatch(0, res.bitsRemaining))))
        else Success(res.slot)
  }

  /** A CNode operation on an address built from a one-level CNode's guard and an index, at the depth of that level, finds that slot. */
  lemma CNodeOpFindsAddressedSlot(isSource: bool, slots: Slots, ptr: Word, radix: Word, guardSize: Word, guard: Word, index: Word, capptr: Word, depth: Word)
    requires radix < 64 && guardSize < 64 && 0 < radix as int + guardSize as int <= 64
    requires guard as int < Pow2(guardSize as int) && index as int < Pow2(radix as int)
    requires capptr as int == guard as int * Pow2(radix as int) + index as int
    requires depth as int == radix as int + guardSize as int
    ensures LookupSlotForCNodeOp(isSource, slots, CNodeCap(ptr, radix, guardSize, guard), capptr, depth)
            == Success(SlotOf(ptr, index))
  {
    DepthInRange(depth);
    AddressResolvesToSlot(slots, ptr, radix, guardSize, guard, index, capptr);
  }

  lemma DepthInRange(depth: Word)
    requires 1 <= depth as int <= 64
    ensures 1 <= depth <= 64
  {
  }

  /** The slot of a thread's CSpace root cap (`tcbCTable`, slot 0 of its TCB block). */
  function ThreadRootSlot(tcb: Word): Word
  {
    TcbCtePtr(tcb, 0)
  }

  /**
   * `lookupSlot`: resolve a full word from the thread's CSpace root.  Bits
   * left over at a non-CNode slot are not an error here: the slot found is
   * returned.
   */
  function LookupSlot(slots: Slots, tcb: Word, capptr: Word): (r: Result<Word, Exception>)
    ensures r.Success? <==> ResolveAddressBits(slots, CapAt(slots, ThreadRootSlot(tcb)), capptr, 64).Success?
    ensures r.Success? ==> r.value == ResolveAddressBits(slots, CapAt(slots, ThreadRootSlot(tcb)), capptr, 64).value.slot
    ensures r.Failure? ==> r.error == ResolveAddressBits(slots, CapAt(slots, ThreadRootSlot(tcb)), capptr, 64).error
  {
    var res := ResolveAddressBits(slots, CapAt(slots, ThreadRootSlot(tcb)), capptr, 64);
    if res.Success? then Success(res.value.slot) else Failure(res.error)
  }

  /** `lookupCap_ret_t`: a status (absent on success) and the cap found, null on failure. */
  datatype CapLookup = CapLookup(status: Option<Exception>, cap: Cap)

  /** `lookupCap`: the cap in the slot `lookupSlot` finds, or the null cap with the failure. */
  function LookupCap(slots: Slots, tcb: Word, capptr: Word): (r: CapLookup)
    ensures r.status.None? <==> LookupSlot(slots, tcb, capptr).Success?
    ensures r.status.Some? ==> r.cap == NullCap && r.status.value == LookupSlot(slots, tcb, capptr).error
    ensures r.status.None? ==> r.cap == CapAt(slots, LookupSlot(slots, tcb, capptr).value)
  {
    match LookupSlot(slots, tcb, capptr)
    case Failure(e) => CapLookup(Some(e), NullCap)
    case Success(slot) => CapLookup(None, CapAt(slots, slot))
  }

  /** A thread whose root slot holds no CNode cap cannot look anything up. */
  lemma NoRootNoLookup(slots: Slots, tcb: Word, capptr: Word)
    requires !CapAt(slots, ThreadRootSlot(tcb)).CNodeCap?
    ensures LookupCap(slots, tcb, capptr) == CapLookup(Some(LookupFaultException(InvalidRoot)), NullCap)
  {
  }
}
