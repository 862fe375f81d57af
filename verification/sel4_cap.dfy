/**
 * seL4 capabilities as an algebraic datatype, and the pure functions of
 * `objecttype.c` and `types.rs` over them: object sizes, derivation,
 * finalisation's result, region and object comparison, cap-data update,
 * rights masking, revocability and object creation.
 *
 * Architecture-specific capabilities (frames, page tables, I/O ports) are
 * not constructors of the datatype; where the kernel would ask the
 * architecture about a cap of ours, the model says so explicitly.
 */
module Capabilities {
  import opened Wrappers
  import opened Sel4Words
  import opened Sel4Errors

  /** `seL4_EndpointBits`, `seL4_NotificationBits`, `seL4_SlotBits`, `wordBits`. */
  const ENDPOINT_BITS: Word := 4
  const NOTIFICATION_BITS: Word := 5
  const SLOT_BITS: Word := 5
  const WORD_BITS: Word := 64
  /** The TCB's own capability slots (`tcbCNodeEntries`). */
  const TCB_CNODE_ENTRIES: Word := 5
  /** A TCB object's kernel structure sits half-way into its block (`TCB_OFFSET`). */
  const TCB_OFFSET: Word := 0x400

  datatype Cap =
    | NullCap
    | UntypedCap(ptr: Word, blockSize: Word, freeIndex: nat, isDevice: bool)
    | EndpointCap(ptr: Word, badge: Word, canSend: bool, canReceive: bool, canGrant: bool, canGrantReply: bool)
    | NotificationCap(ptr: Word, badge: Word, canSend: bool, canReceive: bool)
    | ReplyCap(tcb: Word, master: bool, canGrant: bool)
    | CNodeCap(ptr: Word, radix: Word, guardSize: Word, guard: Word)
    | ThreadCap(tcb: Word)
    | IrqControlCap
    | IrqHandlerCap(irq: Word)
    | ZombieCap(zombie: Zombie)
    | DomainCap

  /** `seL4_CapRights_t`: write is bit 0, read bit 1, grant bit 2, grant-reply bit 3. */
  datatype CapRights = CapRights(allowGrantReply: bool, allowGrant: bool, allowRead: bool, allowWrite: bool)

  const ALL_RIGHTS := CapRights(true, true, true, true)

  /** `rightsFromWord`. */
  function RightsFromWord(w: Word): CapRights
  {
    CapRights(w & 8 != 0, w & 4 != 0, w & 2 != 0, w & 1 != 0)
  }

  /** The rights both masks allow. */
  function Intersect(a: CapRights, b: CapRights): CapRights
  {
    CapRights(a.allowGrantReply && b.allowGrantReply, a.allowGrant && b.allowGrant,
              a.allowRead && b.allowRead, a.allowWrite && b.allowWrite)
  }

  /** The non-MCS object types; `ArchObject` carries what the architecture answers for it. */
  datatype ObjectType =
    | UntypedObject
    | TcbObject
    | EndpointObject
    | NotificationObject
    | CapTableObject
    | ArchObject(code: Word, archSizeBits: Word, isFrame: bool)

  /** `getObjectSize`: the size, in bits, of one object of type `t`. */
  function GetObjectSize(t: ObjectType, userObjSize: Word): Word
  {
    match t
    case TcbObject => TCB_BITS
    case EndpointObject => ENDPOINT_BITS
    case NotificationObject => NOTIFICATION_BITS
    case CapTableObject => SLOT_BITS + userObjSize
    case UntypedObject => userObjSize
    case ArchObject(_, bits, _) => bits
  }

  // ---------------------------------------------------------------------
  // Field readers of `types.rs`.

  /**
   * `cap_get_capIsPhysical`: whether the cap names memory.  A null cap is
   * not one of the listed tags and goes to the architecture's reader.
   */
  function IsPhysical(c: Cap): Option<bool>
  {
    match c
    case NullCap => None
    case UntypedCap(_, _, _, _) => Some(true)
    case EndpointCap(_, _, _, _, _, _) => Some(true)
    case NotificationCap(_, _, _, _) => Some(true)
    case CNodeCap(_, _, _, _) => Some(true)
    case ThreadCap(_) => Some(true)
    case ZombieCap(_) => Some(true)
    case _ => Some(false)
  }

  /** `cap_get_capPtr`: the base address of the object; a thread cap names its TCB block's first slot. */
  function CapPtr(c: Cap): Option<Word>
  {
    match c
    case NullCap => None
    case UntypedCap(p, _, _, _) => Some(p)
    case EndpointCap(p, _, _, _, _, _) => Some(p)
    case NotificationCap(p, _, _, _) => Some(p)
    case CNodeCap(p, _, _, _) => Some(p)
    case ThreadCap(t) => Some(TcbCtePtr(t, 0))
    case ZombieCap(z) => Some(ZombiePtr(z))
    case _ => Some(0)
  }

  /** The answer of a size reader: a number of bits, or a question to the architecture. */
  datatype SizeAnswer = Bits(bits: Word) | ArchHook

  /**
   * `cap_get_capSizeBits` with one arm per tag: the object size of the
   * cap in bits, 0 for caps that name no memory.
   */
  function SizeBits(c: Cap): Word
  {
    match c
    case UntypedCap(_, b, _, _) => b
    case EndpointCap(_, _, _, _, _, _) => ENDPOINT_BITS
    case NotificationCap(_, _, _, _) => NOTIFICATION_BITS
    case CNodeCap(_, radix, _, _) => radix + SLOT_BITS
    case ThreadCap(_) => TCB_BITS
    case ZombieCap(z) => if z.ztype == ZOMBIE_TCB then TCB_BITS else (z.ztype & 63) + SLOT_BITS
    case _ => 0
  }

  /**
   * `cap_get_capSizeBits` as `types.rs` writes it: its first arm tests
   * the null tag where the untyped tag belongs, reading the block-size
   * field of a null cap (whose words are zero), and the untyped tag then
   * matches no arm and falls through to the architecture's reader.
   */
  function SizeBitsAsWritten(c: Cap): SizeAnswer
  {
    match c
    case NullCap => Bits(0)
    case UntypedCap(_, _, _, _) => ArchHook
    case _ => Bits(SizeBits(c))
  }

  /**
   * The two readers differ on untyped caps alone: there the shipped one
   * hands the question to the architecture instead of answering with the
   * block size.
   */
  lemma SizeBitsAsWrittenLosesUntyped(c: Cap)
    ensures c.UntypedCap? ==> SizeBitsAsWritten(c) == ArchHook && SizeBits(c) == c.blockSize
    ensures !c.UntypedCap? ==> SizeBitsAsWritten(c) == Bits(SizeBits(c))
  {
  }

  /** An untyped block of 2^12 bytes: the shipped reader does not report its 12 bits. */
  lemma UntypedSizeCounterexample()
    ensures SizeBitsAsWritten(UntypedCap(0x10_0000, 12, 0, false)) != Bits(12)
    ensures SizeBits(UntypedCap(0x10_0000, 12, 0, false)) == 12
  {
  }

  // ---------------------------------------------------------------------
  // Derivation, finalisation, revocability.

  /**
   * `deriveCap`: the cap a copy receives.  Zombie, IRQ-control and reply
   * caps cannot be copied and give the null cap; an untyped cap whose slot
   * has children fails with `RevokeFirst` (from `ensureNoChildren`).
   */
  function DeriveCap(slotHasChildren: bool, c: Cap): (r: Result<Cap, SyscallError>)
    ensures r.Failure? <==> c.UntypedCap? && slotHasChildren
    ensures r.Failure? ==> r.error == RevokeFirst
    ensures r.Success? ==> (r.value == NullCap <==> c.NullCap? || c.ZombieCap? || c.IrqControlCap? || c.ReplyCap?)
    ensures r.Success? && r.value != NullCap ==> r.value == c
  {
    match c
    case ZombieCap(_) => Success(NullCap)
    case IrqControlCap => Success(NullCap)
    case ReplyCap(_, _, _) => Success(NullCap)
    case UntypedCap(_, _, _, _) => if slotHasChildren then Failure(RevokeFirst) else Success(c)
    case _ => Success(c)
  }

  /** Deriving a derived cap again gives the same cap. */
  lemma DeriveIdempotent(slotHasChildren: bool, c: Cap)
    requires DeriveCap(slotHasChildren, c).Success?
    ensures DeriveCap(slotHasChildren, DeriveCap(slotHasChildren, c).value) == DeriveCap(slotHasChildren, c)
  {
  }

  /** `finaliseCap_ret_t`: what is left in the slot, and what still needs cleaning up. */
  datatype Finalised = Finalised(remainder: Cap, cleanupInfo: Cap)

  /**
   * `finaliseCap` without its side effects (cancelling IPC, unbinding
   * notifications, suspending the thread, clearing the IRQ handler): the
   * final cap of a CNode or thread becomes a zombie of its slots, a zombie
   * stays, a final IRQ handler is handed back for clean-up.  Caps other
   * than endpoint, notification, reply, null and domain must not be
   * `exposed`: the kernel halts (`None`).
   */
  function FinaliseCap(c: Cap, final: bool, exposed: bool): Option<Finalised>
  {
    if c.EndpointCap? || c.NotificationCap? || c.ReplyCap? || c.NullCap? || c.DomainCap? then
      Some(Finalised(NullCap, NullCap))
    else if exposed then
      None
    else
      match c
      case CNodeCap(p, radix, _, _) =>
        if final then Some(Finalised(ZombieCap(ZombieNew((1 as Word) << (radix & 63), radix, p)), NullCap))
        else Some(Finalised(NullCap, NullCap))
      case ThreadCap(t) =>
        if final then Some(Finalised(ZombieCap(ZombieNew(TCB_CNODE_ENTRIES, ZOMBIE_TCB, TcbCtePtr(t, 0))), NullCap))
        else Some(Finalised(NullCap, NullCap))
      case ZombieCap(_) => Some(Finalised(c, NullCap))
      case IrqHandlerCap(_) =>
        if final then Some(Finalised(NullCap, c)) else Some(Finalised(NullCap, NullCap))
      case _ => Some(Finalised(NullCap, NullCap))
  }

  /**
   * The shape of every finalisation: the remainder is null or a zombie,
   * the clean-up is null or the IRQ handler itself, only a final CNode or
   * thread turns into a new zombie, and the kernel halts exactly for an
   * exposed cap outside the five always-finalisable kinds.
   */
  lemma FinaliseShape(c: Cap, final: bool, exposed: bool)
    ensures var r := FinaliseCap(c, final, exposed);
            (r.None? <==> exposed && !(c.EndpointCap? || c.NotificationCap? || c.ReplyCap? || c.NullCap? || c.DomainCap?))
            && (r.Some? ==> (r.value.remainder.NullCap? || r.value.remainder.ZombieCap?)
                            && (r.value.cleanupInfo.NullCap? || (r.value.cleanupInfo == c && c.IrqHandlerCap? && final)))
            && (r.Some? && r.value.remainder.ZombieCap? ==> c.ZombieCap? || (final && (c.CNodeCap? || c.ThreadCap?)))
  {
  }

  /**
   * A final CNode cap of radix below 64 becomes a zombie over the CNode:
   * its pointer is the CNode's with the number bits cleared, and its number
   * is the CNode's slot count 2^radix cut to `radix + 1` bits.
   */
  lemma FinaliseCNodeZombie(p: Word, radix: Word, gs: Word, g: Word)
    requires radix < 64
    ensures var r := FinaliseCap(CNodeCap(p, radix, gs, g), true, false);
            r.Some? && r.value.remainder.ZombieCap?
            && ZombiePtr(r.value.remainder.zombie) == p & !ZombieMask(radix)
            && ZombieNumber(r.value.remainder.zombie) == ((1 as Word) << radix) & ZombieMask(radix)
  {
    ZombieNewReadsBack((1 as Word) << (radix & 63), radix, p);
    assert radix & 63 == radix;
  }

  /**
   * `isCapRevocable`: a copy is revocable when it carries a badge of its
   * own, when it is an IRQ handler issued by the IRQ control cap, and
   * whenever it is an untyped cap.
   */
  function IsCapRevocable(derived: Cap, src: Cap): bool
  {
    match derived
    case EndpointCap(_, b, _, _, _, _) => !src.EndpointCap? || b != src.badge
    case NotificationCap(_, b, _, _) => !src.NotificationCap? || b != src.badge
    case IrqHandlerCap(_) => src.IrqControlCap?
    case UntypedCap(_, _, _, _) => true
    case _ => false
  }

  /** A cap copied unchanged is revocable exactly when it is an untyped cap. */
  lemma PlainCopyRevocable(c: Cap)
    ensures IsCapRevocable(c, c) <==> c.UntypedCap?
  {
  }

  // ---------------------------------------------------------------------
  // Comparison of caps.

  /** The last byte of a block of 2^size bytes at `base`, in 64-bit arithmetic. */
  function RegionTop(base: Word, size: Word): Word { base + Mask(size) }

  /** Whether the block of 2^bSize bytes at `bBase` lies inside the one at `aBase` and does not wrap. */
  predicate RangeWithin(aBase: Word, aSize: Word, bBase: Word, bSize: Word)
  {
    aBase <= bBase && RegionTop(bBase, bSize) <= RegionTop(aBase, aSize) && bBase <= RegionTop(bBase, bSize)
  }

  /**
   * `sameRegionAs`: whether `b` names memory inside what `a` names.  An
   * untyped cap covers every physical cap whose range `[base, base +
   * 2^size - 1]`, computed in 64-bit words, lies within its own and does
   * not wrap; other kinds match on their object.
   */
  function SameRegionAs(a: Cap, b: Cap): bool
  {
    match a
    case UntypedCap(aBase, aSize, _, _) =>
      IsPhysical(b) == Some(true) && CapPtr(b).Some? && RangeWithin(aBase, aSize, CapPtr(b).value, SizeBits(b))
    case EndpointCap(p, _, _, _, _, _) => b.EndpointCap? && b.ptr == p
    case NotificationCap(p, _, _, _) => b.NotificationCap? && b.ptr == p
    case CNodeCap(p, radix, _, _) => b.CNodeCap? && b.ptr == p && b.radix == radix
    case ThreadCap(t) => b.ThreadCap? && b.tcb == t
    case ReplyCap(t, _, _) => b.ReplyCap? && b.tcb == t
    case DomainCap => b.DomainCap?
    case IrqControlCap => b.IrqControlCap? || b.IrqHandlerCap?
    case IrqHandlerCap(irq) => b.IrqHandlerCap? && b.irq == irq
    case _ => false
  }

  /**
   * `sameObjectAs`: as `sameRegionAs`, except that an untyped cap is never
   * the same object as anything and IRQ control is not the same object as
   * an IRQ handler.
   */
  function SameObjectAs(a: Cap, b: Cap): bool
  {
    if a.UntypedCap? then false
    else if a.IrqControlCap? && b.IrqHandlerCap? then false
    else SameRegionAs(a, b)
  }

  /** Being the same object implies sharing the region, and the two differ only on the excluded pairs. */
  lemma SameObjectWithinRegion(a: Cap, b: Cap)
    ensures SameObjectAs(a, b) ==> SameRegionAs(a, b)
    ensures SameObjectAs(a, b) <==> SameRegionAs(a, b) && !a.UntypedCap? && !(a.IrqControlCap? && b.IrqHandlerCap?)
  {
  }

  /** IRQ control covers every IRQ handler, but no IRQ handler covers IRQ control. */
  lemma IrqControlAsymmetric(irq: Word)
    ensures SameRegionAs(IrqControlCap, IrqHandlerCap(irq))
    ensures !SameRegionAs(IrqHandlerCap(irq), IrqControlCap)
    ensures !SameObjectAs(IrqControlCap, IrqHandlerCap(irq))
  {
  }

  lemma SelfRangeWithin(p: Word, size: Word)
    ensures RangeWithin(p, size, p, size) <==> p <= RegionTop(p, size)
  {
  }

  lemma UntypedSelfRegion(c: Cap)
    requires c.UntypedCap?
    ensures SameRegionAs(c, c) == RangeWithin(c.ptr, c.blockSize, c.ptr, c.blockSize)
  {
  }

  lemma OtherSelfRegion(c: Cap)
    requires !c.UntypedCap?
    ensures SameRegionAs(c, c) <==> !c.NullCap? && !c.ZombieCap?
  {
  }

  /**
   * Every cap covers its own region except the null and zombie caps, and
   * an untyped cap whose range wraps past the top of the address space.
   */
  lemma SameRegionReflexive(c: Cap)
    ensures SameRegionAs(c, c) <==>
              !c.NullCap? && !c.ZombieCap? && (c.UntypedCap? ==> c.ptr <= RegionTop(c.ptr, c.blockSize))
  {
    if c.UntypedCap? {
      UntypedSelfRegion(c);
      SelfRangeWithin(c.ptr, c.blockSize);
    } else {
      OtherSelfRegion(c);
    }
  }

  // ---------------------------------------------------------------------
  // Cap data and rights.

  /** The guard size of a CNode cap-data word: its low 6 bits. */
  function CapDataGuardSize(w: Word): Word { w & 0x3f }
  /** The guard of a CNode cap-data word: the 58 bits above the guard size. */
  function CapDataGuard(w: Word): Word { w >> 6 }

  /**
   * `updateCapData`: a badge is given to an unbadged endpoint or
   * notification cap only when not preserving, and any other request gives
   * the null cap; a CNode takes the guard size and the guard cut to it,
   * unless guard and radix together exceed the word; every other cap is
   * unchanged.
   */
  function UpdateCapData(preserve: bool, newData: Word, c: Cap): Cap
  {
    match c
    case EndpointCap(p, badge, s, r, g, gr) =>
      if !preserve && badge == 0 then EndpointCap(p, newData, s, r, g, gr) else NullCap
    case NotificationCap(p, badge, s, r) =>
      if !preserve && badge == 0 then NotificationCap(p, newData, s, r) else NullCap
    case CNodeCap(p, radix, _, _) =>
      var guardSize := CapDataGuardSize(newData);
      if guardSize + radix > WORD_BITS then NullCap
      else CNodeCap(p, radix, guardSize, CapDataGuard(newData) & Mask(guardSize))
    case _ => c
  }

  /** A CNode cap whose guard fits its guard size and whose levels fit a word: what resolution relies on. */
  predicate GuardFits(c: Cap)
    requires c.CNodeCap?
  {
    c.guardSize + c.radix <= WORD_BITS && c.guard & !Mask(c.guardSize) == 0
  }

  lemma MaskedHasNoHighBits(x: Word, m: Word) ensures (x & m) & !m == 0 {}
  lemma SmallGuardSize(w: Word) ensures CapDataGuardSize(w) < 64 {}

  /**
   * Updating cap data never changes which object a cap names or its size:
   * an endpoint, notification or CNode cap comes back null or with the same
   * pointer and size, and every other cap comes back unchanged.
   */
  lemma UpdateEndpointKeeps(preserve: bool, newData: Word, p: Word, b: Word, s: bool, rc: bool, g: bool, gr: bool)
    ensures var r := UpdateCapData(preserve, newData, EndpointCap(p, b, s, rc, g, gr));
            r == NullCap || (CapPtr(r) == Some(p) && SizeBits(r) == ENDPOINT_BITS)
  {
  }

  lemma UpdateNotificationKeeps(preserve: bool, newData: Word, p: Word, b: Word, s: bool, rc: bool)
    ensures var r := UpdateCapData(preserve, newData, NotificationCap(p, b, s, rc));
            r == NullCap || (CapPtr(r) == Some(p) && SizeBits(r) == NOTIFICATION_BITS)
  {
  }

  lemma UpdateOthersUnchanged(preserve: bool, newData: Word, c: Cap)
    requires !c.EndpointCap? && !c.NotificationCap? && !c.CNodeCap?
    ensures UpdateCapData(preserve, newData, c) == c
  {
  }

  lemma UpdateCNodeShape(preserve: bool, newData: Word, p: Word, radix: Word, gs: Word, g: Word)
    ensures var r := UpdateCapData(preserve, newData, CNodeCap(p, radix, gs, g));
            r == NullCap || r == CNodeCap(p, radix, r.guardSize, r.guard)
  {
  }

  lemma CNodeReaders(p: Word, radix: Word, gs: Word, g: Word)
    ensures CapPtr(CNodeCap(p, radix, gs, g)) == Some(p)
    ensures SizeBits(CNodeCap(p, radix, gs, g)) == radix + SLOT_BITS
  {
  }

  lemma UpdateCNodeKeeps(preserve: bool, newData: Word, p: Word, radix: Word, gs: Word, g: Word)
    ensures var r := UpdateCapData(preserve, newData, CNodeCap(p, radix, gs, g));
            r == NullCap || (CapPtr(r) == Some(p) && SizeBits(r) == radix + SLOT_BITS)
  {
    var r := UpdateCapData(preserve, newData, CNodeCap(p, radix, gs, g));
    UpdateCNodeShape(preserve, newData, p, radix, gs, g);
    if r != NullCap {
      CNodeReaders(p, radix, r.guardSize, r.guard);
    }
  }

  /** A CNode cap that survives an update has a guard that fits its guard size, and levels that fit a word. */
  lemma UpdateGuardFits(preserve: bool, newData: Word, c: Cap)
    ensures var r := UpdateCapData(preserve, newData, c);
            r.CNodeCap? ==> c.CNodeCap? && GuardFits(r) && r.guardSize == CapDataGuardSize(newData)
  {
    var r := UpdateCapData(preserve, newData, c);
    if r.CNodeCap? {
      var gs := CapDataGuardSize(newData);
      MaskedHasNoHighBits(CapDataGuard(newData), Mask(gs));
      assert r.guard == CapDataGuard(newData) & Mask(gs) && r.guardSize == gs;
    }
  }

  /** A badge is set once: badging an already badged endpoint cap again gives the null cap. */
  lemma BadgeSetOnce(c: Cap, d1: Word, d2: Word)
    requires c.EndpointCap? || c.NotificationCap?
    requires d1 != 0
    ensures UpdateCapData(false, d1, c) != NullCap ==> UpdateCapData(false, d1, c).badge == d1
    ensures UpdateCapData(false, d2, UpdateCapData(false, d1, c)) == NullCap
  {
  }

  /**
   * `maskCapRights`: each right of an endpoint, notification or reply cap
   * survives only if the mask allows it (send needs write, receive needs
   * read); every other cap is returned unchanged.
   */
  function MaskCapRights(m: CapRights, c: Cap): Cap
  {
    match c
    case EndpointCap(p, badge, s, r, g, gr) =>
      EndpointCap(p, badge, s && m.allowWrite, r && m.allowRead, g && m.allowGrant, gr && m.allowGrantReply)
    case NotificationCap(p, badge, s, r) => NotificationCap(p, badge, s && m.allowWrite, r && m.allowRead)
    case ReplyCap(t, master, g) => ReplyCap(t, master, g && m.allowGrant)
    case _ => c
  }

  /** Whether `a` has no right `b` lacks, and otherwise names the same cap as `b`. */
  predicate RightsWithin(a: Cap, b: Cap)
  {
    match a
    case EndpointCap(p, badge, s, r, g, gr) =>
      b.EndpointCap? && b.ptr == p && b.badge == badge
      && (s ==> b.canSend) && (r ==> b.canReceive) && (g ==> b.canGrant) && (gr ==> b.canGrantReply)
    case NotificationCap(p, badge, s, r) =>
      b.NotificationCap? && b.ptr == p && b.badge == badge && (s ==> b.canSend) && (r ==> b.canReceive)
    case ReplyCap(t, master, g) => b.ReplyCap? && b.tcb == t && b.master == master && (g ==> b.canGrant)
    case _ => a == b
  }

  /** Masking never adds a right and never changes anything but rights. */
  lemma MaskNeverAddsRights(m: CapRights, c: Cap)
    ensures RightsWithin(MaskCapRights(m, c), c)
  {
  }

  /** Masking twice with the same mask is masking once. */
  lemma MaskIdempotent(m: CapRights, c: Cap)
    ensures MaskCapRights(m, MaskCapRights(m, c)) == MaskCapRights(m, c)
  {
  }

  /** Masking with two masks in turn is masking with the rights both allow. */
  lemma MaskComposes(m: CapRights, m2: CapRights, c: Cap)
    ensures MaskCapRights(m, MaskCapRights(m2, c)) == MaskCapRights(Intersect(m, m2), c)
  {
  }

  /** The mask with every right changes nothing. */
  lemma MaskAllIdentity(c: Cap)
    ensures MaskCapRights(ALL_RIGHTS, c) == c
  {
  }

  /** `hasCancelSendRights`: an endpoint cap with all four rights. */
  predicate HasCancelSendRights(c: Cap)
  {
    c.EndpointCap? && c.canSend && c.canReceive && c.canGrantReply && c.canGrant
  }

  /** Masked rights can cancel sends only if the original could and the mask allowed all four. */
  lemma MaskedCancelSendRights(m: CapRights, c: Cap)
    ensures HasCancelSendRights(MaskCapRights(m, c)) <==> HasCancelSendRights(c) && m == ALL_RIGHTS
  {
  }

  // ---------------------------------------------------------------------
  // Object creation.

  /**
   * `createObject`, cap part: the cap for a new object at `regionBase`.
   * Endpoints and notifications come unbadged with every right, a CNode has
   * radix `userSize` and no guard, an untyped block starts empty, a TCB is
   * named by its structure half-way into the block.  Architecture objects
   * are created by the architecture (`None`).
   */
  function CreateObject(t: ObjectType, regionBase: Word, userSize: Word, deviceMemory: bool): Option<Cap>
  {
    match t
    case TcbObject => Some(ThreadCap(regionBase + TCB_OFFSET))
    case EndpointObject => Some(EndpointCap(regionBase, 0, true, true, true, true))
    case NotificationObject => Some(NotificationCap(regionBase, 0, true, true))
    case CapTableObject => Some(CNodeCap(regionBase, userSize, 0, 0))
    case UntypedObject => Some(UntypedCap(regionBase, userSize, 0, deviceMemory))
    case ArchObject(_, _, _) => None
  }

  lemma TcbOffsetBase(b: Word)
    requires b & 0x7ff == 0
    ensures TcbBase(b + TCB_OFFSET) == b
  {
    TcbMask();
  }

  /**
   * A created cap names exactly the new object: its pointer is the region
   * base and its size is `getObjectSize` of the type, provided the base is
   * aligned to the object's size as retyping guarantees.
   */
  lemma CreatedCapCoversObject(t: ObjectType, regionBase: Word, userSize: Word, deviceMemory: bool)
    requires !t.ArchObject?
    requires t.TcbObject? ==> regionBase & 0x7ff == 0
    ensures var r := CreateObject(t, regionBase, userSize, deviceMemory);
            r.Some? && CapPtr(r.value) == Some(regionBase) && SizeBits(r.value) == GetObjectSize(t, userSize)
  {
    match t
    case TcbObject => TcbOffsetBase(regionBase);
    case EndpointObject =>
    case NotificationObject =>
    case CapTableObject =>
    case UntypedObject =>
  }

  /** A new endpoint cap can cancel sends, and badging it gives a revocable copy. */
  lemma CreatedEndpointFull(regionBase: Word, userSize: Word, badge: Word)
    requires badge != 0
    ensures var c := CreateObject(EndpointObject, regionBase, userSize, false).value;
            HasCancelSendRights(c) && IsCapRevocable(UpdateCapData(false, badge, c), c)
  {
  }
}
