/**
 * Retyping untyped memory (`untyped.c`): the checks `decodeUntypedInvocation`
 * makes of a retype request, in the kernel's order, and the free-index
 * bookkeeping of `invokeUntyped_Retype`.
 *
 * Addresses and sizes are numbers below 2^64; where the kernel's word
 * arithmetic can wrap, the model reduces modulo 2^64 explicitly.  Clearing
 * an untyped to `0` before reuse (`resetUntypedCap`) is its end result:
 * the chunked clearing and its preemption points are not modelled.
 */
module Untyped {
  import opened Wrappers
  import opened Sel4Words
  import opened Sel4Errors
  import opened Capabilities
  import opened CSpace
  import opened Mdb
  import CNodeDecode

  /** `seL4_MaxUntypedBits` on x86-64. */
  const MAX_UNTYPED_BITS: nat := 47
  /** `CONFIG_RETYPE_FAN_OUT_LIMIT`. */
  const RETYPE_FAN_OUT_LIMIT: nat := 256
  /** The bytes one step of the free index stands for, 2^`seL4_MinUntypedBits` (`Mdb.MIN_UNTYPED_BITS`). */
  const FREE_INDEX_UNIT: nat := 16

  // ---------------------------------------------------------------------
  // alignUp.

  /** `alignUp`: add 2^a - 1 with word wrap-around, then clear the low `a` bits. */
  function AlignUp(v: nat, a: nat): (r: nat)
    requires v < WORD_MODULUS && a < 64
    ensures r % Pow2(a) == 0 && r < WORD_MODULUS
    ensures v + Pow2(a) - 1 < WORD_MODULUS ==> v <= r < v + Pow2(a)
  {
    var p := Pow2(a);
    Pow2BelowWord(a);
    var s := if v + p - 1 < WORD_MODULUS then v + p - 1 else v + p - 1 - WORD_MODULUS;
    RoundDown(s, p);
    s / p * p
  }

  /** Rounding down to a multiple of `p` loses less than `p`. */
  lemma RoundDown(s: nat, p: nat)
    requires p > 0
    ensures (s / p * p) % p == 0
    ensures 0 <= s / p * p && s - p < s / p * p <= s
  {
    DivModUnique(s / p * p, p, s / p, 0);
  }

  /** Without wrap-around, `alignUp` gives the least multiple of 2^a at or above `v`. */
  lemma AlignUpLeast(v: nat, a: nat, m: nat)
    requires v < WORD_MODULUS && a < 64 && v + Pow2(a) - 1 < WORD_MODULUS
    requires m % Pow2(a) == 0 && m >= v
    ensures AlignUp(v, a) <= m
  {
    LeastMultiple(v, Pow2(a), AlignUp(v, a), m);
  }

  /** A multiple of `p` below `v + p` is at most any multiple of `p` at or above `v`. */
  lemma LeastMultiple(v: int, p: int, r: int, m: int)
    requires p > 0 && r % p == 0 && m % p == 0 && v <= m && r < v + p
    ensures r <= m
  {
    if m < r {
      DivModUnique(m, p, m / p, 0);
      DivModUnique(r, p, r / p, 0);
      MultiplesApart(r / p, m / p, p);
      assert false;
    }
  }

  /** An address already aligned stays where it is. */
  lemma AlignUpAligned(v: nat, a: nat)
    requires v < WORD_MODULUS && a < 64 && v + Pow2(a) - 1 < WORD_MODULUS
    requires v % Pow2(a) == 0
    ensures AlignUp(v, a) == v
  {
    AlignUpLeast(v, a, v);
  }

  // ---------------------------------------------------------------------
  // Decoding a retype request.

  /**
   * A decoded retype: the untyped's slot, whether its memory is reused from
   * the start, where the first object goes, what is made, and the window of
   * destination slots `offset .. offset + window` of the CNode at `cnode`.
   */
  datatype Retype = Retype(
    slot: nat, reset: bool, retypeBase: nat, newType: ObjectType, userSize: Word,
    objectBits: nat, cnode: Word, offset: nat, window: nat, deviceMemory: bool)

  /**
   * An untyped cap's fields read as numbers: the block's base address, its
   * size in bits, the free index (in 16-byte steps) and whether it is
   * device memory.
   */
  datatype Block = Block(base: nat, sizeBits: nat, freeIndex: nat, isDevice: bool)

  function BlockOf(c: Cap): Block
    requires c.UntypedCap?
  {
    Block(c.ptr as nat, c.blockSize as nat, c.freeIndex, c.isDevice)
  }

  /** `FREE_INDEX_TO_OFFSET` on words. */
  function FreeOffset(freeIndex: nat): nat
  {
    (freeIndex * FREE_INDEX_UNIT) % WORD_MODULUS
  }

  /** `BIT(blockSize) - FREE_INDEX_TO_OFFSET(freeIndex)` on words, the shift taken modulo 64. */
  function FreeBytes(b: Block, freeIndex: nat): nat
  {
    (Pow2(b.sizeBits % 64) - FreeOffset(freeIndex)) % WORD_MODULUS
  }

  /** `GET_FREE_REF(base, freeIndex)` on words. */
  function FreeRef(b: Block, freeIndex: nat): nat
  {
    (b.base + FreeOffset(freeIndex)) % WORD_MODULUS
  }

  /** The destination slots `offset .. offset + window` of the CNode at `cnode` hold no caps. */
  predicate WindowEmpty(m: Cdt, cnode: Word, offset: nat, window: nat)
  {
    forall i: nat | offset <= i < offset + window :: CapIn(m, SlotOf(cnode, (i % WORD_MODULUS) as Word) as int).NullCap?
  }

  function Syscall(e: SyscallError): Exception
  {
    SyscallErrorException(e)
  }

  /** Whether a device untyped may hold objects of this type: frames and untypeds only. */
  predicate DeviceMayHold(t: ObjectType)
  {
    t.UntypedObject? || (t.ArchObject? && t.isFrame)
  }

  /**
   * The object-type and size checks (`untyped.c`, lines 69-103): the type
   * number must name a type, the size must be below the word size with the
   * object at most `seL4_MaxUntypedBits`, a CNode needs at least two slots
   * and an untyped at least 16 bytes.  `types` is the kernel's numbering of
   * object types, the architecture's included.
   */
  function CheckObject(args: seq<Word>, types: seq<ObjectType>): (r: Result<(ObjectType, nat), Exception>)
    requires |args| >= 6
    ensures r.Success? <==>
              args[0] as int < |types| && args[1] < 64
              && GetObjectSize(types[args[0]], args[1]) as int <= MAX_UNTYPED_BITS
              && !(types[args[0]].CapTableObject? && args[1] == 0)
              && !(types[args[0]].UntypedObject? && (args[1] as int) < MIN_UNTYPED_BITS)
    ensures r.Success? ==> r.value.0 == types[args[0]] && r.value.1 == GetObjectSize(r.value.0, args[1]) as int
    ensures args[0] as int >= |types| ==> r == Failure(Syscall(InvalidArgument(0)))
  {
    if args[0] as int >= |types| then Failure(Syscall(InvalidArgument(0)))
    else
      var t := types[args[0]];
      var objectSize := GetObjectSize(t, args[1]);
      if args[1] >= 64 || objectSize as int > MAX_UNTYPED_BITS then Failure(Syscall(RangeError(0, MAX_UNTYPED_BITS)))
      else if t.CapTableObject? && args[1] == 0 then Failure(Syscall(InvalidArgument(1)))
      else if t.UntypedObject? && (args[1] as int) < MIN_UNTYPED_BITS then Failure(Syscall(InvalidArgument(1)))
      else Success((t, objectSize as int))
  }

  /**
   * The destination CNode (lines 115-134): the first extra cap itself at
   * depth 0, otherwise the cap found by resolving `nodeIndex` to `nodeDepth`
   * bits from it; it must be a CNode cap.
   */
  function DestinationNode(args: seq<Word>, root: Cap, m: Cdt): (r: Result<Cap, Exception>)
    requires |args| >= 6
    ensures r.Success? ==> r.value.CNodeCap?
    ensures args[3] == 0 ==> (r.Success? <==> root.CNodeCap?)
    ensures args[3] == 0 && root.CNodeCap? ==> r == Success(root)
  {
    var nodeCap :=
      if args[3] == 0 then Success(root)
      else match LookupSlotForCNodeOp(false, CNodeDecode.CapTable(m), root, args[2], args[3])
           case Failure(e) => Failure(e)
           case Success(w) => Success(CapIn(m, w as int));
    match nodeCap
    case Failure(e) => Failure(e)
    case Success(c) =>
      if !c.CNodeCap? then Failure(Syscall(FailedLookup(false, MissingCapability(args[3] as int))))
      else Success(c)
  }

  /** The number of slots of a CNode cap, `1 << radix` with the shift taken modulo 64 as the shifter takes it. */
  function NodeSize(c: Cap): (n: nat)
    requires c.CNodeCap?
    ensures n >= 1
  {
    Pow2(c.radix as nat % 64)
  }

  /**
   * The destination window (lines 137-173): the offset must name a slot,
   * the window must hold 1 to `CONFIG_RETYPE_FAN_OUT_LIMIT` objects and fit
   * in the node, and every slot of it must be empty.
   */
  function CheckWindow(nodeCap: Cap, offset: nat, window: nat, m: Cdt): (r: Result<(), Exception>)
    requires nodeCap.CNodeCap?
    ensures r.Success? <==>
              offset + window <= NodeSize(nodeCap) && 1 <= window <= RETYPE_FAN_OUT_LIMIT
              && WindowEmpty(m, nodeCap.ptr, offset, window)
    ensures (offset + window <= NodeSize(nodeCap) && 1 <= window <= RETYPE_FAN_OUT_LIMIT
             && !WindowEmpty(m, nodeCap.ptr, offset, window)) ==> r == Failure(Syscall(DeleteFirst))
  {
    var nodeSize := NodeSize(nodeCap);
    if offset > nodeSize - 1 then Failure(Syscall(RangeError(0, nodeSize - 1)))
    else if window < 1 || window > RETYPE_FAN_OUT_LIMIT then Failure(Syscall(RangeError(1, RETYPE_FAN_OUT_LIMIT)))
    else if window > nodeSize - offset then Failure(Syscall(RangeError(1, nodeSize - offset)))
    else if !WindowEmpty(m, nodeCap.ptr, offset, window) then Failure(Syscall(DeleteFirst))
    else Success(())
  }

  /** The free index allocation starts from: 0 for an untyped that is reset, its own free index otherwise. */
  function StartIndex(b: Block, reset: bool): nat
  {
    if reset then 0 else b.freeIndex
  }

  /**
   * The memory checks (lines 187-230): the free space, counted in objects
   * of `2^objectBits` bytes, must hold the window, a device untyped may
   * hold only frames and untypeds, and the first object goes at the first
   * free address aligned up to the object size.
   */
  function Allocate(b: Block, reset: bool, t: ObjectType, objectBits: nat, window: nat): (r: Result<nat, Exception>)
    requires objectBits < 64
    ensures var free := FreeBytes(b, StartIndex(b, reset));
            && (r.Success? <==> window <= free / Pow2(objectBits) && (b.isDevice ==> DeviceMayHold(t)))
            && (free / Pow2(objectBits) < window ==> r == Failure(Syscall(NotEnoughMemory(free))))
    ensures r.Success? ==> r.value == AlignUp(FreeRef(b, StartIndex(b, reset)), objectBits)
  {
    var freeIndex := StartIndex(b, reset);
    var freeBytes := FreeBytes(b, freeIndex);
    if freeBytes / Pow2(objectBits) < window then Failure(Syscall(NotEnoughMemory(freeBytes)))
    else if b.isDevice && !DeviceMayHold(t) then Failure(Syscall(InvalidArgument(1)))
    else Success(AlignUp(FreeRef(b, freeIndex), objectBits))
  }

  /** The retype `rt` is what the checks of every stage make of this request. */
  predicate Admitted(args: seq<Word>, excaps: seq<Cap>, types: seq<ObjectType>, m: Cdt, slot: nat, rt: Retype)
    requires slot in m && m[slot].cap.UntypedCap?
  {
    && |args| >= 6 && |excaps| >= 1
    && rt.slot == slot && rt.userSize == args[1] && rt.offset == args[4] as int && rt.window == args[5] as int
    && CheckObject(args, types) == Success((rt.newType, rt.objectBits))
    && DestinationNode(args, excaps[0], m).Success? && DestinationNode(args, excaps[0], m).value.ptr == rt.cnode
    && CheckWindow(DestinationNode(args, excaps[0], m).value, rt.offset, rt.window, m).Success?
    && (rt.reset <==> EnsureNoChildren(m, slot).Success?)
    && rt.deviceMemory == m[slot].cap.isDevice
    && rt.objectBits < 64
    && Allocate(BlockOf(m[slot].cap), rt.reset, rt.newType, rt.objectBits, rt.window) == Success(rt.retypeBase)
  }

  /**
   * `decodeUntypedInvocation` on the untyped cap in `slot`: the label, the
   * message length and the root cap first, then the object, the
   * destination node, the window and the memory, each stage in the
   * kernel's order.  Allocation restarts from the beginning (with a reset)
   * when the untyped has no children.
   */
  function DecodeUntyped(isRetype: bool, args: seq<Word>, excaps: seq<Cap>, types: seq<ObjectType>, m: Cdt, slot: nat)
    : (r: Result<Retype, Exception>)
    requires slot in m && m[slot].cap.UntypedCap?
    ensures !isRetype ==> r == Failure(Syscall(IllegalOperation))
    ensures isRetype && (|args| < 6 || |excaps| == 0) ==> r == Failure(Syscall(TruncatedMessage))
    ensures r.Success? ==> Admitted(args, excaps, types, m, slot, r.value)
  {
    var cap := m[slot].cap;
    if !isRetype then Failure(Syscall(IllegalOperation))
    else if |args| < 6 || |excaps| == 0 then Failure(Syscall(TruncatedMessage))
    else
      match CheckObject(args, types)
      case Failure(e) => Failure(e)
      case Success((newType, objectBits)) =>
        match DestinationNode(args, excaps[0], m)
        case Failure(e) => Failure(e)
        case Success(nodeCap) =>
          var offset, window := args[4] as int, args[5] as int;
          match CheckWindow(nodeCap, offset, window, m)
          case Failure(e) => Failure(e)
          case Success(_) =>
            var reset := EnsureNoChildren(m, slot).Success?;
            match Allocate(BlockOf(cap), reset, newType, objectBits, window)
            case Failure(e) => Failure(e)
            case Success(base) =>
              Success(Retype(slot, reset, base, newType, args[1], objectBits, nodeCap.ptr, offset, window, cap.isDevice))
  }

  /**
   * What an admitted retype guarantees: a window of 1 to
   * `CONFIG_RETYPE_FAN_OUT_LIMIT` empty slots inside the destination node,
   * objects of at most `seL4_MaxUntypedBits` whose number fits in the free
   * space, no kernel object in device memory, and a first object aligned
   * at or above the first free address.
   */
  lemma AdmittedRetype(args: seq<Word>, excaps: seq<Cap>, types: seq<ObjectType>, m: Cdt, slot: nat, rt: Retype)
    requires slot in m && m[slot].cap.UntypedCap? && Admitted(args, excaps, types, m, slot, rt)
    ensures var b := BlockOf(m[slot].cap);
            var free := FreeBytes(b, StartIndex(b, rt.reset));
            && 1 <= rt.window <= RETYPE_FAN_OUT_LIMIT
            && rt.offset + rt.window <= NodeSize(DestinationNode(args, excaps[0], m).value)
            && WindowEmpty(m, rt.cnode, rt.offset, rt.window)
            && rt.objectBits <= MAX_UNTYPED_BITS && rt.window <= free / Pow2(rt.objectBits)
            && (rt.deviceMemory ==> DeviceMayHold(rt.newType))
            && rt.retypeBase % Pow2(rt.objectBits) == 0
  {
  }

  /**
   * Memory is refused exactly when the free space, counted in objects of
   * the requested size, is less than the window: a request that passed
   * every earlier check fails with `NotEnoughMemory` reporting the free
   * bytes, or goes on to the device check.
   */
  lemma NotEnoughMemoryExactly(isRetype: bool, args: seq<Word>, excaps: seq<Cap>, types: seq<ObjectType>, m: Cdt, slot: nat)
    requires slot in m && m[slot].cap.UntypedCap?
    requires isRetype && |args| >= 6 && |excaps| >= 1 && CheckObject(args, types).Success?
    requires DestinationNode(args, excaps[0], m).Success?
    requires CheckWindow(DestinationNode(args, excaps[0], m).value, args[4] as int, args[5] as int, m).Success?
    ensures var c := m[slot].cap;
            var b := BlockOf(c);
            var free := FreeBytes(b, StartIndex(b, EnsureNoChildren(m, slot).Success?));
            var bits := CheckObject(args, types).value.1;
            var r := DecodeUntyped(isRetype, args, excaps, types, m, slot);
            (free / Pow2(bits) < args[5] as int <==> r == Failure(Syscall(NotEnoughMemory(free))))
            && (free / Pow2(bits) >= args[5] as int ==>
                  (r.Success? <==> !c.isDevice || DeviceMayHold(CheckObject(args, types).value.0)))
  {
  }


  // ---------------------------------------------------------------------
  // The untyped's free index after a retype.

  /**
   * What the kernel keeps true of an untyped: the block is at least 16
   * bytes and at most `seL4_MaxUntypedBits`, it is aligned to its size and
   * lies below 2^64, and the free index points inside it.
   */
  predicate UntypedValid(b: Block)
  {
    && MIN_UNTYPED_BITS <= b.sizeBits <= MAX_UNTYPED_BITS
    && b.base % Pow2(b.sizeBits) == 0
    && b.base + Pow2(b.sizeBits) <= WORD_MODULUS
    && b.freeIndex * FREE_INDEX_UNIT <= Pow2(b.sizeBits)
  }

  /** Object `i` of a retype starts `i` objects past the first one. */
  function ObjectBase(retypeBase: nat, objectBits: nat, i: nat): nat
  {
    retypeBase + i * Pow2(objectBits)
  }

  /**
   * `GET_FREE_INDEX(base, retypeBase + (window << objectBits))` in word
   * arithmetic: the free index just past `window` objects.
   */
  function NextFreeIndex(b: Block, retypeBase: nat, objectBits: nat, window: nat): nat
  {
    var freeRef := ObjectBase(retypeBase, objectBits, window) % WORD_MODULUS;
    ((freeRef - b.base) % WORD_MODULUS) / FREE_INDEX_UNIT
  }

  /**
   * `invokeUntyped_Retype`'s update of the untyped cap: a reset untyped
   * starts over from free index 0 (the clearing itself is not modelled),
   * and the free index then moves past the new objects; nothing else of
   * the cap changes.
   */
  function RetypedUntyped(c: Cap, rt: Retype): (r: Cap)
    requires c.UntypedCap?
    ensures r.UntypedCap?
    ensures BlockOf(r) == BlockOf(c).(freeIndex := NextFreeIndex(BlockOf(c), rt.retypeBase, rt.objectBits, rt.window))
  {
    c.(freeIndex := NextFreeIndex(BlockOf(c), rt.retypeBase, rt.objectBits, rt.window))
  }

  lemma Pow2Divides(a: nat, b: nat)
    requires a <= b
    ensures Pow2(b) % Pow2(a) == 0 && Pow2(b) == Pow2(b - a) * Pow2(a)
  {
    Pow2Add(b - a, a);
    DivModUnique(Pow2(b), Pow2(a), Pow2(b - a), 0);
  }

  /** A multiple of a multiple of `p` is a multiple of `p`. */
  lemma MultipleOfMultiple(x: int, q: int, p: int)
    requires p > 0 && q > 0 && q % p == 0 && x % q == 0
    ensures x % p == 0
  {
    var k, j := x / q, q / p;
    DivModUnique(x, q, k, 0);
    DivModUnique(q, p, j, 0);
    assert x == k * q;
    assert q == j * p;
    assert x == (k * j) * p;
    DivModUnique(x, p, k * j, 0);
  }

  /** A sum and a difference of multiples of `p` are multiples of `p`. */
  lemma MultipleSum(x: int, y: int, p: int)
    requires p > 0 && x % p == 0 && y % p == 0
    ensures (x + y) % p == 0 && (x - y) % p == 0
  {
    DivModUnique(x, p, x / p, 0);
    DivModUnique(y, p, y / p, 0);
    assert x + y == (x / p + y / p) * p;
    assert x - y == (x / p - y / p) * p;
    DivModUnique(x + y, p, x / p + y / p, 0);
    DivModUnique(x - y, p, x / p - y / p, 0);
  }

  /** `w` times `p`, for `w` no more than the number of `p`s in `free`, is a multiple of `p` within `free`. */
  lemma QuotientFits(free: nat, p: nat, w: nat)
    requires p > 0 && w <= free / p
    ensures w * p <= free - free % p && (free - free % p) % p == 0
    ensures w * p % p == 0
  {
    DivModUnique(free - free % p, p, free / p, 0);
    DivModUnique(w * p, p, w, 0);
    assert w * p <= (free / p) * p;
  }

  /** At least one `p` fits in `free` only if `p` does. */
  lemma OneFits(free: nat, p: nat, w: nat)
    requires p > 0 && 1 <= w <= free / p
    ensures p <= free
  {
    QuotientFits(free, p, w);
    assert 1 * p <= w * p;
  }

  /** An object no larger than the block it is carved from has no more size bits. */
  lemma BitsWithin(os: nat, bs: nat)
    requires Pow2(os) <= Pow2(bs)
    ensures os <= bs
  {
    if os > bs {
      Pow2Monotone(bs + 1, os);
      assert false;
    }
  }

  /** The objects of a retype lie at or after the first. */
  lemma ObjectsAfterFirst(first: nat, os: nat, w: nat)
    ensures first <= ObjectBase(first, os, w)
  {
    var p := Pow2(os);
    assert w * p >= 0;
  }

  /**
   * In a block of `B` bytes at `base`, with `off` bytes used and `w`
   * objects of `p` bytes fitting in the rest, a multiple of `p` at or above
   * the used part leaves room for all of them.
   */
  lemma RoomAbove(base: int, B: int, p: int, off: int, w: int) returns (limit: int)
    requires p > 0 && B % p == 0 && base % p == 0
    requires 0 <= off <= B && 1 <= w <= (B - off) / p
    ensures limit % p == 0 && base + off <= limit && limit + w * p <= base + B
  {
    var free := B - off;
    QuotientFits(free, p, w);
    var top := free - free % p;
    MultipleSum(base, B, p);
    MultipleSum(base + B, top, p);
    limit := base + B - top;
  }

  /** Offsets within a block that lies in the address space need no reduction modulo 2^64. */
  lemma WordSumsExact(base: int, B: int, off: int)
    requires 0 <= base && 0 <= off <= B < WORD_MODULUS && base + B <= WORD_MODULUS
    ensures off % WORD_MODULUS == off && (B - off) % WORD_MODULUS == B - off
    ensures off < B ==> (base + off) % WORD_MODULUS == base + off
  {
  }

  /**
   * The free space of a valid untyped, counted from free index `fi`: no
   * wrap-around happens, so it is the block's size less the used offset.
   */
  lemma FreeBytesExact(b: Block, fi: nat)
    requires UntypedValid(b) && (fi == 0 || fi == b.freeIndex)
    ensures FreeOffset(fi) == fi * FREE_INDEX_UNIT <= Pow2(b.sizeBits)
    ensures FreeBytes(b, fi) == Pow2(b.sizeBits) - FreeOffset(fi)
    ensures FreeOffset(fi) < Pow2(b.sizeBits) ==> FreeRef(b, fi) == b.base + FreeOffset(fi)
  {
    Pow2BelowWord(b.sizeBits);
    assert b.sizeBits % 64 == b.sizeBits;
    WordSumsExact(b.base, Pow2(b.sizeBits), fi * FREE_INDEX_UNIT);
  }

  /**
   * An allocation the memory checks admit fits in the untyped: the first
   * object is aligned to its size at or above the used part, and all `w`
   * objects end within the block.  This is the kernel's remark that a
   * request that fits also fits once aligned up.
   */
  lemma AllocationFits(b: Block, reset: bool, t: ObjectType, os: nat, w: nat)
    requires UntypedValid(b) && os < 64 && w >= 1
    requires Allocate(b, reset, t, os, w).Success?
    ensures var first := Allocate(b, reset, t, os, w).value;
            && os <= b.sizeBits
            && first % Pow2(os) == 0
            && b.base + StartIndex(b, reset) * FREE_INDEX_UNIT <= first
            && ObjectBase(first, os, w) <= b.base + Pow2(b.sizeBits)
  {
    FitsFrom(b, StartIndex(b, reset), os, w);
  }

  /** `AllocationFits` for the free index `fi` the request starts from. */
  lemma FitsFrom(b: Block, fi: nat, os: nat, w: nat)
    requires UntypedValid(b) && (fi == 0 || fi == b.freeIndex) && os < 64
    requires 1 <= w <= FreeBytes(b, fi) / Pow2(os)
    ensures var first := AlignUp(FreeRef(b, fi), os);
            && os <= b.sizeBits
            && first % Pow2(os) == 0
            && b.base + fi * FREE_INDEX_UNIT <= first
            && ObjectBase(first, os, w) <= b.base + Pow2(b.sizeBits)
  {
    var off := FreeOffset(fi);
    FreeBytesExact(b, fi);
    AlignedRoom(b.base, b.sizeBits, os, off, w);
    assert FreeRef(b, fi) == b.base + off;
  }

  /**
   * The arithmetic of `AllocationFits`: `w` objects of 2^os bytes that fit
   * in the free part of a block of 2^bs bytes at `base` still fit once the
   * first one is aligned up.
   */
  lemma AlignedRoom(base: nat, bs: nat, os: nat, off: nat, w: nat)
    requires bs < 64 && os < 64 && base % Pow2(bs) == 0 && base + Pow2(bs) <= WORD_MODULUS
    requires off <= Pow2(bs) && 1 <= w <= (Pow2(bs) - off) / Pow2(os)
    ensures os <= bs && off < Pow2(bs) && base + off + Pow2(os) - 1 < WORD_MODULUS
    ensures AlignUp(base + off, os) % Pow2(os) == 0
    ensures base + off <= AlignUp(base + off, os)
    ensures ObjectBase(AlignUp(base + off, os), os, w) <= base + Pow2(bs)
  {
    var B, p := Pow2(bs), Pow2(os);
    OneFits(B - off, p, w);
    BitsWithin(os, bs);
    Pow2Divides(os, bs);
    MultipleOfMultiple(base, B, p);
    var limit := RoomAbove(base, B, p, off, w);
    AlignUpLeast(base + off, os, limit);
  }

  /** The distance from `base` up to `end`, both within the address space, as the kernel's word subtraction gives it. */
  lemma WordDistance(end: int, base: int)
    requires 0 <= base <= end <= WORD_MODULUS && end - base < WORD_MODULUS
    ensures (end % WORD_MODULUS - base) % WORD_MODULUS == end - base
  {
    if end == WORD_MODULUS {
      DivModUnique(0 - base, WORD_MODULUS, -1, end - base);
    }
  }

  /** A retype of objects of at least 16 bytes into an untyped aligned to 16 bytes ends on a 16-byte boundary. */
  lemma EndsOnStep(base: nat, B: int, first: nat, os: nat, w: nat)
    requires MIN_UNTYPED_BITS <= os && B > 0 && B % 16 == 0 && base % B == 0
    requires first % Pow2(os) == 0
    ensures (ObjectBase(first, os, w) - base) % 16 == 0
  {
    var p := Pow2(os);
    Pow2Divides(MIN_UNTYPED_BITS, os);
    assert Pow2(MIN_UNTYPED_BITS) == 16;
    MultipleOfMultiple(base, B, 16);
    MultipleOfMultiple(first, p, 16);
    DivModUnique(w * p, p, w, 0);
    MultipleOfMultiple(w * p, p, 16);
    MultipleSum(first, w * p, 16);
    MultipleSum(first + w * p, base, 16);
  }

  /**
   * After an admitted allocation the untyped stays valid and its free
   * index covers the new objects: it never moves back unless the untyped
   * was reset, and for objects of at least 16 bytes it points exactly past
   * the last one.
   */
  lemma AllocationAdvances(b: Block, reset: bool, t: ObjectType, os: nat, w: nat)
    requires UntypedValid(b) && os < 64 && w >= 1
    requires Allocate(b, reset, t, os, w).Success?
    ensures var first := Allocate(b, reset, t, os, w).value;
            var n := b.(freeIndex := NextFreeIndex(b, first, os, w));
            && UntypedValid(n)
            && (!reset ==> b.freeIndex <= n.freeIndex)
            && b.base + n.freeIndex * FREE_INDEX_UNIT <= ObjectBase(first, os, w)
            && (os >= MIN_UNTYPED_BITS ==> b.base + n.freeIndex * FREE_INDEX_UNIT == ObjectBase(first, os, w))
  {
    var first := Allocate(b, reset, t, os, w).value;
    AllocationFits(b, reset, t, os, w);
    IndexPastObjects(b.base, b.sizeBits, os, first, w, StartIndex(b, reset));
  }

  /** Whole 16-byte steps: `fi` of them within `used` are no more than `used / 16`. */
  lemma StepsBelow(fi: int, used: int)
    requires 0 <= fi && fi * 16 <= used
    ensures fi <= used / 16
  {
    DivModUnique(used, 16, used / 16, used % 16);
  }

  /**
   * Counting in 16-byte steps: the index of the end of objects that lie
   * past `start` steps and within `B` bytes of `base` lies between the two,
   * and counts exactly to the end when the end is on a step.
   */
  lemma IndexArith(base: int, B: int, start: int, first: int, end: int, n: int)
    requires 0 <= start && base + start * 16 <= first <= end <= base + B
    requires n == (end - base) / 16
    ensures n * 16 <= B && start <= n && base + n * 16 <= end
    ensures (end - base) % 16 == 0 ==> base + n * 16 == end
  {
    DivModUnique(end - base, 16, n, (end - base) % 16);
    StepsBelow(start, end - base);
  }

  /**
   * The arithmetic of `AllocationAdvances`: the free index computed from
   * the end of objects that lie in the block, past the used part, stays in
   * the block, does not move back, and lands on the end itself when the
   * objects are multiples of 16 bytes.
   */
  lemma IndexPastObjects(base: nat, bs: nat, os: nat, first: nat, w: nat, start: nat)
    requires MIN_UNTYPED_BITS <= bs < 64 && base % Pow2(bs) == 0 && base + Pow2(bs) <= WORD_MODULUS
    requires first % Pow2(os) == 0 && base + start * FREE_INDEX_UNIT <= first
    requires ObjectBase(first, os, w) <= base + Pow2(bs)
    ensures var n := NextFreeIndex(Block(base, bs, start, false), first, os, w);
            && n * FREE_INDEX_UNIT <= Pow2(bs) && start <= n
            && base + n * FREE_INDEX_UNIT <= ObjectBase(first, os, w)
            && (os >= MIN_UNTYPED_BITS ==> base + n * FREE_INDEX_UNIT == ObjectBase(first, os, w))
  {
    var end := ObjectBase(first, os, w);
    var n := NextFreeIndex(Block(base, bs, start, false), first, os, w);
    NextIndexIsDistance(base, bs, start, first, os, w);
    ObjectsAfterFirst(first, os, w);
    if os >= MIN_UNTYPED_BITS {
      EndOnStep(base, bs, first, os, w);
    }
    IndexArith(base, Pow2(bs), start, first, end, n);
  }

  /** Without wrap-around, the next free index counts the 16-byte steps from the base to the end of the objects. */
  lemma NextIndexIsDistance(base: nat, bs: nat, start: nat, first: nat, os: nat, w: nat)
    requires bs < 64 && base + Pow2(bs) <= WORD_MODULUS
    requires base <= first && ObjectBase(first, os, w) <= base + Pow2(bs)
    ensures NextFreeIndex(Block(base, bs, start, false), first, os, w) == (ObjectBase(first, os, w) - base) / 16
  {
    Pow2BelowWord(bs);
    WordDistance(ObjectBase(first, os, w), base);
  }

  /** Objects of at least 16 bytes in a valid untyped end on a 16-byte step from its base. */
  lemma EndOnStep(base: nat, bs: nat, first: nat, os: nat, w: nat)
    requires MIN_UNTYPED_BITS <= bs && base % Pow2(bs) == 0
    requires MIN_UNTYPED_BITS <= os && first % Pow2(os) == 0
    ensures (ObjectBase(first, os, w) - base) % 16 == 0
  {
    Pow2Divides(MIN_UNTYPED_BITS, bs);
    assert Pow2(MIN_UNTYPED_BITS) == 16;
    EndsOnStep(base, Pow2(bs), first, os, w);
  }

  /**
   * Whatever a decode admits fits in the untyped it is carved from: the
   * first object is aligned to its size at or after the used part, and the
   * whole window of objects ends within the block.
   */
  lemma RetypeFitsInUntyped(isRetype: bool, args: seq<Word>, excaps: seq<Cap>, types: seq<ObjectType>, m: Cdt, slot: nat)
    requires slot in m && m[slot].cap.UntypedCap? && UntypedValid(BlockOf(m[slot].cap))
    requires DecodeUntyped(isRetype, args, excaps, types, m, slot).Success?
    ensures var rt := DecodeUntyped(isRetype, args, excaps, types, m, slot).value;
            var b := BlockOf(m[slot].cap);
            && rt.objectBits <= b.sizeBits
            && rt.retypeBase % Pow2(rt.objectBits) == 0
            && b.base + StartIndex(b, rt.reset) * FREE_INDEX_UNIT <= rt.retypeBase
            && ObjectBase(rt.retypeBase, rt.objectBits, rt.window) <= b.base + Pow2(b.sizeBits)
  {
    var rt := DecodeUntyped(isRetype, args, excaps, types, m, slot).value;
    AdmittedRetype(args, excaps, types, m, slot, rt);
    AllocationFits(BlockOf(m[slot].cap), rt.reset, rt.newType, rt.objectBits, rt.window);
  }

  /**
   * Decoding then invoking a retype keeps the untyped valid, never moves
   * its free index back without a reset, and leaves the free index at (for
   * objects of at least 16 bytes, exactly at) the end of the new objects.
   */
  lemma RetypeKeepsUntypedValid(isRetype: bool, args: seq<Word>, excaps: seq<Cap>, types: seq<ObjectType>, m: Cdt, slot: nat)
    requires slot in m && m[slot].cap.UntypedCap? && UntypedValid(BlockOf(m[slot].cap))
    requires DecodeUntyped(isRetype, args, excaps, types, m, slot).Success?
    ensures var rt := DecodeUntyped(isRetype, args, excaps, types, m, slot).value;
            var b := BlockOf(m[slot].cap);
            var n := BlockOf(RetypedUntyped(m[slot].cap, rt));
            && UntypedValid(n)
            && (!rt.reset ==> b.freeIndex <= n.freeIndex)
            && n.base + n.freeIndex * FREE_INDEX_UNIT <= ObjectBase(rt.retypeBase, rt.objectBits, rt.window)
            && (rt.objectBits >= MIN_UNTYPED_BITS ==>
                  n.base + n.freeIndex * FREE_INDEX_UNIT == ObjectBase(rt.retypeBase, rt.objectBits, rt.window))
  {
    var rt := DecodeUntyped(isRetype, args, excaps, types, m, slot).value;
    AdmittedRetype(args, excaps, types, m, slot, rt);
    AllocationAdvances(BlockOf(m[slot].cap), rt.reset, rt.newType, rt.objectBits, rt.window);
  }
}
