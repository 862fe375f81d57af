/**
 * The argument checks of the thread-control invocations in `tcb.c`:
 * `checkPrio`, and the decode steps of `ReadRegisters`, `WriteRegisters`
 * and `SetBreakpoint`.  Each decode either names the error the caller gets
 * or returns the request the invocation then carries out; on success the
 * caller is set to `Restart`, which the scheduler modules model.  The
 * message words arrive already read (`getSyscallArg`).
 */
module TcbDecode {
  import opened Wrappers
  import opened Sel4Words
  import opened Sel4Errors

  /** `seL4_MinPrio`. */
  const MIN_PRIO: nat := 0

  /**
   * `checkPrio`: a thread may hand out priorities up to its maximum
   * controlled priority and no higher.
   */
  function CheckPrio(prio: nat, mcp: nat): (r: Option<SyscallError>)
    ensures r.None? <==> prio <= mcp
    ensures r.Some? ==> r.value == RangeError(MIN_PRIO, mcp)
  {
    if prio > mcp then Some(RangeError(MIN_PRIO, mcp)) else None
  }

  /** A priority the check admits admits every lower one, and the MCP itself is always admitted. */
  lemma CheckPrioDownwardClosed(prio: nat, lower: nat, mcp: nat)
    requires CheckPrio(prio, mcp).None? && lower <= prio
    ensures CheckPrio(lower, mcp).None? && CheckPrio(mcp, mcp).None?
  {
  }

  // ---------------------------------------------------------------------
  // Registers

  /** `n_frameRegisters` and `n_gpRegisters` on x86-64. */
  const N_FRAME_REGISTERS: nat := 18
  const N_GP_REGISTERS: nat := 2

  /** What `invokeTCB_ReadRegisters` is asked to do. */
  datatype ReadRequest = ReadRequest(target: nat, suspendSource: bool, count: nat)

  /**
   * `decodeReadRegisters` with message words `flags` and `n`, for a thread
   * capability to `target` invoked by `cur`.
   */
  function DecodeReadRegisters(length: nat, flags: Word, n: Word, target: nat, cur: nat): (r: Result<ReadRequest, SyscallError>)
    ensures r.Success? <==> length >= 2 && 1 <= n as nat <= N_FRAME_REGISTERS + N_GP_REGISTERS && target != cur
    ensures r.Success? ==> r.value == ReadRequest(target, flags & 1 != 0, n as nat)
    ensures length < 2 ==> r == Failure(TruncatedMessage)
    ensures length >= 2 && !(1 <= n as nat <= N_FRAME_REGISTERS + N_GP_REGISTERS) ==>
      r == Failure(RangeError(1, N_FRAME_REGISTERS + N_GP_REGISTERS))
    ensures length >= 2 && 1 <= n as nat <= N_FRAME_REGISTERS + N_GP_REGISTERS && target == cur ==> r == Failure(IllegalOperation)
  {
    if length < 2 then Failure(TruncatedMessage)
    else if n < 1 || n as nat > N_FRAME_REGISTERS + N_GP_REGISTERS then
      Failure(RangeError(1, N_FRAME_REGISTERS + N_GP_REGISTERS))
    else if target == cur then Failure(IllegalOperation)
    else Success(ReadRequest(target, flags & 1 != 0, n as nat))
  }

  /** What `invokeTCB_WriteRegisters` is asked to do. */
  datatype WriteRequest = WriteRequest(target: nat, resumeTarget: bool, count: nat)

  /**
   * `decodeWriteRegisters`: the message must hold the two header words and
   * then at least `w` register values.
   */
  function DecodeWriteRegisters(length: nat, flags: Word, w: Word, target: nat, cur: nat): (r: Result<WriteRequest, SyscallError>)
    ensures r.Success? <==> length >= 2 && w as nat + 2 <= length && target != cur
    ensures r.Success? ==> r.value == WriteRequest(target, flags & 1 != 0, w as nat)
    ensures (length < 2 || length - 2 < w as nat) ==> r == Failure(TruncatedMessage)
    ensures length >= 2 && w as nat + 2 <= length && target == cur ==> r == Failure(IllegalOperation)
  {
    if length < 2 then Failure(TruncatedMessage)
    else if length - 2 < w as nat then Failure(TruncatedMessage)
    else if target == cur then Failure(IllegalOperation)
    else Success(WriteRequest(target, flags & 1 != 0, w as nat))
  }

  /** The values a write request carries are all inside the message. */
  lemma WriteStaysInMessage(length: nat, flags: Word, w: Word, target: nat, cur: nat)
    requires DecodeWriteRegisters(length, flags, w, target, cur).Success?
    ensures 2 + DecodeWriteRegisters(length, flags, w, target, cur).value.count <= length
  {
  }

  // ---------------------------------------------------------------------
  // Breakpoints

  /** `seL4_BreakpointType`. */
  const DATA_BREAKPOINT: Word := 0
  const INSTRUCTION_BREAKPOINT: Word := 1
  const SINGLE_STEP: Word := 2
  const SOFTWARE_BREAK_REQUEST: Word := 3

  /** `seL4_BreakpointAccess`. */
  const BREAK_ON_READ: Word := 0
  const BREAK_ON_WRITE: Word := 1
  const BREAK_ON_READ_WRITE: Word := 2

  /** `USER_TOP` on x86-64: the first address past user space. */
  const USER_TOP: Word := 0x7FFF_FFFF_FFFF

  /**
   * The architecture's debug-register numbering: `seL4_FirstBreakpoint`
   * and `seL4_FirstWatchpoint`, -1 where the architecture has no
   * exclusive ones (x86 has only dual-function monitors).
   */
  datatype DebugConfig = DebugConfig(firstBreakpoint: int, firstWatchpoint: int)

  /** What `invokeSetBreakpoint` is asked to program. */
  datatype Breakpoint = Breakpoint(bpNum: nat, vaddr: Word, bpType: Word, size: Word, rw: Word)

  /** `bp_num` is a `uint16_t`: the message word is truncated. */
  function BpNum(arg0: Word): (n: nat)
    ensures n < 0x1_0000
  {
    arg0 as nat % 0x1_0000
  }

  /**
   * `decodeSetBreakpoint`; `arch` is the verdict of
   * `Arch_decodeSetBreakpoint`, which runs only when every generic check
   * has passed.
   */
  function DecodeSetBreakpoint(cfg: DebugConfig, arg0: Word, vaddr: Word, bpType: Word, size: Word, rw: Word,
                               arch: Option<SyscallError>): (r: Result<Breakpoint, SyscallError>)
  {
    var bp := BpNum(arg0);
    if vaddr >= USER_TOP then Failure(InvalidArgument(1))
    else if bpType != INSTRUCTION_BREAKPOINT && bpType != DATA_BREAKPOINT then Failure(InvalidArgument(2))
    else if bpType == INSTRUCTION_BREAKPOINT && size != 0 then Failure(InvalidArgument(3))
    else if bpType == INSTRUCTION_BREAKPOINT && rw != BREAK_ON_READ then Failure(InvalidArgument(4))
    else if bpType == INSTRUCTION_BREAKPOINT && (cfg.firstWatchpoint == -1 || bp >= cfg.firstWatchpoint)
            && cfg.firstBreakpoint != cfg.firstWatchpoint then Failure(InvalidArgument(2))
    else if bpType == DATA_BREAKPOINT && size == 0 then Failure(InvalidArgument(3))
    else if bpType == DATA_BREAKPOINT && cfg.firstWatchpoint != -1 && bp < cfg.firstWatchpoint then Failure(InvalidArgument(2))
    // the branch for `seL4_SoftwareBreakRequest` cannot be reached: the type is one of the two above
    else if rw != BREAK_ON_READ && rw != BREAK_ON_WRITE && rw != BREAK_ON_READ_WRITE then Failure(InvalidArgument(3))
    else if size != 0 && size != 1 && size != 2 && size != 4 && size != 8 then Failure(InvalidArgument(3))
    else if size > 0 && vaddr & (size - 1) != 0 then Failure(AlignmentError)
    else if arch.Some? then Failure(arch.value)
    else Success(Breakpoint(bp, vaddr, bpType, size, rw))
  }

  /** The breakpoints the generic checks admit, stated per kind. */
  predicate Acceptable(cfg: DebugConfig, bp: nat, vaddr: Word, bpType: Word, size: Word, rw: Word)
  {
    vaddr < USER_TOP
    && (|| (bpType == INSTRUCTION_BREAKPOINT && size == 0 && rw == BREAK_ON_READ
            && !((cfg.firstWatchpoint == -1 || bp >= cfg.firstWatchpoint) && cfg.firstBreakpoint != cfg.firstWatchpoint))
        || (bpType == DATA_BREAKPOINT && size in {1, 2, 4, 8}
            && rw in {BREAK_ON_READ, BREAK_ON_WRITE, BREAK_ON_READ_WRITE}
            && !(cfg.firstWatchpoint != -1 && bp < cfg.firstWatchpoint)
            && SizeAligned(vaddr, size)))
  }

  /** `vaddr` is a multiple of the watchpoint size. */
  predicate SizeAligned(vaddr: Word, size: Word)
  {
    if size == 2 then vaddr % 2 == 0
    else if size == 4 then vaddr % 4 == 0
    else if size == 8 then vaddr % 8 == 0
    else true
  }

  /** The mask test the decode applies is divisibility by the size, for every size it admits. */
  lemma AlignedIsMultiple(vaddr: Word, size: Word)
    requires size in {1, 2, 4, 8}
    ensures (vaddr & (size - 1) == 0) <==> SizeAligned(vaddr, size)
  {
    if size == 2 { Aligned2(vaddr); }
    else if size == 4 { Aligned4(vaddr); }
    else if size == 8 { Aligned8(vaddr); }
  }

  lemma Aligned2(vaddr: Word) ensures (vaddr & 1 == 0) <==> vaddr % 2 == 0 {}
  lemma Aligned4(vaddr: Word) ensures (vaddr & 3 == 0) <==> vaddr % 4 == 0 {}
  lemma Aligned8(vaddr: Word) ensures (vaddr & 7 == 0) <==> vaddr % 8 == 0 {}

  /**
   * A breakpoint is programmed exactly when it is acceptable and the
   * architecture agrees, and then with the requested parameters.
   */
  lemma SetBreakpointAcceptsExactly(cfg: DebugConfig, arg0: Word, vaddr: Word, bpType: Word, size: Word, rw: Word,
                                    arch: Option<SyscallError>)
    ensures DecodeSetBreakpoint(cfg, arg0, vaddr, bpType, size, rw, arch).Success?
        <==> Acceptable(cfg, BpNum(arg0), vaddr, bpType, size, rw) && arch.None?
    ensures DecodeSetBreakpoint(cfg, arg0, vaddr, bpType, size, rw, arch).Success? ==>
      DecodeSetBreakpoint(cfg, arg0, vaddr, bpType, size, rw, arch).value == Breakpoint(BpNum(arg0), vaddr, bpType, size, rw)
  {
    if bpType == DATA_BREAKPOINT && size in {1, 2, 4, 8} {
      AlignedIsMultiple(vaddr, size);
    }
  }

  /** A watchpoint whose address is not a multiple of its size gets `AlignmentError` once every earlier check passes. */
  lemma UnalignedWatchpointRejected(cfg: DebugConfig, arg0: Word, vaddr: Word, size: Word, rw: Word, arch: Option<SyscallError>)
    requires vaddr < USER_TOP && size in {2, 4, 8} && rw in {BREAK_ON_READ, BREAK_ON_WRITE, BREAK_ON_READ_WRITE}
    requires !(cfg.firstWatchpoint != -1 && BpNum(arg0) < cfg.firstWatchpoint)
    requires !SizeAligned(vaddr, size)
    ensures DecodeSetBreakpoint(cfg, arg0, vaddr, DATA_BREAKPOINT, size, rw, arch) == Failure(AlignmentError)
  {
    AlignedIsMultiple(vaddr, size);
  }

  /** With x86's numbering every instruction breakpoint number passes the numbering check. */
  lemma X86InstructionNumbersFree(arg0: Word, vaddr: Word, arch: Option<SyscallError>)
    requires vaddr < USER_TOP
    ensures DecodeSetBreakpoint(DebugConfig(-1, -1), arg0, vaddr, INSTRUCTION_BREAKPOINT, 0, BREAK_ON_READ, arch).Success? <==> arch.None?
  {
  }
}
