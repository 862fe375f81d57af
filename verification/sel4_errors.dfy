/**
 * The failure vocabulary of the seL4 kernel: the user-visible `seL4_Error`
 * kinds together with the auxiliary values `current_syscall_error` carries
 * for each, and the lookup faults `current_lookup_fault` records.
 */
module Sel4Errors {
  import opened Sel4Words

  /** `lookup_fault_t`: why a capability address did not resolve. */
  datatype LookupFault =
    | InvalidRoot
    | MissingCapability(bitsLeft: nat)
    | DepthMismatch(bitsFound: nat, bitsLeft: nat)
    | GuardMismatch(guardFound: Word, bitsLeft: nat, guardSize: nat)

  /** `seL4_Error`, each kind with the `syscall_error_t` fields it sets. */
  datatype SyscallError =
    | InvalidArgument(argumentNumber: nat)
    | InvalidCapability(capNumber: nat)
    | IllegalOperation
    | RangeError(rangeMin: int, rangeMax: int)
    | AlignmentError
    | FailedLookup(wasSource: bool, fault: LookupFault)
    | TruncatedMessage
    | DeleteFirst
    | RevokeFirst
    | NotEnoughMemory(memoryLeft: int)

  /** The numeric `seL4_Error` code of an error kind, as `types.rs` numbers them. */
  function ErrorCode(e: SyscallError): (n: nat)
    ensures 1 <= n <= 10
  {
    match e
    case InvalidArgument(_) => 1
    case InvalidCapability(_) => 2
    case IllegalOperation => 3
    case RangeError(_, _) => 4
    case AlignmentError => 5
    case FailedLookup(_, _) => 6
    case TruncatedMessage => 7
    case DeleteFirst => 8
    case RevokeFirst => 9
    case NotEnoughMemory(_) => 10
  }

  /**
   * How an operation ends short of success: a lookup fault reported to the
   * thread, a system-call error, or a kernel `fail`/`assert` that halts.
   */
  datatype Exception =
    | LookupFaultException(fault: LookupFault)
    | SyscallErrorException(error: SyscallError)
    | KernelHalt
}
