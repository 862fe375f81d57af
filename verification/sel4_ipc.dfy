/**
 * The message-register plumbing of IPC in `task_ipc.rs`: a message word is
 * either one of the `n_msgRegisters` message registers of a thread or a
 * word of its IPC buffer.  Word `i` of a message lives in register `i` when
 * `i < n_msgRegisters` and in buffer word `i + 1` otherwise (buffer word 0
 * holds the tag).  `copyMRs`, `setMR` and `getSyscallArg` all follow that
 * layout; `lookupExtraCaps` resolves the capability pointers a message
 * carries.
 */
module Ipc {
  import opened Wrappers
  import opened Sel4Words
  import opened Sel4Errors
  import opened CSpace

  /** `n_msgRegisters` on x86-64 (R10, R8, R9, R15). */
  const N_MSG_REGISTERS: nat := 4

  /** `seL4_MsgMaxExtraCaps`: `(1 << seL4_MsgExtraCapBits) - 1`. */
  const MAX_EXTRA_CAPS: nat := 3

  /** The values a thread's message registers hold. */
  type Mrs = s: seq<Word> | |s| == N_MSG_REGISTERS witness [0, 0, 0, 0]

  /** The words of an IPC buffer, by index; a word never written reads as 0. */
  type Buffer = map<nat, Word>

  function BufWord(b: Buffer, k: nat): Word
  {
    if k in b then b[k] else 0
  }

  /** What a thread's messages are made of: its message registers and its IPC buffer, if it has one. */
  datatype MsgView = MsgView(mrs: Mrs, buffer: Option<Buffer>)

  /** Message word `i` of a thread, or nothing when it lies beyond the registers and there is no buffer. */
  function MessageWord(v: MsgView, i: nat): Option<Word>
  {
    if i < N_MSG_REGISTERS then Some(v.mrs[i])
    else if v.buffer.Some? then Some(BufWord(v.buffer.value, i + 1))
    else None
  }

  // ---------------------------------------------------------------------
  // getSyscallArg and setMR

  /**
   * `getSyscallArg(i, ipc_buffer)`: argument `i` of the current thread.  The
   * buffer is dereferenced without a check, so a caller asking beyond the
   * registers must supply one.
   */
  function GetSyscallArg(i: nat, v: MsgView): (r: Word)
    requires i >= N_MSG_REGISTERS ==> v.buffer.Some?
    ensures MessageWord(v, i) == Some(r)
  {
    if i < N_MSG_REGISTERS then v.mrs[i] else BufWord(v.buffer.value, i + 1)
  }

  /** `u32` addition as the release build performs it. */
  function AddU32(a: nat, b: nat): (r: nat)
    ensures r < 0x1_0000_0000
  {
    (a + b) % 0x1_0000_0000
  }

  /**
   * `setMR(receiver, receiveIPCBuffer, offset, reg)`: write message word
   * `offset` and return the offset of the next word.  Past the registers
   * without a buffer nothing is written and the answer is `n_msgRegisters`.
   * The offset is a `u32` and `offset + 1` is computed in `u32`.
   */
  function SetMR(v: MsgView, offset: nat, reg: Word): (r: (MsgView, nat))
    requires offset < 0x1_0000_0000
    ensures r.0.buffer.Some? <==> v.buffer.Some?
    ensures offset < N_MSG_REGISTERS || v.buffer.Some? ==> r.1 == AddU32(offset, 1)
    ensures offset >= N_MSG_REGISTERS && v.buffer.None? ==> r == (v, N_MSG_REGISTERS)
  {
    if offset >= N_MSG_REGISTERS then
      if v.buffer.Some? then
        var k := AddU32(offset, 1);
        (v.(buffer := Some(v.buffer.value[k := reg])), k)
      else
        (v, N_MSG_REGISTERS)
    else
      (v.(mrs := v.mrs[offset := reg]), offset + 1)
  }

  /** A word written by `setMR` is the word `getSyscallArg` reads back at that offset, below the `u32` limit. */
  lemma SetThenGet(v: MsgView, offset: nat, reg: Word)
    requires offset < 0xFFFF_FFFF
    requires offset >= N_MSG_REGISTERS ==> v.buffer.Some?
    ensures MessageWord(SetMR(v, offset, reg).0, offset) == Some(reg)
    ensures GetSyscallArg(offset, SetMR(v, offset, reg).0) == reg
  {
  }

  /** `setMR` changes no other message word. */
  lemma SetLeavesOthers(v: MsgView, offset: nat, reg: Word, j: nat)
    requires offset < 0xFFFF_FFFF && j != offset
    ensures MessageWord(SetMR(v, offset, reg).0, j) == MessageWord(v, j)
  {
  }

  /** At the last `u32` offset the index wraps: the word lands in buffer word 0, the message tag. */
  lemma SetMRWrapsToTag(v: MsgView, reg: Word)
    requires v.buffer.Some?
    ensures SetMR(v, 0xFFFF_FFFF, reg).1 == 0
    ensures SetMR(v, 0xFFFF_FFFF, reg).0.buffer.value[0] == reg
  {
  }

  // ---------------------------------------------------------------------
  // copyMRs

  /**
   * `copyMRs(sender, sendBuf, receiver, recvBuf, n)`: copy the first `n`
   * message words from sender to receiver.  The registers are copied first;
   * when either thread lacks a buffer the copy stops there.  Returns the
   * receiver's new view and the number of words copied.
   */
  method CopyMRs(sender: MsgView, receiver: MsgView, n: Word) returns (recv: MsgView, count: Word)
    ensures count as int == if sender.buffer.None? || receiver.buffer.None? then Min(n as int, N_MSG_REGISTERS) else n as int
    ensures recv.buffer.Some? <==> receiver.buffer.Some?
    ensures forall i: nat :: i < count as int ==> MessageWord(recv, i) == MessageWord(sender, i)
    ensures forall i: nat :: i >= count as int ==> MessageWord(recv, i) == MessageWord(receiver, i)
    ensures receiver.buffer.Some? ==> BufWord(recv.buffer.value, 0) == BufWord(receiver.buffer.value, 0)
  {
    var mrs, i := CopyRegisters(sender.mrs, receiver.mrs, n as int);
    if receiver.buffer.None? || sender.buffer.None? {
      recv := receiver.(mrs := mrs);
      count := i as Word;
      RegistersCopied(sender, receiver, mrs, i);
      return;
    }
    var buf := CopyBufferWords(sender.buffer.value, receiver.buffer.value, i, n as int);
    recv := MsgView(mrs, Some(buf));
    count := n;
    BufferCopied(sender, receiver, mrs, buf, i, n as int);
  }

  /** What the message words are after only the registers below `i` were copied. */
  lemma RegistersCopied(sender: MsgView, receiver: MsgView, mrs: Mrs, i: nat)
    requires i <= N_MSG_REGISTERS
    requires forall j :: 0 <= j < i ==> mrs[j] == sender.mrs[j]
    requires forall j :: i <= j < N_MSG_REGISTERS ==> mrs[j] == receiver.mrs[j]
    ensures forall j: nat :: j < i ==> MessageWord(receiver.(mrs := mrs), j) == MessageWord(sender, j)
    ensures forall j: nat :: j >= i ==> MessageWord(receiver.(mrs := mrs), j) == MessageWord(receiver, j)
  {
  }

  /** What the message words are after the registers and the buffer words up to `n` were copied. */
  lemma BufferCopied(sender: MsgView, receiver: MsgView, mrs: Mrs, buf: Buffer, i: nat, n: nat)
    requires sender.buffer.Some? && receiver.buffer.Some?
    requires i == Min(n, N_MSG_REGISTERS)
    requires forall j :: 0 <= j < i ==> mrs[j] == sender.mrs[j]
    requires forall j :: i <= j < N_MSG_REGISTERS ==> mrs[j] == receiver.mrs[j]
    requires forall w: nat :: i < w <= n ==> BufWord(buf, w) == BufWord(sender.buffer.value, w)
    requires forall w: nat :: (w <= i || w > n) ==> BufWord(buf, w) == BufWord(receiver.buffer.value, w)
    ensures forall j: nat :: j < n ==> MessageWord(MsgView(mrs, Some(buf)), j) == MessageWord(sender, j)
    ensures forall j: nat :: j >= n ==> MessageWord(MsgView(mrs, Some(buf)), j) == MessageWord(receiver, j)
    ensures BufWord(buf, 0) == BufWord(receiver.buffer.value, 0)
  {
    forall j: nat | j < n ensures MessageWord(MsgView(mrs, Some(buf)), j) == MessageWord(sender, j) {
      if j >= N_MSG_REGISTERS {
        assert BufWord(buf, j + 1) == BufWord(sender.buffer.value, j + 1);
      }
    }
    forall j: nat | j >= n ensures MessageWord(MsgView(mrs, Some(buf)), j) == MessageWord(receiver, j) {
      if j >= N_MSG_REGISTERS {
        assert BufWord(buf, j + 1) == BufWord(receiver.buffer.value, j + 1);
      }
    }
  }

  /** The first loop of `copyMRs`: the registers below `min(n, n_msgRegisters)`. */
  method CopyRegisters(from: Mrs, to: Mrs, n: nat) returns (mrs: Mrs, i: nat)
    ensures i == Min(n, N_MSG_REGISTERS)
    ensures forall j :: 0 <= j < i ==> mrs[j] == from[j]
    ensures forall j :: i <= j < N_MSG_REGISTERS ==> mrs[j] == to[j]
  {
    i := 0;
    mrs := to;
    while i < n && i < N_MSG_REGISTERS
      invariant i <= n && i <= N_MSG_REGISTERS
      invariant forall j :: 0 <= j < i ==> mrs[j] == from[j]
      invariant forall j :: i <= j < N_MSG_REGISTERS ==> mrs[j] == to[j]
    {
      mrs := mrs[i := from[i]];
      i := i + 1;
    }
  }

  /** The second loop of `copyMRs`: buffer words `start + 1` to `n`. */
  method CopyBufferWords(from: Buffer, to: Buffer, start: nat, n: nat) returns (buf: Buffer)
    requires start <= n
    ensures forall w: nat :: start < w <= n ==> BufWord(buf, w) == BufWord(from, w)
    ensures forall w: nat :: (w <= start || w > n) ==> BufWord(buf, w) == BufWord(to, w)
  {
    var i := start;
    buf := to;
    while i < n
      invariant start <= i <= n
      invariant forall w: nat :: start < w <= i ==> BufWord(buf, w) == BufWord(from, w)
      invariant forall w: nat :: (w <= start || w > i) ==> BufWord(buf, w) == BufWord(to, w)
    {
      buf := buf[i + 1 := BufWord(from, i + 1)];
      i := i + 1;
    }
  }

  function Min(a: int, b: int): int
  {
    if a < b then a else b
  }

  // ---------------------------------------------------------------------
  // lookupExtraCaps

  /**
   * Where the IPC buffer keeps extra-cap pointer `i`: after the
   * `seL4_MsgMaxLength` message words, the tag and the user data word,
   * as seL4's `getExtraCPtr` places it.
   */
  function ExtraCPtr(b: Buffer, i: nat): Word
  {
    BufWord(b, MSG_MAX_LENGTH as nat + 2 + i)
  }

  /** The number of extra caps a message declares; the field is two bits wide. */
  function ExtraCapCount(info: MessageInfo): (k: nat)
    ensures k <= MAX_EXTRA_CAPS
  {
    ExtraCapsFits(info);
    var e := ExtraCaps(info);
    if e == 0 then 0 else if e == 1 then 1 else if e == 2 then 2 else 3
  }

  /** Each of `refs` is the slot the lookup of the matching extra-cap pointer found. */
  predicate FoundAll(slots: Slots, thread: Word, b: Buffer, refs: seq<Word>)
  {
    forall i :: 0 <= i < |refs| ==> LookupSlot(slots, thread, ExtraCPtr(b, i)) == Success(refs[i])
  }

  lemma FoundAllExtend(slots: Slots, thread: Word, b: Buffer, refs: seq<Word>, slot: Word)
    requires FoundAll(slots, thread, b, refs)
    requires LookupSlot(slots, thread, ExtraCPtr(b, |refs|)) == Success(slot)
    ensures FoundAll(slots, thread, b, refs + [slot])
  {
    forall i | 0 <= i < |refs| + 1
      ensures LookupSlot(slots, thread, ExtraCPtr(b, i)) == Success((refs + [slot])[i])
    {
      if i < |refs| {
        assert (refs + [slot])[i] == refs[i];
      }
    }
  }

  /** The outcome of `lookupExtraCaps`: the slots found, or the failing status and the capability fault it records. */
  datatype ExtraCapLookup =
    | ExtraCapRefs(refs: seq<Word>)
    | ExtraCapFault(status: Exception, cptr: Word)

  /**
   * `lookupExtraCaps(thread, bufferPtr, info)`: look up each of the
   * `extraCaps` pointers in the thread's CSpace.  Without a buffer there are
   * none.  The first failed lookup ends the walk with a `CapFault` on that
   * pointer.
   */
  method LookupExtraCaps(slots: Slots, thread: Word, buffer: Option<Buffer>, info: MessageInfo) returns (r: ExtraCapLookup)
    ensures buffer.None? ==> r == ExtraCapRefs([])
    ensures r.ExtraCapRefs? && buffer.Some? ==>
      |r.refs| == ExtraCapCount(info) &&
      FoundAll(slots, thread, buffer.value, r.refs)
    ensures r.ExtraCapFault? ==>
      buffer.Some? &&
      exists j :: 0 <= j < ExtraCapCount(info) &&
        r.cptr == ExtraCPtr(buffer.value, j) &&
        LookupSlot(slots, thread, r.cptr) == Failure(r.status) &&
        forall k :: 0 <= k < j ==> LookupSlot(slots, thread, ExtraCPtr(buffer.value, k)).Success?
  {
    if buffer.None? {
      return ExtraCapRefs([]);
    }
    var length := ExtraCapCount(info);
    var refs: seq<Word> := [];
    var i := 0;
    while i < length
      invariant i <= length && |refs| == i
      invariant FoundAll(slots, thread, buffer.value, refs)
    {
      var cptr := ExtraCPtr(buffer.value, i);
      var lu := LookupSlot(slots, thread, cptr);
      if lu.Failure? {
        return ExtraCapFault(lu.error, cptr);
      }
      FoundAllExtend(slots, thread, buffer.value, refs, lu.value);
      refs := refs + [lu.value];
      i := i + 1;
    }
    return ExtraCapRefs(refs);
  }
}
