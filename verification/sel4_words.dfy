/**
 * The word-level encodings of `types.rs`: the message-info word, the
 * zombie capability's number/pointer word and the TCB's capability slots.
 * Words are 64-bit.  `MASK!(n)` shifts `1u64` by `n`, which a release build
 * takes modulo 64; a debug build would panic for `n >= 64`.
 *
 * Each bit-level fact is proved on its own in a one-line helper lemma and
 * the properties of the encodings are assembled from those.
 */
module Sel4Words {
  type Word = bv64

  /** `MASK!(n)`: the low `n` bits set. */
  function Mask(n: Word): Word
  {
    ((1 as Word) << (n & 63)) - 1
  }

  // ---------------------------------------------------------------------
  // Message info: label (52 bits) << 12, capsUnwrapped (3) << 9,
  // extraCaps (2) << 7, length (7).

  /** `seL4_MsgMaxLength`. */
  const MSG_MAX_LENGTH: Word := 120

  datatype MessageInfo = MessageInfo(word: Word)

  function Length(mi: MessageInfo): Word { mi.word & 0x7f }
  function ExtraCaps(mi: MessageInfo): Word { (mi.word & 0x180) >> 7 }
  function CapsUnwrapped(mi: MessageInfo): Word { (mi.word & 0xe00) >> 9 }
  /** The label field (its reader is not part of `types.rs`). */
  function Label(mi: MessageInfo): Word { mi.word >> 12 }

  /** `seL4_MessageInfo_new`. */
  function NewMessageInfo(lbl: Word, capsUnwrapped: Word, extraCaps: Word, length: Word): MessageInfo
  {
    MessageInfo(((lbl & 0xf_ffff_ffff_ffff) << 12) | ((capsUnwrapped & 0x7) << 9)
                | ((extraCaps & 0x3) << 7) | (length & 0x7f))
  }

  /** `seL4_MessageInfo_set_length`. */
  function SetLength(mi: MessageInfo, v: Word): MessageInfo
  {
    MessageInfo((mi.word & !0x7f) | (v & 0x7f))
  }

  /** `seL4_MessageInfo_set_extraCaps`. */
  function SetExtraCaps(mi: MessageInfo, v: Word): MessageInfo
  {
    MessageInfo((mi.word & !0x180) | ((v << 7) & 0x180))
  }

  /** `seL4_MessageInfo_set_capsUnwrapped`. */
  function SetCapsUnwrapped(mi: MessageInfo, v: Word): MessageInfo
  {
    MessageInfo((mi.word & !0xe00) | ((v << 9) & 0xe00))
  }

  lemma NewLabel(a: Word, b: Word, c: Word, d: Word)
    ensures Label(NewMessageInfo(a, b, c, d)) == a & 0xf_ffff_ffff_ffff
  {}
  lemma NewCapsUnwrapped(a: Word, b: Word, c: Word, d: Word)
    ensures CapsUnwrapped(NewMessageInfo(a, b, c, d)) == b & 0x7
  {}
  lemma NewExtraCaps(a: Word, b: Word, c: Word, d: Word)
    ensures ExtraCaps(NewMessageInfo(a, b, c, d)) == c & 0x3
  {}
  lemma NewLength(a: Word, b: Word, c: Word, d: Word)
    ensures Length(NewMessageInfo(a, b, c, d)) == d & 0x7f
  {}

  /** Each getter of a new message info returns its argument cut to the field's width. */
  lemma NewReadsBack(lbl: Word, capsUnwrapped: Word, extraCaps: Word, length: Word)
    ensures var mi := NewMessageInfo(lbl, capsUnwrapped, extraCaps, length);
            Label(mi) == lbl & 0xf_ffff_ffff_ffff && CapsUnwrapped(mi) == capsUnwrapped & 0x7
            && ExtraCaps(mi) == extraCaps & 0x3 && Length(mi) == length & 0x7f
  {
    NewLabel(lbl, capsUnwrapped, extraCaps, length);
    NewCapsUnwrapped(lbl, capsUnwrapped, extraCaps, length);
    NewExtraCaps(lbl, capsUnwrapped, extraCaps, length);
    NewLength(lbl, capsUnwrapped, extraCaps, length);
  }

  lemma SetLengthLength(mi: MessageInfo, v: Word) ensures Length(SetLength(mi, v)) == v & 0x7f {}
  lemma SetLengthLabel(mi: MessageInfo, v: Word) ensures Label(SetLength(mi, v)) == Label(mi) {}
  lemma SetLengthCaps(mi: MessageInfo, v: Word) ensures CapsUnwrapped(SetLength(mi, v)) == CapsUnwrapped(mi) {}
  lemma SetLengthExtra(mi: MessageInfo, v: Word) ensures ExtraCaps(SetLength(mi, v)) == ExtraCaps(mi) {}

  /** Setting the length changes the length field alone. */
  lemma SetLengthOnlyLength(mi: MessageInfo, v: Word)
    ensures var r := SetLength(mi, v);
            Length(r) == v & 0x7f && Label(r) == Label(mi)
            && CapsUnwrapped(r) == CapsUnwrapped(mi) && ExtraCaps(r) == ExtraCaps(mi)
  {
    SetLengthLength(mi, v);
    SetLengthLabel(mi, v);
    SetLengthCaps(mi, v);
    SetLengthExtra(mi, v);
  }

  lemma SetExtraExtra(mi: MessageInfo, v: Word) ensures ExtraCaps(SetExtraCaps(mi, v)) == v & 0x3 {}
  lemma SetExtraLabel(mi: MessageInfo, v: Word) ensures Label(SetExtraCaps(mi, v)) == Label(mi) {}
  lemma SetExtraUnwrapped(mi: MessageInfo, v: Word) ensures CapsUnwrapped(SetExtraCaps(mi, v)) == CapsUnwrapped(mi) {}
  lemma SetExtraLength(mi: MessageInfo, v: Word) ensures Length(SetExtraCaps(mi, v)) == Length(mi) {}

  /** Setting the extra-caps count changes that field alone. */
  lemma SetExtraCapsOnlyExtraCaps(mi: MessageInfo, v: Word)
    ensures var r := SetExtraCaps(mi, v);
            ExtraCaps(r) == v & 0x3 && Label(r) == Label(mi)
            && CapsUnwrapped(r) == CapsUnwrapped(mi) && Length(r) == Length(mi)
  {
    SetExtraExtra(mi, v);
    SetExtraLabel(mi, v);
    SetExtraUnwrapped(mi, v);
    SetExtraLength(mi, v);
  }

  lemma SetUnwrappedCaps(mi: MessageInfo, v: Word) ensures CapsUnwrapped(SetCapsUnwrapped(mi, v)) == v & 0x7 {}
  lemma SetUnwrappedLabel(mi: MessageInfo, v: Word) ensures Label(SetCapsUnwrapped(mi, v)) == Label(mi) {}
  lemma SetUnwrappedExtra(mi: MessageInfo, v: Word) ensures ExtraCaps(SetCapsUnwrapped(mi, v)) == ExtraCaps(mi) {}
  lemma SetUnwrappedLength(mi: MessageInfo, v: Word) ensures Length(SetCapsUnwrapped(mi, v)) == Length(mi) {}

  /** Setting the unwrapped-caps mask changes that field alone. */
  lemma SetCapsUnwrappedOnlyCapsUnwrapped(mi: MessageInfo, v: Word)
    ensures var r := SetCapsUnwrapped(mi, v);
            CapsUnwrapped(r) == v & 0x7 && Label(r) == Label(mi)
            && ExtraCaps(r) == ExtraCaps(mi) && Length(r) == Length(mi)
  {
    SetUnwrappedCaps(mi, v);
    SetUnwrappedLabel(mi, v);
    SetUnwrappedExtra(mi, v);
    SetUnwrappedLength(mi, v);
  }

  /** The word is the four fields put back in place. */
  lemma Reassemble(mi: MessageInfo)
    ensures mi.word == (Label(mi) << 12) | (CapsUnwrapped(mi) << 9) | (ExtraCaps(mi) << 7) | Length(mi)
  {}

  /** A message-info word is determined by its four fields. */
  lemma FieldsDetermineWord(a: MessageInfo, b: MessageInfo)
    requires Label(a) == Label(b) && CapsUnwrapped(a) == CapsUnwrapped(b)
    requires ExtraCaps(a) == ExtraCaps(b) && Length(a) == Length(b)
    ensures a == b
  {
    Reassemble(a);
    Reassemble(b);
  }

  lemma LabelFits(mi: MessageInfo) ensures Label(mi) & 0xf_ffff_ffff_ffff == Label(mi) {}
  lemma CapsUnwrappedFits(mi: MessageInfo) ensures CapsUnwrapped(mi) & 0x7 == CapsUnwrapped(mi) {}
  lemma ExtraCapsFits(mi: MessageInfo) ensures ExtraCaps(mi) & 0x3 == ExtraCaps(mi) {}

  /** Building a message info from the fields of another gives that one back. */
  lemma NewFromFields(mi: MessageInfo)
    ensures NewMessageInfo(Label(mi), CapsUnwrapped(mi), ExtraCaps(mi), Length(mi)) == mi
  {
    var r := NewMessageInfo(Label(mi), CapsUnwrapped(mi), ExtraCaps(mi), Length(mi));
    NewReadsBack(Label(mi), CapsUnwrapped(mi), ExtraCaps(mi), Length(mi));
    LabelFits(mi);
    CapsUnwrappedFits(mi);
    ExtraCapsFits(mi);
    FieldsDetermineWord(r, mi);
  }

  /**
   * `messageInfoFromWord`: the word as it stands, except that a length
   * above `seL4_MsgMaxLength` is cut down to it.
   */
  function MessageInfoFromWord(w: Word): MessageInfo
  {
    var mi := MessageInfo(w);
    if Length(mi) > MSG_MAX_LENGTH then SetLength(mi, MSG_MAX_LENGTH) else mi
  }

  /** `wordFromMessageInfo`: the raw word. */
  function WordFromMessageInfo(mi: MessageInfo): Word
  {
    mi.word
  }

  /**
   * Reading a word clamps the length to 120 and keeps label, unwrapped
   * caps and extra caps; a word whose length already fits comes back as is.
   */
  lemma FromWordClamps(w: Word)
    ensures var mi := MessageInfoFromWord(w);
            Length(mi) == (if w & 0x7f > MSG_MAX_LENGTH then MSG_MAX_LENGTH else w & 0x7f)
            && Label(mi) == Label(MessageInfo(w)) && CapsUnwrapped(mi) == CapsUnwrapped(MessageInfo(w))
            && ExtraCaps(mi) == ExtraCaps(MessageInfo(w))
    ensures w & 0x7f <= MSG_MAX_LENGTH ==> WordFromMessageInfo(MessageInfoFromWord(w)) == w
  {
    SetLengthOnlyLength(MessageInfo(w), MSG_MAX_LENGTH);
  }

  /** Reading is idempotent: a word read, written back and read again is unchanged. */
  lemma FromWordIdempotent(w: Word)
    ensures MessageInfoFromWord(WordFromMessageInfo(MessageInfoFromWord(w))) == MessageInfoFromWord(w)
  {
    FromWordClamps(w);
    FromWordClamps(WordFromMessageInfo(MessageInfoFromWord(w)));
  }

  // ---------------------------------------------------------------------
  // Zombie capabilities: the ID word holds a pointer above a number.

  /** `ZombieType_ZombieTCB`. */
  const ZOMBIE_TCB: Word := 64
  /** `TCB_CNODE_RADIX`. */
  const TCB_CNODE_RADIX: Word := 4

  datatype Zombie = Zombie(id: Word, ztype: Word)

  /** `cap_zombie_cap_get_capZombieBits`. */
  function ZombieBits(ztype: Word): (r: Word)
    ensures r < 64
    ensures ztype == ZOMBIE_TCB ==> r == TCB_CNODE_RADIX
    ensures ztype != ZOMBIE_TCB && ztype < 64 ==> r == ztype
  {
    if ztype == ZOMBIE_TCB then TCB_CNODE_RADIX else ztype & 63
  }

  /** The mask the zombie readers split the ID with. */
  function ZombieMask(ztype: Word): Word
  {
    Mask(ZombieBits(ztype) + 1)
  }

  /** `cap_zombie_cap_get_capZombieNumber`. */
  function ZombieNumber(z: Zombie): Word
  {
    z.id & ZombieMask(z.ztype)
  }

  /** `cap_zombie_cap_get_capZombiePtr`. */
  function ZombiePtr(z: Zombie): Word
  {
    z.id & !ZombieMask(z.ztype)
  }

  /** The mask `Zombie_new` uses: the type is not reduced modulo 64 there. */
  function NewMask(ztype: Word): Word
  {
    if ztype == ZOMBIE_TCB then Mask(TCB_CNODE_RADIX + 1) else Mask(ztype + 1)
  }

  /** `Zombie_new`: the pointer's high bits over the number's low bits. */
  function ZombieNew(number: Word, ztype: Word, ptr: Word): Zombie
  {
    Zombie((ptr & !NewMask(ztype)) | (number & NewMask(ztype)), ztype)
  }

  /** `cap_zombie_cap_set_capZombieNumber`. */
  function SetZombieNumber(z: Zombie, n: Word): Zombie
  {
    Zombie(ZombiePtr(z) | (n & ZombieMask(z.ztype)), z.ztype)
  }

  lemma MergeLow(hi: Word, lo: Word, m: Word) ensures ((hi & !m) | (lo & m)) & m == lo & m {}
  lemma MergeHigh(hi: Word, lo: Word, m: Word) ensures ((hi & !m) | (lo & m)) & !m == hi & !m {}
  lemma SplitJoin(x: Word, m: Word) ensures (x & !m) | (x & m) == x {}
  lemma HighTwice(x: Word, m: Word) ensures x & !m & !m == x & !m {}
  lemma LowTwice(x: Word, m: Word) ensures x & m & m == x & m {}

  /** For the types a zombie is built with, the constructor's mask is the readers' mask. */
  lemma NewMaskAgrees(ztype: Word)
    requires ztype == ZOMBIE_TCB || ztype < 64
    ensures NewMask(ztype) == ZombieMask(ztype)
  {
  }

  lemma NewNumber(number: Word, ztype: Word, ptr: Word)
    requires ztype == ZOMBIE_TCB || ztype < 64
    ensures ZombieNumber(ZombieNew(number, ztype, ptr)) == number & ZombieMask(ztype)
  {
    NewMaskAgrees(ztype);
    NewNumberWith(number, ztype, ptr, ZombieMask(ztype));
  }

  lemma NewNumberWith(number: Word, ztype: Word, ptr: Word, m: Word)
    requires NewMask(ztype) == m && ZombieMask(ztype) == m
    ensures ZombieNumber(ZombieNew(number, ztype, ptr)) == number & m
  {
    MergeLow(ptr, number, m);
  }

  lemma NewPtr(number: Word, ztype: Word, ptr: Word)
    requires ztype == ZOMBIE_TCB || ztype < 64
    ensures ZombiePtr(ZombieNew(number, ztype, ptr)) == ptr & !ZombieMask(ztype)
  {
    NewMaskAgrees(ztype);
    NewPtrWith(number, ztype, ptr, ZombieMask(ztype));
  }

  lemma NewPtrWith(number: Word, ztype: Word, ptr: Word, m: Word)
    requires NewMask(ztype) == m && ZombieMask(ztype) == m
    ensures ZombiePtr(ZombieNew(number, ztype, ptr)) == ptr & !m
  {
    MergeHigh(ptr, number, m);
  }

  /** A new zombie reads back the number and the pointer it was built from, each cut to its part. */
  lemma ZombieNewReadsBack(number: Word, ztype: Word, ptr: Word)
    requires ztype == ZOMBIE_TCB || ztype < 64
    ensures ZombieNumber(ZombieNew(number, ztype, ptr)) == number & ZombieMask(ztype)
    ensures ZombiePtr(ZombieNew(number, ztype, ptr)) == ptr & !ZombieMask(ztype)
  {
    NewNumber(number, ztype, ptr);
    NewPtr(number, ztype, ptr);
  }

  lemma SetNumberPtr(z: Zombie, n: Word)
    ensures ZombiePtr(SetZombieNumber(z, n)) == ZombiePtr(z)
  {
    MergeHigh(z.id, n, ZombieMask(z.ztype));
  }

  lemma SetNumberNumber(z: Zombie, n: Word)
    ensures ZombieNumber(SetZombieNumber(z, n)) == n & ZombieMask(z.ztype)
  {
    MergeLow(z.id, n, ZombieMask(z.ztype));
  }

  /** Setting a zombie's number keeps its pointer and type and stores the number cut to its part. */
  lemma SetNumberKeepsPtr(z: Zombie, n: Word)
    ensures SetZombieNumber(z, n).ztype == z.ztype
    ensures ZombiePtr(SetZombieNumber(z, n)) == ZombiePtr(z)
    ensures ZombieNumber(SetZombieNumber(z, n)) == n & ZombieMask(z.ztype)
  {
    SetNumberPtr(z, n);
    SetNumberNumber(z, n);
  }

  /** Rebuilding a zombie from its own number and pointer gives it back. */
  lemma ZombieRebuild(z: Zombie)
    requires z.ztype == ZOMBIE_TCB || z.ztype < 64
    ensures ZombieNew(ZombieNumber(z), z.ztype, ZombiePtr(z)) == z
  {
    var m := ZombieMask(z.ztype);
    NewMaskAgrees(z.ztype);
    HighTwice(z.id, m);
    LowTwice(z.id, m);
    SplitJoin(z.id, m);
  }

  // ---------------------------------------------------------------------
  // The capability slots of a TCB.

  /** `seL4_TCBBits`: a TCB block is 2^11 bytes, aligned to its size. */
  const TCB_BITS: Word := 11
  /** A capability slot (`cte_t`) is a two-word capability and a two-word MDB node: 2^5 bytes. */
  const CTE_SIZE_BITS: Word := 5

  /** The aligned base of the TCB block holding `p`. */
  function TcbBase(p: Word): Word
  {
    p & !Mask(TCB_BITS)
  }

  /** `tcb_ptr_cte_ptr`: slot `i` counted from the aligned base of the TCB block holding `p`. */
  function TcbCtePtr(p: Word, i: Word): Word
  {
    TcbBase(p) + (i << CTE_SIZE_BITS)
  }

  lemma TcbMask() ensures Mask(TCB_BITS) == 0x7ff {}
  lemma SlotOffsetFits(i: Word) requires i < 64 ensures (i << CTE_SIZE_BITS) <= 0x7e0 {}
  lemma AlignedPlusLowHigh(b: Word, o: Word)
    requires b & 0x7ff == 0 && o <= 0x7ff
    ensures (b + o) & !0x7ff == b
  {}
  lemma AlignedPlusLowLow(b: Word, o: Word)
    requires b & 0x7ff == 0 && o <= 0x7ff
    ensures (b + o) & 0x7ff == o
  {}
  lemma BaseAligned(p: Word) ensures TcbBase(p) & 0x7ff == 0 { TcbMask(); }

  lemma SlotBase(p: Word, i: Word)
    requires i < 64
    ensures TcbBase(TcbCtePtr(p, i)) == TcbBase(p)
  {
    TcbMask();
    SlotOffsetFits(i);
    BaseAligned(p);
    AlignedPlusLowHigh(TcbBase(p), i << CTE_SIZE_BITS);
  }

  lemma SlotOffset(p: Word, i: Word)
    requires i < 64
    ensures TcbCtePtr(p, i) & Mask(TCB_BITS) == i << CTE_SIZE_BITS
  {
    TcbMask();
    SlotOffsetFits(i);
    BaseAligned(p);
    AlignedPlusLowLow(TcbBase(p), i << CTE_SIZE_BITS);
  }

  /**
   * A slot index below 64 stays inside the TCB's block: the slot address
   * has the block's base above and the slot's offset below, whatever
   * address inside the block it was computed from.
   */
  lemma TcbCtePtrInBlock(p: Word, i: Word)
    requires i < 64
    ensures TcbBase(TcbCtePtr(p, i)) == TcbBase(p)
    ensures TcbCtePtr(p, i) & Mask(TCB_BITS) == i << CTE_SIZE_BITS
    ensures TcbCtePtr(TcbCtePtr(p, 0), i) == TcbCtePtr(p, i)
  {
    SlotBase(p, i);
    SlotOffset(p, i);
    SlotBase(p, 0);
  }

  // ---------------------------------------------------------------------
  // Bit fields read arithmetically: `(w >> shift) & MASK(width)` is the
  // quotient by 2^shift reduced modulo 2^width, with both amounts taken
  // modulo 64 as the machine's shifter takes them.

  /** 2^64, the number of distinct words. */
  const WORD_MODULUS: int := 0x1_0000_0000_0000_0000

  function Pow2(k: nat): (r: nat)
    ensures r > 0
  {
    if k == 0 then 1 else 2 * Pow2(k - 1)
  }

  lemma {:induction false} Pow2Monotone(a: nat, b: nat)
    requires a <= b
    ensures Pow2(a) <= Pow2(b)
    decreases b
  {
    if a < b {
      Pow2Monotone(a, b - 1);
    }
  }

  lemma {:induction false} Pow2Add(a: nat, b: nat)
    ensures Pow2(a + b) == Pow2(a) * Pow2(b)
    decreases b
  {
    if b > 0 {
      Pow2Add(a, b - 1);
      assert Pow2(a + b) == 2 * Pow2(a + b - 1);
    }
  }

  lemma Pow2Sixteen()
    ensures Pow2(16) == 0x1_0000
  {
    assert Pow2(4) == 16 by {
      assert Pow2(1) == 2;
      assert Pow2(2) == 4;
      assert Pow2(3) == 8;
    }
    Pow2Add(4, 4);
    Pow2Add(8, 8);
  }

  /** A word holds exactly 64 bits. */
  lemma Pow2Word()
    ensures Pow2(64) == WORD_MODULUS
  {
    Pow2Sixteen();
    Pow2Add(16, 16);
    Pow2Add(32, 32);
  }

  /** Two multiples of `b` with different factors lie at least `b` apart. */
  lemma MultiplesApart(q: int, q0: int, b: int)
    requires q0 < q && b > 0
    ensures q * b - q0 * b >= b
  {
    assert (q - q0) * b == q * b - q0 * b;
    assert (q - q0) * b >= b by {
      var x := q - q0;
      assert x >= 1;
      assert x * b == (x - 1) * b + b;
    }
  }

  /** Quotient and remainder are the only ones: `a = q*b + r` with `0 <= r < b` fixes both. */
  lemma DivModUnique(a: int, b: int, q: int, r: int)
    requires b > 0 && 0 <= r < b && a == q * b + r
    ensures a / b == q && a % b == r
  {
    var q0, r0 := a / b, a % b;
    assert a == q0 * b + r0;
    if q0 < q {
      MultiplesApart(q, q0, b);
      assert false;
    } else if q < q0 {
      MultiplesApart(q0, q, b);
      assert false;
    }
  }

  lemma Pow2BelowWord(k: nat)
    requires k < 64
    ensures Pow2(k) < WORD_MODULUS
  {
    Pow2Monotone(k, 63);
    Pow2Word();
    assert Pow2(64) == 2 * Pow2(63);
  }

  /**
   * `BIT(k)` as the processor computes it: shift amounts are taken modulo
   * the word size.
   */
  function BitWord(k: nat): Word
  {
    Pow2BelowWord(k % 64);
    Pow2(k % 64) as Word
  }

  /** The `width` bits of `w` starting at bit `shift`, as a number. */
  function Field(w: Word, shift: nat, width: nat): nat
  {
    (w as int / Pow2(shift % 64)) % Pow2(width % 64)
  }

  lemma FieldFits(w: Word, shift: nat, width: nat)
    ensures Field(w, shift, width) < WORD_MODULUS
  {
    Pow2Monotone(width % 64, 64);
    Pow2Word();
  }

  /** `Field` as a word. */
  function FieldWord(w: Word, shift: nat, width: nat): Word
  {
    FieldFits(w, shift, width);
    Field(w, shift, width) as Word
  }

  /**
   * A word built as `hi * 2^lo + low`, with `low` below 2^lo and `hi`
   * below 2^width, gives back `hi` as its `width` bits above bit `lo` and
   * `low` as its bottom `lo` bits.
   */
  lemma FieldsOfConcatenation(a: Word, hi: nat, low: Word, lo: nat, width: nat)
    requires lo < 64 && width < 64
    requires hi < Pow2(width) && low as int < Pow2(lo)
    requires a as int == hi * Pow2(lo) + low as int
    ensures Field(a, lo, width) == hi
    ensures FieldWord(a, 0, lo) == low
  {
    FieldAboveConcatenation(a, hi, low, lo, width);
    FieldBelowConcatenation(a, hi, low, lo);
  }

  lemma FieldAboveConcatenation(a: Word, hi: nat, low: Word, lo: nat, width: nat)
    requires lo < 64 && width < 64
    requires hi < Pow2(width) && low as int < Pow2(lo)
    requires a as int == hi * Pow2(lo) + low as int
    ensures Field(a, lo, width) == hi
  {
    DivModUnique(a as int, Pow2(lo), hi, low as int);
    assert lo % 64 == lo && width % 64 == width;
    DivModUnique(hi, Pow2(width), 0, hi);
  }

  lemma FieldBelowConcatenation(a: Word, hi: nat, low: Word, lo: nat)
    requires lo < 64 && low as int < Pow2(lo)
    requires a as int == hi * Pow2(lo) + low as int
    ensures FieldWord(a, 0, lo) == low
  {
    var n := a as int;
    DivModUnique(n, Pow2(lo), hi, low as int);
    assert Field(a, 0, lo) == low as int by {
      assert 0 % 64 == 0 && lo % 64 == lo;
      assert Pow2(0) == 1;
      assert Field(a, 0, lo) == (n / 1) % Pow2(lo);
    }
  }
}
