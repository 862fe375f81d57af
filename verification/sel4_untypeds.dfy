/**
 * Handing memory to the root server at boot (`boot.c`): the size of the
 * frame for extra boot information (`calculate_extra_bi_size_bits`), the
 * filling of the root CNode's next free slot (`provide_cap`), and the
 * carving of a free region into naturally aligned power-of-two blocks,
 * each recorded as an untyped cap and as an entry of the boot-info
 * untyped list (`provide_untyped_cap`, `create_untypeds_for_region`).
 *
 * Addresses and sizes are numbers; the kernel's are words, and where its
 * word arithmetic can wrap the model says so.  `clzl` and `ctzl` are the
 * floor of the binary logarithm and the count of trailing zero bits.
 */
module BootUntypeds {
  import opened Wrappers
  import opened Sel4Words
  import Boot
  import Mdb
  import Untyped

  /** The bytes of a page, 2^`seL4_PageBits`. */
  const PAGE_SIZE: nat := 0x1000

  /** `seL4_WordBits - 1 - clzl(n)`: the position of the highest one bit of `n`. */
  function Log2Floor(n: nat): (r: nat)
    requires n > 0
    ensures Pow2(r) <= n < Pow2(r + 1)
  {
    if n == 1 then 0 else 1 + Log2Floor(n / 2)
  }

  /** `ctzl(n)`: the number of trailing zero bits of a non-zero `n`. */
  function TrailingZeros(n: nat): (r: nat)
    requires n > 0
    ensures n % Pow2(r) == 0 && (n / Pow2(r)) % 2 == 1
  {
    if n % 2 == 1 then 0
    else
      var t := TrailingZeros(n / 2);
      OddMultiple(n / 2, t);
      DivModUnique(n, Pow2(t + 1), (n / 2) / Pow2(t), 0);
      1 + t
  }

  /** A number `h` that is an odd multiple of 2^t doubles to an odd multiple of 2^(t+1). */
  lemma OddMultiple(h: nat, t: nat)
    requires h % Pow2(t) == 0
    ensures 2 * h == (h / Pow2(t)) * Pow2(t + 1)
  {
    assert h == (h / Pow2(t)) * Pow2(t);
  }

  /** A multiple of 2^c is a multiple of every smaller power of two. */
  lemma AlignedBelow(a: nat, c: nat, b: nat)
    requires b <= c && a % Pow2(c) == 0
    ensures a % Pow2(b) == 0
  {
    Pow2Add(b, c - b);
    var q := a / Pow2(c);
    assert a == q * Pow2(c);
    assert a == (q * Pow2(c - b)) * Pow2(b);
    DivModUnique(a, Pow2(b), q * Pow2(c - b), 0);
  }

  /** An odd multiple of 2^c is not a multiple of 2^(c+1). */
  lemma OddNotAligned(a: nat, c: nat)
    requires a % Pow2(c) == 0 && (a / Pow2(c)) % 2 == 1
    ensures a % Pow2(c + 1) != 0
  {
    var q := a / Pow2(c);
    assert a == q * Pow2(c);
    assert a == (q / 2) * Pow2(c + 1) + Pow2(c) by {
      assert q == 2 * (q / 2) + 1;
    }
    DivModUnique(a, Pow2(c + 1), q / 2, Pow2(c));
  }

  // Carving a region.

  /**
   * The size of the next block `create_untypeds_for_region` cuts from a
   * region: the largest power of two no larger than the region and
   * aligned at its start, capped at `seL4_MaxUntypedBits`.
   */
  function BlockBits(reg: Boot.Region): (r: nat)
    requires reg.start < reg.end
    ensures Pow2(r) <= reg.end - reg.start && r <= Untyped.MAX_UNTYPED_BITS
  {
    var size := Log2Floor(reg.end - reg.start);
    var align := if reg.start != 0 then TrailingZeros(reg.start) else size;
    var fit := if align < size then align else size;
    var bits := if fit > Untyped.MAX_UNTYPED_BITS then Untyped.MAX_UNTYPED_BITS else fit;
    Pow2Monotone(bits, size);
    bits
  }

  /**
   * A block of 2^bits bytes at `start` is the largest one `create_untypeds_for_region`
   * may cut before `end`: it is aligned to its size, fits, is at most
   * `seL4_MaxUntypedBits` bits, and twice its size would not fit, would not
   * be aligned, or would exceed that cap.
   */
  predicate Largest(start: nat, bits: nat, end: nat)
  {
    && start % Pow2(bits) == 0 && start + Pow2(bits) <= end && bits <= Untyped.MAX_UNTYPED_BITS
    && (bits == Untyped.MAX_UNTYPED_BITS || start + Pow2(bits + 1) > end || start % Pow2(bits + 1) != 0)
  }

  /** The next block is the largest aligned one that fits in the region, up to the cap. */
  lemma BlockBitsLargest(reg: Boot.Region)
    requires reg.start < reg.end
    ensures Largest(reg.start, BlockBits(reg), reg.end)
  {
    var size := Log2Floor(reg.end - reg.start);
    var align := if reg.start != 0 then TrailingZeros(reg.start) else size;
    var fit := if align < size then align else size;
    ChosenBits(reg, size, align, fit, BlockBits(reg));
  }

  /** The choice of `create_untypeds_for_region` from the region's size and its start's alignment. */
  lemma ChosenBits(reg: Boot.Region, size: nat, align: nat, fit: nat, bits: nat)
    requires reg.start < reg.end && Pow2(size) <= reg.end - reg.start < Pow2(size + 1)
    requires reg.start != 0 ==> reg.start % Pow2(align) == 0 && (reg.start / Pow2(align)) % 2 == 1
    requires reg.start == 0 ==> align == size
    requires fit == (if align < size then align else size)
    requires bits == (if fit > Untyped.MAX_UNTYPED_BITS then Untyped.MAX_UNTYPED_BITS else fit)
    ensures Pow2(bits) <= reg.end - reg.start && reg.start % Pow2(bits) == 0 && bits <= Untyped.MAX_UNTYPED_BITS
    ensures bits == Untyped.MAX_UNTYPED_BITS || Pow2(bits + 1) > reg.end - reg.start || reg.start % Pow2(bits + 1) != 0
  {
    Pow2Monotone(bits, size);
    if reg.start != 0 {
      AlignedBelow(reg.start, align, bits);
      if fit == align {
        OddNotAligned(reg.start, align);
      }
    }
  }

  /** One block cut from a region: its first address and its size in bits. */
  datatype Piece = Piece(start: nat, bits: nat)

  /** What is left of a region once its next block is cut off. */
  function Remaining(reg: Boot.Region): (r: Boot.Region)
    requires reg.start < reg.end
    ensures reg.start < r.start <= r.end == reg.end
  {
    Boot.Region(reg.start + Pow2(BlockBits(reg)), reg.end)
  }

  /** The blocks the loop of `create_untypeds_for_region` cuts, small ones included. */
  function Carve(reg: Boot.Region): seq<Piece>
    requires reg.start <= reg.end
    decreases reg.end - reg.start
  {
    if reg.start == reg.end then []
    else
      [Piece(reg.start, BlockBits(reg))] + Carve(Remaining(reg))
  }

  /** The carving of a non-empty region starts with its first block, and the rest is the carving of what remains. */
  lemma CarveFirst(reg: Boot.Region)
    requires reg.start < reg.end
    ensures |Carve(reg)| > 0 && Carve(reg)[0] == Piece(reg.start, BlockBits(reg))
    ensures Carve(reg)[1..] == Carve(Remaining(reg))
  {
    var ps := Carve(reg);
    assert ps == [Piece(reg.start, BlockBits(reg))] + Carve(Remaining(reg));
  }

  /** The pieces lie back to back from `lo` and end exactly at `hi`. */
  predicate Tiles(ps: seq<Piece>, lo: nat, hi: nat)
    decreases |ps|
  {
    if |ps| == 0 then lo == hi
    else
      ps[0].start == lo && lo + Pow2(ps[0].bits) <= hi && Tiles(ps[1..], lo + Pow2(ps[0].bits), hi)
  }

  /** The carving tiles the region: every address of it lies in exactly one block. */
  lemma {:induction false} CarveTiles(reg: Boot.Region)
    requires reg.start <= reg.end
    ensures Tiles(Carve(reg), reg.start, reg.end)
    decreases reg.end - reg.start
  {
    if reg.start < reg.end {
      CarveTiles(Remaining(reg));
      CarveFirst(reg);
      TilesCons(Carve(reg), reg.start, reg.end);
    }
  }

  /** Every block of the carving is the largest aligned one that fits in what was left of the region. */
  lemma {:induction false} CarveLargest(reg: Boot.Region)
    requires reg.start <= reg.end
    ensures forall i :: 0 <= i < |Carve(reg)| ==> Largest(Carve(reg)[i].start, Carve(reg)[i].bits, reg.end)
    decreases reg.end - reg.start
  {
    if reg.start < reg.end {
      CarveLargest(Remaining(reg));
      CarveFirst(reg);
      BlockBitsLargest(reg);
      var ps := Carve(reg);
      forall i | 0 <= i < |ps|
        ensures Largest(ps[i].start, ps[i].bits, reg.end)
      {
        if i > 0 {
          assert ps[i] == ps[1..][i - 1];
        }
      }
    }
  }

  /** Pieces tile when the first fits and the others tile what follows it. */
  lemma TilesCons(ps: seq<Piece>, lo: nat, hi: nat)
    requires |ps| > 0 && ps[0].start == lo && lo + Pow2(ps[0].bits) <= hi && Tiles(ps[1..], lo + Pow2(ps[0].bits), hi)
    ensures Tiles(ps, lo, hi)
  {
  }

  /** Within tiled pieces each address of `[lo, hi)` lies in one piece and in no other. */
  lemma {:induction false} TilesPartition(ps: seq<Piece>, lo: nat, hi: nat, a: nat)
    requires Tiles(ps, lo, hi) && lo <= a < hi
    ensures exists i :: 0 <= i < |ps| && ps[i].start <= a < ps[i].start + Pow2(ps[i].bits)
    ensures forall i, j :: 0 <= i < j < |ps| ==> ps[i].start + Pow2(ps[i].bits) <= ps[j].start
    decreases |ps|
  {
    TilesAscend(ps, lo, hi);
    if a < lo + Pow2(ps[0].bits) {
      assert ps[0].start <= a < ps[0].start + Pow2(ps[0].bits);
    } else {
      TilesPartition(ps[1..], lo + Pow2(ps[0].bits), hi, a);
      var i :| 0 <= i < |ps[1..]| && ps[1..][i].start <= a < ps[1..][i].start + Pow2(ps[1..][i].bits);
      assert ps[i + 1] == ps[1..][i];
    }
  }

  /** Tiled pieces start no lower than `lo` and each ends before the next begins. */
  lemma {:induction false} TilesAscend(ps: seq<Piece>, lo: nat, hi: nat)
    requires Tiles(ps, lo, hi)
    ensures forall i :: 0 <= i < |ps| ==> lo <= ps[i].start && ps[i].start + Pow2(ps[i].bits) <= hi
    ensures forall i, j :: 0 <= i < j < |ps| ==> ps[i].start + Pow2(ps[i].bits) <= ps[j].start
    decreases |ps|
  {
    if |ps| > 0 {
      TilesAscend(ps[1..], lo + Pow2(ps[0].bits), hi);
      forall i | 0 <= i < |ps|
        ensures lo <= ps[i].start && ps[i].start + Pow2(ps[i].bits) <= hi
      {
        if i > 0 {
          assert ps[i] == ps[1..][i - 1];
        }
      }
      forall i, j | 0 <= i < j < |ps|
        ensures ps[i].start + Pow2(ps[i].bits) <= ps[j].start
      {
        assert ps[j] == ps[1..][j - 1];
        if i > 0 {
          assert ps[i] == ps[1..][i - 1];
        }
      }
    }
  }

  /** The pieces of at least `seL4_MinUntypedBits` bits, the ones that become caps. */
  function Kept(ps: seq<Piece>): (r: seq<Piece>)
    ensures |r| <= |ps|
  {
    if |ps| == 0 then []
    else if ps[0].bits >= Mdb.MIN_UNTYPED_BITS then [ps[0]] + Kept(ps[1..])
    else Kept(ps[1..])
  }

  /** The kept pieces are pieces of the input of at least `seL4_MinUntypedBits` bits, and every such piece is kept. */
  lemma {:induction false} KeptMembers(ps: seq<Piece>)
    ensures forall p :: p in Kept(ps) <==> p in ps && p.bits >= Mdb.MIN_UNTYPED_BITS
  {
    if |ps| > 0 {
      KeptMembers(ps[1..]);
      assert ps == [ps[0]] + ps[1..];
    }
  }

  /** Keeping the large pieces of a non-empty sequence looks at its first piece and then at the rest. */
  lemma KeptFirst(ps: seq<Piece>)
    requires |ps| > 0
    ensures ps[0].bits >= Mdb.MIN_UNTYPED_BITS ==> Kept(ps) == [ps[0]] + Kept(ps[1..])
    ensures ps[0].bits < Mdb.MIN_UNTYPED_BITS ==> Kept(ps) == Kept(ps[1..])
  {
  }

  // Handing out caps.

  /** The root CNode being filled at boot: the next free slot, the slot count, and the slots written. */
  datatype RootSlots<C> = RootSlots(cur: nat, max: nat, slots: map<nat, C>)

  /**
   * `provide_cap`: with no free slot left boot fails; otherwise the cap
   * goes into the next free slot and the next slot becomes the free one.
   */
  function ProvideCap<C>(s: RootSlots<C>, c: C): (r: Option<RootSlots<C>>)
    ensures r.None? <==> s.cur >= s.max
    ensures r.Some? ==> r.value.cur == s.cur + 1 && r.value.max == s.max && s.cur in r.value.slots && r.value.slots[s.cur] == c
  {
    if s.cur >= s.max then None
    else Some(RootSlots(s.cur + 1, s.max, s.slots[s.cur := c]))
  }

  /** `provide_cap` writes no slot but the next free one. */
  lemma ProvideCapKeepsOthers<C>(s: RootSlots<C>, c: C, slot: nat)
    requires slot in s.slots && slot != s.cur
    ensures var r := ProvideCap(s, c);
            r.Some? ==> slot in r.value.slots && r.value.slots[slot] == s.slots[slot]
  {
  }

  /**
   * An untyped cap as boot creates it, `cap_untyped_cap_new` with the free
   * index at `MAX_FREE_INDEX(sizeBits)`: a block of 2^sizeBits bytes at
   * kernel address `pptr`.
   */
  datatype UntypedGrant = UntypedGrant(pptr: nat, sizeBits: nat, isDevice: bool)

  /** `seL4_UntypedDesc`: the physical address, size and device flag the root server reads from boot info. */
  datatype UntypedDesc = UntypedDesc(paddr: nat, sizeBits: nat, isDevice: bool)

  /**
   * What handing out untypeds touches: the root CNode, the boot-info
   * untyped list by index, and its capacity
   * `CONFIG_MAX_NUM_BOOTINFO_UNTYPED_CAPS`.
   */
  datatype Handout = Handout(root: RootSlots<UntypedGrant>, descs: map<nat, UntypedDesc>, maxDescs: nat)

  /** The boot-info index of the next untyped cap: `slot_pos_cur - first_untyped_slot` in word arithmetic. */
  function DescIndex(h: Handout, first: nat): nat
  {
    if first <= h.root.cur then h.root.cur - first else (h.root.cur - first) % WORD_MODULUS
  }

  /**
   * `provide_untyped_cap`: while the boot-info list has room, the block is
   * described there and its cap provided, which fails with no slot left;
   * once the list is full the block is dropped and boot goes on.
   */
  function ProvideUntypedCap(h: Handout, device: bool, pptr: nat, bits: nat, first: nat): (r: Option<Handout>)
    ensures DescIndex(h, first) >= h.maxDescs ==> r == Some(h)
    ensures DescIndex(h, first) < h.maxDescs ==>
              (r.None? <==> h.root.cur >= h.root.max)
              && (r.Some? ==> r.value.root == ProvideCap(h.root, UntypedGrant(pptr, bits, device)).value
                              && r.value.maxDescs == h.maxDescs
                              && DescIndex(h, first) in r.value.descs && r.value.descs[DescIndex(h, first)] == UntypedDesc(Boot.PptrToPaddr(pptr), bits, device))
  {
    var i := DescIndex(h, first);
    if i < h.maxDescs then
      var descs := h.descs[i := UntypedDesc(Boot.PptrToPaddr(pptr), bits, device)];
      match ProvideCap(h.root, UntypedGrant(pptr, bits, device))
      case None => None
      case Some(root) => Some(Handout(root, descs, h.maxDescs))
    else Some(h)
  }

  /** `provide_untyped_cap` writes no boot-info entry but the next one, and no slot but the next free one. */
  lemma ProvideUntypedCapKeepsOthers(h: Handout, device: bool, pptr: nat, bits: nat, first: nat, slot: nat, index: nat)
    ensures var r := ProvideUntypedCap(h, device, pptr, bits, first);
            r.Some? ==>
              && (slot in h.root.slots && slot != h.root.cur ==> slot in r.value.root.slots && r.value.root.slots[slot] == h.root.slots[slot])
              && (index in h.descs && index != DescIndex(h, first) ==> index in r.value.descs && r.value.descs[index] == h.descs[index])
  {
    if slot in h.root.slots && slot != h.root.cur {
      ProvideCapKeepsOthers(h.root, UntypedGrant(pptr, bits, device), slot);
    }
  }

  /**
   * Handing out blocks in turn: each of at least `seL4_MinUntypedBits`
   * bits goes through `provide_untyped_cap`, smaller ones are skipped, and
   * the first failure ends boot.
   */
  function HandOut(h: Handout, device: bool, ps: seq<Piece>, first: nat): (r: Option<Handout>)
    ensures r.Some? ==> r.value.maxDescs == h.maxDescs && r.value.root.max == h.root.max && h.root.cur <= r.value.root.cur
    decreases |ps|
  {
    if |ps| == 0 then Some(h)
    else
      var once := if ps[0].bits >= Mdb.MIN_UNTYPED_BITS then ProvideUntypedCap(h, device, ps[0].start, ps[0].bits, first) else Some(h);
      match once
      case None => None
      case Some(h') => HandOut(h', device, ps[1..], first)
  }

  /**
   * `create_untypeds_for_region`: the region is cut into blocks from its
   * start, each as large as alignment, the rest of the region and
   * `seL4_MaxUntypedBits` allow, and the blocks are handed out in that
   * order.  The cutting does not depend on the slots, so the loop is the
   * carving followed by the hand-out.
   */
  function CreateUntypedsForRegion(h: Handout, device: bool, reg: Boot.Region, first: nat): Option<Handout>
    requires reg.start <= reg.end
  {
    HandOut(h, device, Carve(reg), first)
  }

  /** Whether the untypeds of the blocks `ps` stand, in order, one per slot from `slot` and one per boot-info entry from `index`. */
  predicate HandedOut(h: Handout, ps: seq<Piece>, device: bool, slot: nat, index: nat)
    decreases |ps|
  {
    |ps| == 0
    || (&& slot in h.root.slots && h.root.slots[slot] == UntypedGrant(ps[0].start, ps[0].bits, device)
        && index in h.descs && h.descs[index] == UntypedDesc(Boot.PptrToPaddr(ps[0].start), ps[0].bits, device)
        && HandedOut(h, ps[1..], device, slot + 1, index + 1))
  }

  /**
   * With a slot and a boot-info entry for every block of at least
   * `seL4_MinUntypedBits` bits, those blocks are handed out in order from
   * the next free slot, and the slot pointer moves past exactly them.
   */
  lemma {:induction false} HandOutKept(h: Handout, device: bool, ps: seq<Piece>, first: nat)
    requires first <= h.root.cur
    requires h.root.cur + |Kept(ps)| <= h.root.max
    requires h.root.cur - first + |Kept(ps)| <= h.maxDescs
    ensures var r := HandOut(h, device, ps, first);
            && r.Some? && r.value.root.cur == h.root.cur + |Kept(ps)|
            && HandedOut(r.value, Kept(ps), device, h.root.cur, h.root.cur - first)
    decreases |ps|, 1
  {
    if |ps| > 0 {
      KeptFirst(ps);
      if ps[0].bits >= Mdb.MIN_UNTYPED_BITS {
        HandOutKeptLarge(h, device, ps, first);
      } else {
        assert HandOut(h, device, ps, first) == HandOut(h, device, ps[1..], first);
        HandOutKept(h, device, ps[1..], first);
      }
    }
  }

  /** The step of `HandOutKept` whose first block becomes a cap. */
  lemma {:induction false} HandOutKeptLarge(h: Handout, device: bool, ps: seq<Piece>, first: nat)
    requires |ps| > 0 && ps[0].bits >= Mdb.MIN_UNTYPED_BITS && Kept(ps) == [ps[0]] + Kept(ps[1..])
    requires first <= h.root.cur
    requires h.root.cur + |Kept(ps)| <= h.root.max
    requires h.root.cur - first + |Kept(ps)| <= h.maxDescs
    ensures var r := HandOut(h, device, ps, first);
            && r.Some? && r.value.root.cur == h.root.cur + |Kept(ps)|
            && HandedOut(r.value, Kept(ps), device, h.root.cur, h.root.cur - first)
    decreases |ps|, 0
  {
    ProvideIntoNextSlot(h, device, ps[0].start, ps[0].bits, first);
    HandOutProvidesFirst(h, device, ps, first);
    var h' := ProvideUntypedCap(h, device, ps[0].start, ps[0].bits, first).value;
    HandOutKept(h', device, ps[1..], first);
    SlotKept(h', device, ps[1..], first, h.root.cur, h.root.cur - first);
    var r := HandOut(h', device, ps[1..], first).value;
    HandedOutCons(r, ps[0], Kept(ps[1..]), device, h.root.cur, h.root.cur - first);
  }

  /** A first block that becomes a cap is followed by the hand-out of the rest. */
  lemma HandOutProvidesFirst(h: Handout, device: bool, ps: seq<Piece>, first: nat)
    requires |ps| > 0 && ps[0].bits >= Mdb.MIN_UNTYPED_BITS
    requires ProvideUntypedCap(h, device, ps[0].start, ps[0].bits, first).Some?
    ensures HandOut(h, device, ps, first) == HandOut(ProvideUntypedCap(h, device, ps[0].start, ps[0].bits, first).value, device, ps[1..], first)
  {
  }

  /** With a free slot and a free boot-info entry, `provide_untyped_cap` fills the next of each. */
  lemma ProvideIntoNextSlot(h: Handout, device: bool, pptr: nat, bits: nat, first: nat)
    requires first <= h.root.cur < h.root.max && h.root.cur - first < h.maxDescs
    ensures var r := ProvideUntypedCap(h, device, pptr, bits, first);
            && r.Some? && r.value.root.cur == h.root.cur + 1 && r.value.root.max == h.root.max && r.value.maxDescs == h.maxDescs
            && h.root.cur in r.value.root.slots && r.value.root.slots[h.root.cur] == UntypedGrant(pptr, bits, device)
            && h.root.cur - first in r.value.descs && r.value.descs[h.root.cur - first] == UntypedDesc(Boot.PptrToPaddr(pptr), bits, device)
  {
    assert DescIndex(h, first) == h.root.cur - first;
  }

  /** A block handed out at `slot` and `index`, followed by the rest from the next ones, is a hand-out of the whole list. */
  lemma HandedOutCons(h: Handout, p: Piece, rest: seq<Piece>, device: bool, slot: nat, index: nat)
    requires slot in h.root.slots && h.root.slots[slot] == UntypedGrant(p.start, p.bits, device)
    requires index in h.descs && h.descs[index] == UntypedDesc(Boot.PptrToPaddr(p.start), p.bits, device)
    requires HandedOut(h, rest, device, slot + 1, index + 1)
    ensures HandedOut(h, [p] + rest, device, slot, index)
  {
    assert ([p] + rest)[1..] == rest;
  }

  /** The slots and boot-info entries below the next free ones are not written again. */
  lemma LaterSlotsKeep(h: Handout, device: bool, ps: seq<Piece>, first: nat)
    requires first <= h.root.cur
    ensures var r := HandOut(h, device, ps, first);
            r.Some? ==>
              && (forall i :: i in h.root.slots && i < h.root.cur ==> i in r.value.root.slots && r.value.root.slots[i] == h.root.slots[i])
              && (forall i :: i in h.descs && i < h.root.cur - first ==> i in r.value.descs && r.value.descs[i] == h.descs[i])
  {
    forall i | i in h.root.slots && i < h.root.cur
      ensures var r := HandOut(h, device, ps, first);
              r.Some? ==> i in r.value.root.slots && r.value.root.slots[i] == h.root.slots[i]
    {
      SlotKept(h, device, ps, first, i, 0);
    }
    forall i | i in h.descs && i < h.root.cur - first
      ensures var r := HandOut(h, device, ps, first);
              r.Some? ==> i in r.value.descs && r.value.descs[i] == h.descs[i]
    {
      SlotKept(h, device, ps, first, 0, i);
    }
  }

  /** One slot below the next free one, and one boot-info entry below the next one to fill, survive the hand-out. */
  lemma {:induction false} SlotKept(h: Handout, device: bool, ps: seq<Piece>, first: nat, slot: nat, index: nat)
    requires first <= h.root.cur
    ensures var r := HandOut(h, device, ps, first);
            r.Some? ==>
              && (slot in h.root.slots && slot < h.root.cur ==> slot in r.value.root.slots && r.value.root.slots[slot] == h.root.slots[slot])
              && (index in h.descs && index < h.root.cur - first ==> index in r.value.descs && r.value.descs[index] == h.descs[index])
    decreases |ps|
  {
    if |ps| > 0 {
      var once := if ps[0].bits >= Mdb.MIN_UNTYPED_BITS then ProvideUntypedCap(h, device, ps[0].start, ps[0].bits, first) else Some(h);
      if once.Some? {
        assert DescIndex(h, first) == h.root.cur - first;
        ProvideUntypedCapKeepsOthers(h, device, ps[0].start, ps[0].bits, first, slot, index);
        SlotKept(once.value, device, ps[1..], first, slot, index);
      }
    }
  }

  /**
   * With the boot-info list already full, the blocks are dropped: nothing
   * is written and boot goes on.
   */
  lemma {:induction false} FullListDropsBlocks(h: Handout, device: bool, ps: seq<Piece>, first: nat)
    requires first <= h.root.cur && h.maxDescs <= h.root.cur - first
    ensures HandOut(h, device, ps, first) == Some(h)
    decreases |ps|
  {
    if |ps| > 0 {
      FullListDropsBlocks(h, device, ps[1..], first);
    }
  }

  /**
   * With room in the boot-info list for every block, boot fails exactly
   * when the CNode has fewer free slots than there are blocks of at least
   * `seL4_MinUntypedBits` bits.
   */
  lemma {:induction false} HandOutFailsIffOutOfSlots(h: Handout, device: bool, ps: seq<Piece>, first: nat)
    requires first <= h.root.cur <= h.root.max
    requires h.root.cur - first + |Kept(ps)| <= h.maxDescs
    ensures HandOut(h, device, ps, first).None? <==> h.root.cur + |Kept(ps)| > h.root.max
    decreases |ps|
  {
    if |ps| > 0 {
      KeptFirst(ps);
      if ps[0].bits >= Mdb.MIN_UNTYPED_BITS {
        assert DescIndex(h, first) == h.root.cur - first;
        var once := ProvideUntypedCap(h, device, ps[0].start, ps[0].bits, first);
        if once.Some? {
          assert HandOut(h, device, ps, first) == HandOut(once.value, device, ps[1..], first);
          HandOutFailsIffOutOfSlots(once.value, device, ps[1..], first);
        } else {
          assert HandOut(h, device, ps, first).None?;
        }
      } else {
        assert HandOut(h, device, ps, first) == HandOut(h, device, ps[1..], first);
        HandOutFailsIffOutOfSlots(h, device, ps[1..], first);
      }
    }
  }

  /**
   * A region with a slot and a boot-info entry for each of its blocks of
   * at least `seL4_MinUntypedBits` bits gets exactly those blocks as caps,
   * in address order from the next free slot; the blocks tile the region.
   */
  lemma CreateHandsOutRegion(h: Handout, device: bool, reg: Boot.Region, first: nat)
    requires reg.start <= reg.end && first <= h.root.cur
    requires h.root.cur + |Kept(Carve(reg))| <= h.root.max
    requires h.root.cur - first + |Kept(Carve(reg))| <= h.maxDescs
    ensures Tiles(Carve(reg), reg.start, reg.end)
    ensures forall i :: 0 <= i < |Carve(reg)| ==> Largest(Carve(reg)[i].start, Carve(reg)[i].bits, reg.end)
    ensures var r := CreateUntypedsForRegion(h, device, reg, first);
            && r.Some? && r.value.root.cur == h.root.cur + |Kept(Carve(reg))|
            && HandedOut(r.value, Kept(Carve(reg)), device, h.root.cur, h.root.cur - first)
  {
    CarveTiles(reg);
    CarveLargest(reg);
    HandOutKept(h, device, Carve(reg), first);
  }

  // The extra boot-information frame.

  /**
   * `ROUND_UP(n, seL4_PageBits)` on a word: `n` rounded up to a whole
   * number of pages, which wraps to 0 for the last partial page below
   * 2^64.
   */
  function RoundUpPage(n: nat): nat
  {
    ((n + PAGE_SIZE - 1) / PAGE_SIZE * PAGE_SIZE) % WORD_MODULUS
  }

  /**
   * `calculate_extra_bi_size_bits`: the size in bits of the frame that
   * holds `extra` bytes of extra boot information, 0 when there are none.
   * When rounding up wraps to 0, `clzl(0)` is undefined and there is no
   * answer.
   */
  function CalculateExtraBiSizeBits(extra: nat): (r: Option<nat>)
    requires extra < WORD_MODULUS
  {
    if extra == 0 then Some(0)
    else
      var rounded := RoundUpPage(extra);
      if rounded == 0 then None
      else
        var msb := Log2Floor(rounded);
        Some(if extra > Pow2(msb) then msb + 1 else msb)
  }

  /** Rounding a word up to a page either stays a word, at least `n`, or wraps to 0 in the last page. */
  lemma RoundUpPageFacts(n: nat)
    requires 0 < n < WORD_MODULUS
    ensures n <= WORD_MODULUS - PAGE_SIZE ==> RoundUpPage(n) % PAGE_SIZE == 0 && n <= RoundUpPage(n) < n + PAGE_SIZE
    ensures n > WORD_MODULUS - PAGE_SIZE ==> RoundUpPage(n) == 0
  {
    var q := (n + PAGE_SIZE - 1) / PAGE_SIZE;
    assert n + PAGE_SIZE - 1 == q * PAGE_SIZE + (n + PAGE_SIZE - 1) % PAGE_SIZE;
    if n > WORD_MODULUS - PAGE_SIZE {
      DivModUnique(n + PAGE_SIZE - 1, PAGE_SIZE, WORD_MODULUS / PAGE_SIZE, n - 1 - (WORD_MODULUS - PAGE_SIZE));
      DivModUnique(q * PAGE_SIZE, WORD_MODULUS, 1, 0);
    } else {
      assert q * PAGE_SIZE <= WORD_MODULUS - PAGE_SIZE + PAGE_SIZE - 1;
      DivModUnique(q * PAGE_SIZE, WORD_MODULUS, 0, q * PAGE_SIZE);
      DivModUnique(q * PAGE_SIZE, PAGE_SIZE, q, 0);
    }
  }

  /** A number of at most 2^b bytes, `b` at least a page's bits, rounds up to at most 2^b. */
  lemma RoundUpStaysBelow(n: nat, b: nat)
    requires 0 < n <= Pow2(b) && b >= 12 && n <= WORD_MODULUS - PAGE_SIZE
    ensures RoundUpPage(n) <= Pow2(b)
  {
    RoundUpPageFacts(n);
    Pow2Add(12, b - 12);
    PageBitsSize();
    var m := Pow2(b - 12);
    assert Pow2(b) == m * PAGE_SIZE;
    var q := (n + PAGE_SIZE - 1) / PAGE_SIZE;
    assert q * PAGE_SIZE <= n + PAGE_SIZE - 1;
    if q > m {
      MultiplesApart(q, m, PAGE_SIZE);
      assert false;
    }
  }

  lemma PageBitsSize()
    ensures Pow2(12) == PAGE_SIZE
  {
    Pow2Sixteen();
    Pow2Add(12, 4);
  }

  /**
   * The extra boot-information frame is the smallest of at least a page
   * that holds the extra bytes: 2^r bytes hold `extra`, r is at least
   * `seL4_PageBits`, and 2^(r-1) bytes would not do unless r is the page
   * size itself.  Only the last partial page below 2^64 has no answer.
   */
  lemma ExtraBitsSmallestFrame(extra: nat)
    requires 0 < extra < WORD_MODULUS
    ensures CalculateExtraBiSizeBits(extra).None? <==> extra > WORD_MODULUS - PAGE_SIZE
    ensures CalculateExtraBiSizeBits(extra).Some? ==>
              var r := CalculateExtraBiSizeBits(extra).value;
              r >= Boot.PAGE_BITS && extra <= Pow2(r) && (r == Boot.PAGE_BITS || Pow2(r - 1) < extra)
  {
    RoundUpPageFacts(extra);
    if extra <= WORD_MODULUS - PAGE_SIZE {
      MsbOfRounded(extra, RoundUpPage(extra), Log2Floor(RoundUpPage(extra)));
    }
  }

  /** The highest bit of the rounded size is at least the page bit, and one lower would not hold `extra`. */
  lemma MsbOfRounded(extra: nat, rounded: nat, msb: nat)
    requires 0 < extra <= WORD_MODULUS - PAGE_SIZE && rounded == RoundUpPage(extra)
    requires extra <= rounded && Pow2(msb) <= rounded < Pow2(msb + 1)
    ensures msb >= Boot.PAGE_BITS
    ensures extra <= Pow2(msb) && msb > Boot.PAGE_BITS ==> Pow2(msb - 1) < extra
  {
    PageBitsSize();
    RoundUpPageFacts(extra);
    if msb < 12 {
      Pow2Monotone(msb + 1, 12);
      assert false;
    }
    if extra <= Pow2(msb) && msb > 12 {
      assert Pow2(msb) == 2 * Pow2(msb - 1);
      if extra <= Pow2(msb - 1) {
        RoundUpStaysBelow(extra, msb - 1);
        assert false;
      }
    }
  }

  /** The size never lies strictly between nothing and a page, the case that makes the root-server layout fail. */
  lemma ExtraBitsNeverSubPage(extra: nat)
    requires extra < WORD_MODULUS && CalculateExtraBiSizeBits(extra).Some?
    ensures CalculateExtraBiSizeBits(extra).value == 0 || CalculateExtraBiSizeBits(extra).value >= Boot.PAGE_BITS
    ensures CalculateExtraBiSizeBits(extra).value == 0 <==> extra == 0
  {
    if extra > 0 {
      ExtraBitsSmallestFrame(extra);
    }
  }
}
