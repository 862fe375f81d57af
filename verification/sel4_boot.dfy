/**
 * Boot-time memory bookkeeping (`boot.c`): the sorted list of reserved
 * physical regions, the free-memory slots, the bump allocator that lays out
 * the root server's objects, and the carving of a region into the aligned
 * power-of-two untyped blocks handed to the root server.
 *
 * Regions are half-open intervals `[start, end)` of numbers; the reserved
 * list is a sequence whose length is `ndks_boot.resv_count` and whose
 * capacity `MAX_NUM_RESV_REG` is a parameter.
 */
module Boot {
  import opened Wrappers
  import opened Sel4Words
  import opened Sel4Errors
  import opened Capabilities
  import Mdb
  import Untyped

  datatype Region = Region(start: nat, end: nat)

  predicate IsEmpty(r: Region) { r.start == r.end }

  predicate InRegion(r: Region, p: nat) { r.start <= p < r.end }

  /** Some region of `rs` holds `p`. */
  predicate Covered(rs: seq<Region>, p: nat)
  {
    exists k :: 0 <= k < |rs| && InRegion(rs[k], p)
  }

  predicate AllWellFormed(rs: seq<Region>)
  {
    forall k :: 0 <= k < |rs| ==> rs[k].start <= rs[k].end
  }

  predicate AllNonEmpty(rs: seq<Region>)
  {
    forall k :: 0 <= k < |rs| ==> rs[k].start < rs[k].end
  }

  /** Every region ends at or before the start of every later one. */
  predicate Ascending(rs: seq<Region>)
  {
    forall j, k :: 0 <= j < k < |rs| ==> rs[j].end <= rs[k].start
  }

  /** No neighbours among the first `n` regions touch end to start. */
  predicate UntouchedBelow(rs: seq<Region>, n: nat)
  {
    forall j :: 0 < j < n && j < |rs| ==> rs[j - 1].end != rs[j].start
  }

  predicate Untouched(rs: seq<Region>) { UntouchedBelow(rs, |rs|) }

  // ---------------------------------------------------------------------
  // merge_regions.

  /** Region `i` folded into region `i - 1`, the later regions moved down one. */
  function MergeStep(rs: seq<Region>, i: nat): (r: seq<Region>)
    requires 1 <= i < |rs|
    ensures |r| == |rs| - 1
  {
    rs[..i - 1] + [Region(rs[i - 1].start, rs[i].end)] + rs[i + 1..]
  }

  lemma MergeStepAt(rs: seq<Region>, i: nat, k: nat)
    requires 1 <= i < |rs| && k < |rs| - 1
    ensures MergeStep(rs, i)[k] ==
      if k < i - 1 then rs[k] else if k == i - 1 then Region(rs[i - 1].start, rs[i].end) else rs[k + 1]
  {
  }

  /**
   * `merge_regions` from index `i` on: whenever region `i - 1` ends where
   * region `i` starts they become one and `i` stays put; otherwise `i` moves on.
   */
  function MergeFrom(rs: seq<Region>, i: nat): (r: seq<Region>)
    requires 1 <= i
    decreases |rs|, |rs| - i
  {
    if i >= |rs| then rs
    else if rs[i - 1].end == rs[i].start then MergeFrom(MergeStep(rs, i), i)
    else MergeFrom(rs, i + 1)
  }

  function MergeRegions(rs: seq<Region>): seq<Region> { MergeFrom(rs, 1) }

  lemma MergeStepCovers(rs: seq<Region>, i: nat, p: nat)
    requires 1 <= i < |rs| && rs[i - 1].end == rs[i].start && AllWellFormed(rs)
    ensures Covered(MergeStep(rs, i), p) <==> Covered(rs, p)
  {
    var m := MergeStep(rs, i);
    if Covered(rs, p) {
      var k :| 0 <= k < |rs| && InRegion(rs[k], p);
      if k < i - 1 {
        MergeStepAt(rs, i, k);
        assert InRegion(m[k], p);
      } else if k <= i {
        MergeStepAt(rs, i, i - 1);
        assert InRegion(m[i - 1], p);
      } else {
        MergeStepAt(rs, i, k - 1);
        assert InRegion(m[k - 1], p);
      }
    }
    if Covered(m, p) {
      var k :| 0 <= k < |m| && InRegion(m[k], p);
      MergeStepAt(rs, i, k);
      if k < i - 1 {
        assert InRegion(rs[k], p);
      } else if k == i - 1 {
        if p < rs[i - 1].end {
          assert InRegion(rs[i - 1], p);
        } else {
          assert InRegion(rs[i], p);
        }
      } else {
        assert InRegion(rs[k + 1], p);
      }
    }
  }

  lemma MergeStepShape(rs: seq<Region>, i: nat)
    requires 1 <= i < |rs| && rs[i - 1].end == rs[i].start
    ensures AllWellFormed(rs) ==> AllWellFormed(MergeStep(rs, i))
    ensures AllNonEmpty(rs) ==> AllNonEmpty(MergeStep(rs, i))
    ensures Ascending(rs) ==> Ascending(MergeStep(rs, i))
    ensures UntouchedBelow(rs, i) ==> UntouchedBelow(MergeStep(rs, i), i)
  {
    var m := MergeStep(rs, i);
    forall k | 0 <= k < |m|
      ensures m[k] == if k < i - 1 then rs[k] else if k == i - 1 then Region(rs[i - 1].start, rs[i].end) else rs[k + 1]
    {
      MergeStepAt(rs, i, k);
    }
  }

  /** Merging neither adds nor removes a covered point and keeps the list's shape. */
  lemma {:induction false} MergeFromFacts(rs: seq<Region>, i: nat, p: nat)
    requires 1 <= i && UntouchedBelow(rs, i)
    ensures var r := MergeFrom(rs, i);
      |r| <= |rs| && Untouched(r)
      && (AllWellFormed(rs) ==> AllWellFormed(r) && (Covered(r, p) <==> Covered(rs, p)))
      && (AllNonEmpty(rs) ==> AllNonEmpty(r))
      && (Ascending(rs) ==> Ascending(r))
    decreases |rs|, |rs| - i
  {
    if i >= |rs| {
    } else if rs[i - 1].end == rs[i].start {
      if AllWellFormed(rs) {
        MergeStepCovers(rs, i, p);
      }
      MergeStepShape(rs, i);
      MergeFromFacts(MergeStep(rs, i), i, p);
    } else {
      MergeFromFacts(rs, i + 1, p);
    }
  }

  /**
   * After `merge_regions` no two neighbours touch, and a well-formed list
   * covers every point exactly when it did before; a well-formed,
   * non-empty or ascending list stays so.
   */
  lemma MergeRegionsFacts(rs: seq<Region>, p: nat)
    ensures var r := MergeRegions(rs);
      |r| <= |rs| && Untouched(r)
      && (AllWellFormed(rs) ==> AllWellFormed(r) && (Covered(r, p) <==> Covered(rs, p)))
      && (AllNonEmpty(rs) ==> AllNonEmpty(r))
      && (Ascending(rs) ==> Ascending(r))
  {
    MergeFromFacts(rs, 1, p);
  }

  // ---------------------------------------------------------------------
  // reserve_region.

  /** What `reserve_region` reports, with the reserved list it leaves. */
  datatype Reserved = Reserved(ok: bool, regions: seq<Region>)

  /** No region of `rs` shares a point with `reg`. */
  predicate Apart(rs: seq<Region>, reg: Region)
  {
    forall k :: 0 <= k < |rs| ==> rs[k].end <= reg.start || reg.end <= rs[k].start
  }

  /** The first `i` regions all end strictly before `reg` starts. */
  predicate AllBefore(rs: seq<Region>, reg: Region, i: nat)
  {
    forall j :: 0 <= j < i && j < |rs| ==> rs[j].end < reg.start
  }

  /**
   * `reserve_region`'s walk from index `i`: a region that starts where
   * `reg` ends, or ends where it starts, is stretched over `reg` and the
   * list merged; the first region starting past `reg` gets `reg` in front
   * of it, unless the list cannot grow; past the end `reg` is appended,
   * unless index `i + 1` would be the capacity.
   */
  function ReserveFrom(rs: seq<Region>, max: nat, reg: Region, i: nat): (r: Reserved)
    requires i <= |rs|
    ensures !r.ok ==> r.regions == rs && |rs| + 1 >= max
    decreases |rs| - i
  {
    if i == |rs| then
      if i + 1 == max then Reserved(false, rs) else Reserved(true, rs + [reg])
    else if rs[i].start == reg.end then Reserved(true, MergeRegions(rs[i := Region(reg.start, rs[i].end)]))
    else if rs[i].end == reg.start then Reserved(true, MergeRegions(rs[i := Region(rs[i].start, reg.end)]))
    else if rs[i].start > reg.end then
      if |rs| + 1 >= max then Reserved(false, rs) else Reserved(true, rs[..i] + [reg] + rs[i..])
    else ReserveFrom(rs, max, reg, i + 1)
  }

  /** `reserve_region`: an empty region is accepted as it is; the kernel asserts `start <= end`. */
  function ReserveRegion(rs: seq<Region>, max: nat, reg: Region): Reserved
    requires reg.start <= reg.end
  {
    if reg.start == reg.end then Reserved(true, rs) else ReserveFrom(rs, max, reg, 0)
  }

  /** Putting `reg` in at index `i` adds exactly its points. */
  lemma InsertCovers(rs: seq<Region>, i: nat, reg: Region, p: nat)
    requires i <= |rs|
    ensures var n := rs[..i] + [reg] + rs[i..];
      |n| == |rs| + 1 && (Covered(n, p) <==> Covered(rs, p) || InRegion(reg, p))
  {
    var n := rs[..i] + [reg] + rs[i..];
    if Covered(rs, p) {
      var k :| 0 <= k < |rs| && InRegion(rs[k], p);
      if k < i {
        assert n[k] == rs[k];
      } else {
        assert n[k + 1] == rs[k];
      }
    }
    if InRegion(reg, p) {
      assert n[i] == reg;
    }
    if Covered(n, p) {
      var k :| 0 <= k < |n| && InRegion(n[k], p);
      if k < i {
        assert rs[k] == n[k];
      } else if k > i {
        assert rs[k - 1] == n[k];
      }
    }
  }

  /** Stretching region `i` to `nr`, which holds the points of region `i` and of `reg`, adds exactly the points of `reg`. */
  lemma StretchCovers(rs: seq<Region>, i: nat, nr: Region, reg: Region, p: nat)
    requires i < |rs|
    requires InRegion(nr, p) <==> InRegion(rs[i], p) || InRegion(reg, p)
    ensures Covered(rs[i := nr], p) <==> Covered(rs, p) || InRegion(reg, p)
  {
    var n := rs[i := nr];
    if Covered(rs, p) {
      var k :| 0 <= k < |rs| && InRegion(rs[k], p);
      if k != i {
        assert n[k] == rs[k];
      } else {
        assert InRegion(n[i], p);
      }
    }
    if InRegion(reg, p) {
      assert InRegion(n[i], p);
    }
    if Covered(n, p) {
      var k :| 0 <= k < |n| && InRegion(n[k], p);
      if k != i {
        assert rs[k] == n[k];
      }
    }
  }

  /** On success the reserved list covers exactly the old points and those of `reg`. */
  lemma {:induction false} ReserveFromCovers(rs: seq<Region>, max: nat, reg: Region, i: nat, p: nat)
    requires i <= |rs| && AllWellFormed(rs) && reg.start <= reg.end
    ensures var r := ReserveFrom(rs, max, reg, i);
      r.ok ==> AllWellFormed(r.regions) && (Covered(r.regions, p) <==> Covered(rs, p) || InRegion(reg, p))
    decreases |rs| - i
  {
    if i == |rs| {
      InsertCovers(rs, i, reg, p);
      assert rs + [reg] == rs[..i] + [reg] + rs[i..];
    } else if rs[i].start == reg.end {
      var nr := Region(reg.start, rs[i].end);
      StretchCovers(rs, i, nr, reg, p);
      MergeRegionsFacts(rs[i := nr], p);
    } else if rs[i].end == reg.start {
      var nr := Region(rs[i].start, reg.end);
      StretchCovers(rs, i, nr, reg, p);
      MergeRegionsFacts(rs[i := nr], p);
    } else if rs[i].start > reg.end {
      InsertCovers(rs, i, reg, p);
    } else {
      ReserveFromCovers(rs, max, reg, i + 1, p);
    }
  }

  /** Region `i` stretched back to `reg.start`, where every earlier region has ended, keeps the list ascending. */
  lemma StretchDownAscending(rs: seq<Region>, i: nat, reg: Region)
    requires i < |rs| && Ascending(rs) && AllNonEmpty(rs) && AllBefore(rs, reg, i)
    requires reg.start < reg.end == rs[i].start
    ensures var n := rs[i := Region(reg.start, rs[i].end)]; Ascending(n) && AllNonEmpty(n)
  {
  }

  /** Region `i` stretched up to `reg.end`, with `reg` sharing no point with the list, keeps the list ascending. */
  lemma StretchUpAscending(rs: seq<Region>, i: nat, reg: Region)
    requires i < |rs| && Ascending(rs) && AllNonEmpty(rs) && Apart(rs, reg)
    requires rs[i].end == reg.start < reg.end
    ensures var n := rs[i := Region(rs[i].start, reg.end)]; Ascending(n) && AllNonEmpty(n)
  {
    var n := rs[i := Region(rs[i].start, reg.end)];
    forall j, k | 0 <= j < k < |n|
      ensures n[j].end <= n[k].start
    {
      if j == i {
        assert rs[i].end <= rs[k].start;
      }
    }
  }

  /** `reg` put in front of region `i`, after every earlier one and before region `i`, keeps the list ascending. */
  lemma InsertAscending(rs: seq<Region>, i: nat, reg: Region)
    requires i <= |rs| && Ascending(rs) && AllNonEmpty(rs) && AllBefore(rs, reg, i)
    requires reg.start < reg.end && (i < |rs| ==> reg.end < rs[i].start)
    ensures var n := rs[..i] + [reg] + rs[i..]; Ascending(n) && AllNonEmpty(n)
  {
    var n := rs[..i] + [reg] + rs[i..];
    forall k | 0 <= k < |n|
      ensures n[k] == if k < i then rs[k] else if k == i then reg else rs[k - 1]
    {
    }
    forall j, k | 0 <= j < k < |n|
      ensures n[j].end <= n[k].start
    {
      if j == i && k > i + 1 {
        assert rs[i].start <= rs[i].end <= rs[k - 1].start;
      }
    }
  }

  /** With `reg` apart from an ascending list of non-empty regions, the list stays ascending. */
  lemma {:induction false} ReserveFromAscending(rs: seq<Region>, max: nat, reg: Region, i: nat)
    requires i <= |rs| && Ascending(rs) && AllNonEmpty(rs) && Apart(rs, reg) && reg.start < reg.end
    requires AllBefore(rs, reg, i)
    ensures var r := ReserveFrom(rs, max, reg, i); Ascending(r.regions) && AllNonEmpty(r.regions)
    decreases |rs| - i
  {
    if i == |rs| {
      InsertAscending(rs, i, reg);
      assert rs + [reg] == rs[..i] + [reg] + rs[i..];
    } else if rs[i].start == reg.end {
      StretchDownAscending(rs, i, reg);
      MergeRegionsFacts(rs[i := Region(reg.start, rs[i].end)], 0);
    } else if rs[i].end == reg.start {
      StretchUpAscending(rs, i, reg);
      MergeRegionsFacts(rs[i := Region(rs[i].start, reg.end)], 0);
    } else if rs[i].start > reg.end {
      InsertAscending(rs, i, reg);
    } else {
      assert rs[i].end < reg.start;
      ReserveFromAscending(rs, max, reg, i + 1);
    }
  }

  /** The list grows by at most one region, and only when that still leaves it below capacity. */
  lemma {:induction false} ReserveFromCapacity(rs: seq<Region>, max: nat, reg: Region, i: nat)
    requires i <= |rs|
    ensures var r := ReserveFrom(rs, max, reg, i);
      |r.regions| <= |rs| + 1 && (|rs| < max ==> |r.regions| < max)
    decreases |rs| - i
  {
    if i == |rs| {
    } else if rs[i].start == reg.end {
      MergeRegionsFacts(rs[i := Region(reg.start, rs[i].end)], 0);
    } else if rs[i].end == reg.start {
      MergeRegionsFacts(rs[i := Region(rs[i].start, reg.end)], 0);
    } else if rs[i].start > reg.end {
    } else {
      ReserveFromCapacity(rs, max, reg, i + 1);
    }
  }

  /**
   * `reserve_region`: an empty region changes nothing; a refusal leaves the
   * list as it was and happens only when it is one short of capacity; on
   * success the list covers exactly the old points and those of `reg`; a
   * list kept below capacity stays below it; and a region apart from an
   * ascending list of non-empty regions keeps it so.
   */
  lemma ReserveRegionFacts(rs: seq<Region>, max: nat, reg: Region, p: nat)
    requires reg.start <= reg.end
    ensures var r := ReserveRegion(rs, max, reg);
      && (reg.start == reg.end ==> r == Reserved(true, rs))
      && (!r.ok ==> r.regions == rs && |rs| + 1 >= max)
      && (r.ok && AllWellFormed(rs) ==> AllWellFormed(r.regions) && (Covered(r.regions, p) <==> Covered(rs, p) || InRegion(reg, p)))
      && (|rs| < max ==> |r.regions| < max)
      && (Ascending(rs) && AllNonEmpty(rs) && Apart(rs, reg) ==> Ascending(r.regions) && AllNonEmpty(r.regions))
  {
    if reg.start < reg.end {
      if AllWellFormed(rs) {
        ReserveFromCovers(rs, max, reg, 0, p);
      }
      ReserveFromCapacity(rs, max, reg, 0);
      if Ascending(rs) && AllNonEmpty(rs) && Apart(rs, reg) {
        ReserveFromAscending(rs, max, reg, 0);
      }
    }
  }

  // ---------------------------------------------------------------------
  // insert_region.

  /** `PPTR_BASE - PADDR_BASE` on x86-64: kernel-window addresses lie this far above physical ones. */
  const PPTR_BASE_OFFSET: nat := 0xffff_ff80_0000_0000

  /** `pptr_to_paddr`: word subtraction of the kernel-window offset. */
  function PptrToPaddr(p: nat): nat
  {
    (p - PPTR_BASE_OFFSET) % WORD_MODULUS
  }

  function PptrToPaddrReg(r: Region): Region
  {
    Region(PptrToPaddr(r.start), PptrToPaddr(r.end))
  }

  /** `ndks_boot`'s region lists: the reserved physical regions and the free-memory slots (kernel-window addresses). */
  datatype Regions = Regions(reserved: seq<Region>, freemem: seq<Region>)

  datatype Inserted = Inserted(ok: bool, regions: Regions)

  /** The first empty free-memory slot at or after `i`. */
  function FirstEmptySlot(fm: seq<Region>, i: nat): (r: Option<nat>)
    requires i <= |fm|
    ensures r.Some? ==> i <= r.value < |fm| && IsEmpty(fm[r.value])
    ensures forall j :: i <= j < |fm| && (r.None? || j < r.value) ==> !IsEmpty(fm[j])
    decreases |fm| - i
  {
    if i == |fm| then None
    else if IsEmpty(fm[i]) then Some(i)
    else FirstEmptySlot(fm, i + 1)
  }

  /**
   * `insert_region` on x86-64: a non-empty region goes into the first empty
   * free-memory slot and its physical image is reserved (whether or not
   * the reservation succeeds); with no slot empty it is dropped.  The
   * kernel asserts `start <= end`, and `reserve_region` asserts the same of
   * the physical image.
   */
  function InsertRegion(st: Regions, maxResv: nat, reg: Region): Inserted
    requires reg.start <= reg.end
    requires !IsEmpty(reg) ==> PptrToPaddr(reg.start) <= PptrToPaddr(reg.end)
  {
    if IsEmpty(reg) then Inserted(true, st)
    else match FirstEmptySlot(st.freemem, 0)
      case None => Inserted(false, st)
      case Some(k) =>
        Inserted(true, Regions(ReserveRegion(st.reserved, maxResv, PptrToPaddrReg(reg)).regions, st.freemem[k := reg]))
  }

  /**
   * `insert_region` succeeds exactly when the region is empty or a slot is
   * free.  A non-empty region then sits in the first empty slot, every
   * other slot is untouched, and the reserved list covers its physical
   * image too -- unless the reserved list is full, when the reservation is
   * silently lost; a refusal changes nothing.
   */
  lemma InsertRegionFacts(st: Regions, maxResv: nat, reg: Region, p: nat)
    requires reg.start <= reg.end
    requires !IsEmpty(reg) ==> PptrToPaddr(reg.start) <= PptrToPaddr(reg.end)
    requires AllWellFormed(st.reserved)
    ensures var r := InsertRegion(st, maxResv, reg);
      && (r.ok <==> IsEmpty(reg) || exists k :: 0 <= k < |st.freemem| && IsEmpty(st.freemem[k]))
      && (!r.ok || IsEmpty(reg) ==> r.regions == st)
      && (r.ok && !IsEmpty(reg) ==>
            && |r.regions.freemem| == |st.freemem|
            && (exists k :: 0 <= k < |st.freemem| && IsEmpty(st.freemem[k]) && r.regions.freemem[k] == reg
                 && (forall j :: 0 <= j < k ==> !IsEmpty(st.freemem[j]))
                 && (forall j :: 0 <= j < |st.freemem| && j != k ==> r.regions.freemem[j] == st.freemem[j]))
            && (|st.reserved| + 1 < maxResv ==>
                  (Covered(r.regions.reserved, p) <==> Covered(st.reserved, p) || InRegion(PptrToPaddrReg(reg), p)))
            && (r.regions.reserved == st.reserved
                  || (Covered(r.regions.reserved, p) <==> Covered(st.reserved, p) || InRegion(PptrToPaddrReg(reg), p))))
  {
    if !IsEmpty(reg) {
      ReserveRegionFacts(st.reserved, maxResv, PptrToPaddrReg(reg), p);
    }
  }

  // ---------------------------------------------------------------------
  // The root server's objects.

  /** `CONFIG_ROOT_CNODE_SIZE_BITS`, the default configuration. */
  const ROOT_CNODE_SIZE_BITS: nat := 12
  /** The root CNode's size in bits: `CONFIG_ROOT_CNODE_SIZE_BITS + seL4_SlotBits`. */
  const CNODE_SIZE_BITS: nat := 17
  /** `seL4_VSpaceBits` on x86-64 (a PML4). */
  const VSPACE_BITS: nat := 12
  /** `seL4_PageBits`. */
  const PAGE_BITS: nat := 12
  /** `seL4_ASIDPoolBits` on x86-64. */
  const ASID_POOL_BITS: nat := 12
  /** `seL4_TCBBits` on x86-64. */
  const TCB_BITS: nat := 11
  /** `seL4_PageTableBits` on x86-64. */
  const PAGE_TABLE_BITS: nat := 12
  /** `seL4_MinSchedContextBits` on 64-bit platforms. */
  const MIN_SCHED_CONTEXT_BITS: nat := 7

  lemma RootserverPowers()
    ensures Pow2(MIN_SCHED_CONTEXT_BITS) == 0x80 && Pow2(TCB_BITS) == 0x800
    ensures Pow2(PAGE_BITS) == 0x1000 && Pow2(CNODE_SIZE_BITS) == 0x2_0000
  {
    assert Pow2(4) == 16 by {
      assert Pow2(1) == 2;
      assert Pow2(2) == 4;
      assert Pow2(3) == 8;
    }
    Pow2Add(4, 3);
    Pow2Add(4, 7);
    Pow2Add(4, 8);
    Pow2Add(4, 13);
  }

  /** The address `alloc_rootserver_obj` hands out and the memory left after it. */
  datatype Bump = Bump(addr: nat, rest: Region)

  /**
   * `alloc_rootserver_obj`: `n` objects of 2^sizeBits bytes at the start of
   * the remaining memory, which must be aligned to their size and must
   * hold them; either assertion failing halts the kernel.
   */
  function AllocRootserverObj(mem: Region, sizeBits: nat, n: nat): Result<Bump, Exception>
  {
    if mem.start % Pow2(sizeBits) != 0 then Failure(KernelHalt)
    else if mem.start + n * Pow2(sizeBits) > mem.end then Failure(KernelHalt)
    else Success(Bump(mem.start, Region(mem.start + n * Pow2(sizeBits), mem.end)))
  }

  /** `rootserver_max_size_bits`: the largest of the root CNode, the VSpace and the extra boot information. */
  function RootserverMaxSizeBits(extraBiSizeBits: nat): nat
  {
    var m := if CNODE_SIZE_BITS > VSPACE_BITS then CNODE_SIZE_BITS else VSPACE_BITS;
    if m > extraBiSizeBits then m else extraBiSizeBits
  }

  /** `calculate_rootserver_size`, with `arch_get_n_paging` given as `nPaging`. */
  function CalculateRootserverSize(nPaging: nat, extraBiSizeBits: nat, mcs: bool): nat
  {
    Pow2(CNODE_SIZE_BITS) + Pow2(TCB_BITS) + 2 * Pow2(PAGE_BITS) + Pow2(ASID_POOL_BITS)
    + (if extraBiSizeBits > 0 then Pow2(extraBiSizeBits) else 0)
    + Pow2(VSPACE_BITS)
    + (if mcs then Pow2(MIN_SCHED_CONTEXT_BITS) else 0)
    + nPaging * Pow2(PAGE_TABLE_BITS)
  }

  /** `maybe_alloc_extra_bi`: the extra boot information goes here if it is at least `cmp` bits and not yet placed (address 0). */
  function MaybeAllocExtraBi(cmp: nat, extraBiSizeBits: nat, extraBi: nat, mem: Region): Result<Bump, Exception>
  {
    if extraBiSizeBits >= cmp && extraBi == 0 then AllocRootserverObj(mem, extraBiSizeBits, 1)
    else Success(Bump(extraBi, mem))
  }

  /** Where `create_rootserver_objects` put each of the root server's objects. */
  datatype Rootserver = Rootserver(
    extraBi: nat, cnode: nat, vspace: nat, asidPool: nat, ipcBuf: nat, bootInfo: nat,
    paging: Region, tcb: nat, sc: nat)

  /** The objects placed before the page-sized ones, and the memory left after them. */
  datatype LargeObjects = LargeObjects(extraBi: nat, cnode: nat, vspace: nat, rest: Region)

  /**
   * The first half of `create_rootserver_objects` for x86-64, where the
   * root CNode is larger than the VSpace: the extra boot information if it
   * is the largest object, the CNode, the extra boot information if it is
   * no smaller than the VSpace, the VSpace, and the last chance for the
   * extra boot information at page size.
   */
  function AllocLargeObjects(mem: Region, extraBiSizeBits: nat): Result<LargeObjects, Exception>
  {
    var ebs := extraBiSizeBits;
    var e1 :- MaybeAllocExtraBi(RootserverMaxSizeBits(ebs), ebs, 0, mem);
    var cnode :- AllocRootserverObj(e1.rest, CNODE_SIZE_BITS, 1);
    var e2 :- MaybeAllocExtraBi(VSPACE_BITS, ebs, e1.addr, cnode.rest);
    var vspace :- AllocRootserverObj(e2.rest, VSPACE_BITS, 1);
    var e3 :- MaybeAllocExtraBi(PAGE_BITS, ebs, e2.addr, vspace.rest);
    Success(LargeObjects(e3.addr, cnode.addr, vspace.addr, e3.rest))
  }

  /**
   * The second half: the ASID pool, IPC buffer and boot information
   * frames, the `nPaging` page tables, the TCB (smaller than a page table
   * on x86-64) and, under MCS, the scheduling context; then the assertion
   * that the memory is used up.
   */
  function AllocSmallObjects(large: LargeObjects, nPaging: nat, mcs: bool): Result<Rootserver, Exception>
  {
    var asidPool :- AllocRootserverObj(large.rest, ASID_POOL_BITS, 1);
    var ipcBuf :- AllocRootserverObj(asidPool.rest, PAGE_BITS, 1);
    var bootInfo :- AllocRootserverObj(ipcBuf.rest, PAGE_BITS, 1);
    var paging :- AllocRootserverObj(bootInfo.rest, PAGE_TABLE_BITS, nPaging);
    var tcb :- AllocRootserverObj(paging.rest, TCB_BITS, 1);
    var sc :- if mcs then AllocRootserverObj(tcb.rest, MIN_SCHED_CONTEXT_BITS, 1) else Success(Bump(0, tcb.rest));
    if sc.rest.start != sc.rest.end then Failure(KernelHalt)
    else Success(Rootserver(
      large.extraBi, large.cnode, large.vspace, asidPool.addr, ipcBuf.addr, bootInfo.addr,
      Region(paging.addr, paging.addr + nPaging * Pow2(PAGE_TABLE_BITS)), tcb.addr, sc.addr))
  }

  /**
   * `create_rootserver_objects` for x86-64 (`mcs` stands for
   * `CONFIG_KERNEL_MCS`): the memory `calculate_rootserver_size` asks for,
   * from `start`, handed out in decreasing order of object size.
   */
  function CreateRootserverObjects(start: nat, nPaging: nat, extraBiSizeBits: nat, mcs: bool): Result<Rootserver, Exception>
  {
    var mem := Region(start, start + CalculateRootserverSize(nPaging, extraBiSizeBits, mcs));
    var large :- AllocLargeObjects(mem, extraBiSizeBits);
    AllocSmallObjects(large, nPaging, mcs)
  }

  /**
   * One allocation from memory aligned to 2^a, of objects no larger than
   * that, succeeds when they fit, and leaves the rest aligned to their size.
   */
  lemma AllocStep(mem: Region, bits: nat, n: nat, a: nat)
    requires bits <= a && mem.start % Pow2(a) == 0 && mem.start + n * Pow2(bits) <= mem.end
    ensures mem.start % Pow2(bits) == 0 && (mem.start + n * Pow2(bits)) % Pow2(bits) == 0
    ensures AllocRootserverObj(mem, bits, n) == Success(Bump(mem.start, Region(mem.start + n * Pow2(bits), mem.end)))
  {
    var p := Pow2(bits);
    Untyped.Pow2Divides(bits, a);
    Untyped.MultipleOfMultiple(mem.start, Pow2(a), p);
    DivModUnique(n * p, p, n, 0);
    Untyped.MultipleSum(mem.start, n * p, p);
  }

  /** `n` objects of 2^bits bytes at `addr`, aligned to their size, lie within `[lo, hi)`. */
  predicate Placed(addr: nat, bits: nat, n: nat, lo: nat, hi: nat)
  {
    addr % Pow2(bits) == 0 && lo <= addr && addr + n * Pow2(bits) <= hi
  }

  /** Every object of the root server sits aligned inside `[lo, hi)`, and the extra boot information exists iff it has a size. */
  predicate LaidOut(r: Rootserver, nPaging: nat, extraBiSizeBits: nat, mcs: bool, lo: nat, hi: nat)
  {
    && (r.extraBi != 0 <==> extraBiSizeBits > 0)
    && (extraBiSizeBits > 0 ==> Placed(r.extraBi, extraBiSizeBits, 1, lo, hi))
    && Placed(r.cnode, CNODE_SIZE_BITS, 1, lo, hi)
    && Placed(r.vspace, VSPACE_BITS, 1, lo, hi)
    && Placed(r.asidPool, ASID_POOL_BITS, 1, lo, hi)
    && Placed(r.ipcBuf, PAGE_BITS, 1, lo, hi)
    && Placed(r.bootInfo, PAGE_BITS, 1, lo, hi)
    && Placed(r.paging.start, PAGE_TABLE_BITS, nPaging, lo, hi)
    && Placed(r.tcb, TCB_BITS, 1, lo, hi)
    && (mcs ==> Placed(r.sc, MIN_SCHED_CONTEXT_BITS, 1, lo, hi))
  }

  /** Size of the objects `AllocSmallObjects` places. */
  function SmallObjectsSize(nPaging: nat, mcs: bool): nat
  {
    3 * 0x1000 + nPaging * 0x1000 + 0x800 + (if mcs then 0x80 else 0)
  }

  /**
   * From page-aligned memory with room for them, the small objects are all
   * placed, and the final assertion holds exactly when they use it up.
   */
  lemma SmallObjectsFit(large: LargeObjects, nPaging: nat, mcs: bool)
    requires large.rest.start % Pow2(PAGE_BITS) == 0
    requires large.rest.start + SmallObjectsSize(nPaging, mcs) <= large.rest.end
    ensures var r := AllocSmallObjects(large, nPaging, mcs);
      && (r.Success? <==> large.rest.end == large.rest.start + SmallObjectsSize(nPaging, mcs))
      && (r.Failure? ==> r.error == KernelHalt)
      && (r.Success? ==>
        && r.value.extraBi == large.extraBi && r.value.cnode == large.cnode && r.value.vspace == large.vspace
        && Placed(r.value.asidPool, ASID_POOL_BITS, 1, large.rest.start, large.rest.end)
        && Placed(r.value.ipcBuf, PAGE_BITS, 1, large.rest.start, large.rest.end)
        && Placed(r.value.bootInfo, PAGE_BITS, 1, large.rest.start, large.rest.end)
        && Placed(r.value.paging.start, PAGE_TABLE_BITS, nPaging, large.rest.start, large.rest.end)
        && Placed(r.value.tcb, TCB_BITS, 1, large.rest.start, large.rest.end)
        && (mcs ==> Placed(r.value.sc, MIN_SCHED_CONTEXT_BITS, 1, large.rest.start, large.rest.end)))
  {
    var a3, end := large.rest.start, large.rest.end;
    SmallObjectsAt(large, nPaging, mcs);
    RootserverPowers();
    var r := AllocSmallObjects(large, nPaging, mcs);
    if r.Success? {
      var a4 := a3 + 0x1000;
      var a7 := a4 + 0x2000 + nPaging * 0x1000;
      assert r.value.asidPool == a3 && a3 % Pow2(ASID_POOL_BITS) == 0;
      assert r.value.ipcBuf == a4 && a4 % Pow2(PAGE_BITS) == 0;
      assert r.value.tcb == a7 && a7 % Pow2(TCB_BITS) == 0;
    }
  }

  /** Where the small objects go: one after another from the start of the remaining memory. */
  lemma SmallObjectsAt(large: LargeObjects, nPaging: nat, mcs: bool)
    requires large.rest.start % Pow2(PAGE_BITS) == 0
    requires large.rest.start + SmallObjectsSize(nPaging, mcs) <= large.rest.end
    ensures var a3, end := large.rest.start, large.rest.end;
      && a3 + 0x3000 + nPaging * 0x1000 + 0x800 <= end
      && (a3 + 0x1000) % Pow2(PAGE_BITS) == 0 && (a3 + 0x2000) % Pow2(PAGE_BITS) == 0
      && (a3 + 0x3000) % Pow2(PAGE_TABLE_BITS) == 0
      && (a3 + 0x3000 + nPaging * 0x1000) % Pow2(TCB_BITS) == 0
      && (a3 + 0x3000 + nPaging * 0x1000 + 0x800) % Pow2(MIN_SCHED_CONTEXT_BITS) == 0
      && AllocSmallObjects(large, nPaging, mcs) ==
        if end != a3 + SmallObjectsSize(nPaging, mcs) then Failure(KernelHalt)
        else Success(Rootserver(
          large.extraBi, large.cnode, large.vspace, a3, a3 + 0x1000, a3 + 0x2000,
          Region(a3 + 0x3000, a3 + 0x3000 + nPaging * 0x1000), a3 + 0x3000 + nPaging * 0x1000,
          if mcs then a3 + 0x3000 + nPaging * 0x1000 + 0x800 else 0))
  {
    RootserverPowers();
    var a3, end := large.rest.start, large.rest.end;
    var a4 := a3 + 0x1000;
    var a5 := a4 + 0x1000;
    var a6 := a5 + 0x1000;
    var a7 := a6 + nPaging * 0x1000;
    var a8 := a7 + 0x800;
    AllocStep(Region(a3, end), ASID_POOL_BITS, 1, PAGE_BITS);
    AllocStep(Region(a4, end), PAGE_BITS, 1, ASID_POOL_BITS);
    AllocStep(Region(a5, end), PAGE_BITS, 1, PAGE_BITS);
    AllocStep(Region(a6, end), PAGE_TABLE_BITS, nPaging, PAGE_BITS);
    AllocStep(Region(a7, end), TCB_BITS, 1, PAGE_TABLE_BITS);
    if mcs {
      AllocStep(Region(a8, end), MIN_SCHED_CONTEXT_BITS, 1, TCB_BITS);
    }
  }

  /** Size of the objects `AllocLargeObjects` places. */
  function LargeObjectsSize(extraBiSizeBits: nat): nat
  {
    0x2_0000 + 0x1000 + (if extraBiSizeBits > 0 then Pow2(extraBiSizeBits) else 0)
  }

  /** What `AllocLargeObjects` achieves from `[start, end)`: its objects placed before `rest`, which is page-aligned. */
  predicate LargeLaidOut(l: LargeObjects, extraBiSizeBits: nat, start: nat, end: nat)
  {
    && l.rest == Region(start + LargeObjectsSize(extraBiSizeBits), end)
    && l.rest.start % Pow2(PAGE_BITS) == 0
    && (l.extraBi != 0 <==> extraBiSizeBits > 0)
    && (extraBiSizeBits > 0 ==> Placed(l.extraBi, extraBiSizeBits, 1, start, l.rest.start))
    && Placed(l.cnode, CNODE_SIZE_BITS, 1, start, l.rest.start)
    && Placed(l.vspace, VSPACE_BITS, 1, start, l.rest.start)
  }

  /** An extra boot information below page size is never placed: the CNode and the VSpace are. */
  lemma LargeNoExtra(start: nat, end: nat, ebs: nat)
    requires ebs < PAGE_BITS && start % Pow2(CNODE_SIZE_BITS) == 0 && start + LargeObjectsSize(0) <= end
    ensures var r := AllocLargeObjects(Region(start, end), ebs);
      r.Success? && r.value.extraBi == 0 && LargeLaidOut(r.value, 0, start, end)
  {
    RootserverPowers();
    assert RootserverMaxSizeBits(ebs) == CNODE_SIZE_BITS;
    AllocStep(Region(start, end), CNODE_SIZE_BITS, 1, CNODE_SIZE_BITS);
    AllocStep(Region(start + 0x2_0000, end), VSPACE_BITS, 1, CNODE_SIZE_BITS);
  }

  lemma LargeMiddleExtra(start: nat, end: nat, ebs: nat)
    requires PAGE_BITS <= ebs < CNODE_SIZE_BITS && start % Pow2(CNODE_SIZE_BITS) == 0
    requires start + LargeObjectsSize(ebs) <= end
    ensures var r := AllocLargeObjects(Region(start, end), ebs); r.Success? && LargeLaidOut(r.value, ebs, start, end)
  {
    RootserverPowers();
    assert RootserverMaxSizeBits(ebs) == CNODE_SIZE_BITS;
    var a1 := start + 0x2_0000;
    var a2 := a1 + Pow2(ebs);
    AllocStep(Region(start, end), CNODE_SIZE_BITS, 1, CNODE_SIZE_BITS);
    AllocStep(Region(a1, end), ebs, 1, CNODE_SIZE_BITS);
    AllocStep(Region(a2, end), VSPACE_BITS, 1, ebs);
  }

  lemma LargeFirstExtra(start: nat, end: nat, ebs: nat)
    requires CNODE_SIZE_BITS <= ebs && start > 0 && start % Pow2(ebs) == 0
    requires start + LargeObjectsSize(ebs) <= end
    ensures var r := AllocLargeObjects(Region(start, end), ebs); r.Success? && LargeLaidOut(r.value, ebs, start, end)
  {
    RootserverPowers();
    assert RootserverMaxSizeBits(ebs) == ebs;
    var a1 := start + Pow2(ebs);
    var a2 := a1 + 0x2_0000;
    AllocStep(Region(start, end), ebs, 1, ebs);
    AllocStep(Region(a1, end), CNODE_SIZE_BITS, 1, ebs);
    AllocStep(Region(a2, end), VSPACE_BITS, 1, CNODE_SIZE_BITS);
  }

  lemma RootserverSizeSplits(nPaging: nat, ebs: nat, mcs: bool)
    ensures CalculateRootserverSize(nPaging, ebs, mcs) == LargeObjectsSize(ebs) + SmallObjectsSize(nPaging, mcs)
  {
    RootserverPowers();
  }

  /** Once the large objects are placed, `create_rootserver_objects` goes on to the small ones. */
  lemma CreateThenSmall(start: nat, nPaging: nat, ebs: nat, mcs: bool, large: LargeObjects)
    requires AllocLargeObjects(Region(start, start + CalculateRootserverSize(nPaging, ebs, mcs)), ebs) == Success(large)
    ensures CreateRootserverObjects(start, nPaging, ebs, mcs) == AllocSmallObjects(large, nPaging, mcs)
  {
  }

  /** Large objects laid out in memory of exactly the right size leave the small ones room to finish the layout. */
  lemma StagesFit(large: LargeObjects, nPaging: nat, ebs: nat, mcs: bool, start: nat, end: nat)
    requires LargeLaidOut(large, ebs, start, end)
    requires end == start + LargeObjectsSize(ebs) + SmallObjectsSize(nPaging, mcs)
    ensures var r := AllocSmallObjects(large, nPaging, mcs); r.Success? && LaidOut(r.value, nPaging, ebs, mcs, start, end)
  {
    SmallObjectsFit(large, nPaging, mcs);
  }

  /** Large objects laid out in the memory `calculate_rootserver_size` reserved complete the whole layout. */
  lemma RootserverFromLarge(start: nat, nPaging: nat, ebs: nat, mcs: bool, end: nat)
    requires end == start + LargeObjectsSize(ebs) + SmallObjectsSize(nPaging, mcs)
    requires var l := AllocLargeObjects(Region(start, end), ebs); l.Success? && LargeLaidOut(l.value, ebs, start, end)
    ensures end == start + CalculateRootserverSize(nPaging, ebs, mcs)
    ensures var r := CreateRootserverObjects(start, nPaging, ebs, mcs); r.Success? && LaidOut(r.value, nPaging, ebs, mcs, start, end)
  {
    RootserverSizeSplits(nPaging, ebs, mcs);
    var large := AllocLargeObjects(Region(start, end), ebs).value;
    CreateThenSmall(start, nPaging, ebs, mcs, large);
    StagesFit(large, nPaging, ebs, mcs, start, end);
  }

  lemma RootserverNoExtra(start: nat, nPaging: nat, mcs: bool)
    requires start % Pow2(CNODE_SIZE_BITS) == 0
    ensures var r := CreateRootserverObjects(start, nPaging, 0, mcs);
      r.Success? && LaidOut(r.value, nPaging, 0, mcs, start, start + CalculateRootserverSize(nPaging, 0, mcs))
  {
    var end := start + LargeObjectsSize(0) + SmallObjectsSize(nPaging, mcs);
    LargeNoExtra(start, end, 0);
    RootserverFromLarge(start, nPaging, 0, mcs, end);
  }

  lemma RootserverMiddleExtra(start: nat, nPaging: nat, ebs: nat, mcs: bool)
    requires PAGE_BITS <= ebs < CNODE_SIZE_BITS && start % Pow2(CNODE_SIZE_BITS) == 0
    ensures var r := CreateRootserverObjects(start, nPaging, ebs, mcs);
      r.Success? && LaidOut(r.value, nPaging, ebs, mcs, start, start + CalculateRootserverSize(nPaging, ebs, mcs))
  {
    var end := start + LargeObjectsSize(ebs) + SmallObjectsSize(nPaging, mcs);
    LargeMiddleExtra(start, end, ebs);
    RootserverFromLarge(start, nPaging, ebs, mcs, end);
  }

  lemma RootserverFirstExtra(start: nat, nPaging: nat, ebs: nat, mcs: bool)
    requires CNODE_SIZE_BITS <= ebs && start > 0 && start % Pow2(ebs) == 0
    ensures var r := CreateRootserverObjects(start, nPaging, ebs, mcs);
      r.Success? && LaidOut(r.value, nPaging, ebs, mcs, start, start + CalculateRootserverSize(nPaging, ebs, mcs))
  {
    var end := start + LargeObjectsSize(ebs) + SmallObjectsSize(nPaging, mcs);
    LargeFirstExtra(start, end, ebs);
    RootserverFromLarge(start, nPaging, ebs, mcs, end);
  }

  /**
   * `create_rootserver_objects` keeps its assertions: from a start aligned
   * to the largest object, with extra boot information of at least a page
   * (or none), every object is placed aligned to its size within the
   * memory `calculate_rootserver_size` reserved, the extra boot information
   * exactly once, and the memory is used up.
   */
  lemma RootserverObjectsFit(start: nat, nPaging: nat, ebs: nat, mcs: bool)
    requires start > 0 && start % Pow2(RootserverMaxSizeBits(ebs)) == 0
    requires ebs == 0 || PAGE_BITS <= ebs
    ensures var r := CreateRootserverObjects(start, nPaging, ebs, mcs);
      r.Success? && LaidOut(r.value, nPaging, ebs, mcs, start, start + CalculateRootserverSize(nPaging, ebs, mcs))
  {
    if ebs == 0 {
      RootserverNoExtra(start, nPaging, mcs);
    } else if ebs < CNODE_SIZE_BITS {
      RootserverMiddleExtra(start, nPaging, ebs, mcs);
    } else {
      RootserverFirstExtra(start, nPaging, ebs, mcs);
    }
  }

  /**
   * Extra boot information smaller than a page is never placed, so the
   * final assertion fails: sizes come from `calculate_extra_bi_size_bits`,
   * which never returns such a size.
   */
  lemma SubPageExtraHalts(start: nat, nPaging: nat, ebs: nat, mcs: bool)
    requires 0 < ebs < PAGE_BITS && start % Pow2(CNODE_SIZE_BITS) == 0
    ensures CreateRootserverObjects(start, nPaging, ebs, mcs) == Failure(KernelHalt)
  {
    var end := start + LargeObjectsSize(ebs) + SmallObjectsSize(nPaging, mcs);
    RootserverSizeSplits(nPaging, ebs, mcs);
    LargeNoExtra(start, end, ebs);
    var large := AllocLargeObjects(Region(start, end), ebs).value;
    CreateThenSmall(start, nPaging, ebs, mcs, large);
    SubPageLeftover(large, nPaging, ebs, mcs, start, end);
  }

  /** Memory sized for an extra boot information that was not placed is not used up. */
  lemma SubPageLeftover(large: LargeObjects, nPaging: nat, ebs: nat, mcs: bool, start: nat, end: nat)
    requires 0 < ebs < PAGE_BITS && LargeLaidOut(large, 0, start, end)
    requires end == start + LargeObjectsSize(ebs) + SmallObjectsSize(nPaging, mcs)
    ensures AllocSmallObjects(large, nPaging, mcs) == Failure(KernelHalt)
  {
    RootserverPowers();
    SmallObjectsFit(large, nPaging, mcs);
  }
}
