/**
 * The mapping database (`cnode.c`, `CNode.rs`): every capability slot
 * carries, besides its cap, a node of one doubly-linked list through all
 * slots, in which a cap's derived copies follow it.  The list is the
 * kernel's record of which caps were made from which.
 *
 * A slot table maps slot addresses, the numbers that pointers hold, to
 * slots.  Address 0 is the null pointer.  A write through a pointer that is not a slot of the table
 * changes nothing.
 */
module Mdb {
  import opened Wrappers
  import opened Sel4Words
  import opened Sel4Errors
  import opened Capabilities

  /** `mdb_node_t`: the list links of a slot and its two derivation flags. */
  datatype MdbNode = MdbNode(prev: nat, next: nat, revocable: bool, firstBadged: bool)

  /** `nullMDBNode`. */
  const NULL_MDB := MdbNode(0, 0, false, false)

  /** `cte_t`: a capability table entry. */
  datatype Cte = Cte(cap: Cap, mdb: MdbNode)

  /** All slots of the kernel by address. */
  type Cdt = map<nat, Cte>

  /** What `cteInsert` and `cteMove` demand of their destination: a null cap and no links. */
  predicate Unlinked(e: Cte)
  {
    e.cap == NullCap && e.mdb.prev == 0 && e.mdb.next == 0
  }

  /**
   * The list is well formed at slot `a`: each link it holds is returned by
   * the slot it points to, and a null cap has no links.
   */
  predicate NodeLinked(m: Cdt, a: nat)
    requires a in m
  {
    var n := m[a].mdb;
    (n.next != 0 ==> n.next in m && m[n.next].mdb.prev == a)
    && (n.prev != 0 ==> n.prev in m && m[n.prev].mdb.next == a)
    && (m[a].cap == NullCap ==> n.prev == 0 && n.next == 0)
  }

  /** The mapping-database invariant: no slot lives at the null address and every slot is well linked. */
  predicate Linked(m: Cdt)
  {
    0 !in m && forall a {:trigger NodeLinked(m, a)} | a in m :: NodeLinked(m, a)
  }

  /**
   * Slot `a` sits in the list as in any list without cycles: neither link
   * points back at `a`, and its two neighbours are different slots.
   */
  predicate Separate(m: Cdt, a: nat)
    requires a in m
  {
    var n := m[a].mdb;
    n.next != a && n.prev != a && (n.prev != 0 ==> n.prev != n.next)
  }

  // ---------------------------------------------------------------------
  // Field writes through slot pointers.

  function WithCap(m: Cdt, a: nat, c: Cap): (r: Cdt)
    ensures r.Keys == m.Keys
  {
    if a in m then m[a := Cte(c, m[a].mdb)] else m
  }

  function WithMdb(m: Cdt, a: nat, n: MdbNode): (r: Cdt)
    ensures r.Keys == m.Keys
  {
    if a in m then m[a := Cte(m[a].cap, n)] else m
  }

  /** `mdb_node_ptr_set_mdbNext`. */
  function WithNext(m: Cdt, a: nat, p: nat): (r: Cdt)
    ensures r.Keys == m.Keys
  {
    if a in m then WithMdb(m, a, MdbNode(m[a].mdb.prev, p, m[a].mdb.revocable, m[a].mdb.firstBadged)) else m
  }

  /** `mdb_node_ptr_set_mdbPrev`. */
  function WithPrev(m: Cdt, a: nat, p: nat): (r: Cdt)
    ensures r.Keys == m.Keys
  {
    if a in m then WithMdb(m, a, MdbNode(p, m[a].mdb.next, m[a].mdb.revocable, m[a].mdb.firstBadged)) else m
  }

  // ---------------------------------------------------------------------
  // Insertion.

  /** `seL4_MinUntypedBits`: free indices of an untyped cap count blocks of 2^4 bytes. */
  const MIN_UNTYPED_BITS: nat := 4

  /** `MAX_FREE_INDEX`: the free index of a full untyped block of 2^blockSize bytes. */
  function MaxFreeIndex(blockSize: Word): nat
  {
    Pow2((blockSize as int - MIN_UNTYPED_BITS) % 64)
  }

  /**
   * `setUntypedCapAsFull`: an untyped cap from which a child untyped of the
   * very same block is made is marked full, so that nothing more is
   * allocated from it.
   */
  function SetUntypedCapAsFull(srcCap: Cap, newCap: Cap): (r: Cap)
    ensures r.NullCap? <==> srcCap.NullCap?
    ensures !srcCap.UntypedCap? ==> r == srcCap
  {
    if srcCap.UntypedCap? && newCap.UntypedCap? && srcCap.ptr == newCap.ptr && newCap.blockSize == srcCap.blockSize
    then UntypedCap(srcCap.ptr, srcCap.blockSize, MaxFreeIndex(srcCap.blockSize), srcCap.isDevice)
    else srcCap
  }

  /**
   * `cteInsert`: put `newCap`, derived from the cap in `src`, into the empty
   * slot `dest` directly after `src` in the list.  The copy is revocable,
   * and starts a badge group, exactly when `isCapRevocable` says so.  A
   * destination that is not empty trips the kernel's assertion.
   */
  function CteInsert(newCap: Cap, src: nat, dest: nat, m: Cdt): (r: Option<Cdt>)
    requires src in m && dest in m
    ensures r.None? <==> !Unlinked(m[dest])
    ensures r.Some? ==> r.value.Keys == m.Keys
  {
    var srcMdb := m[src].mdb;
    var srcCap := m[src].cap;
    var revocable := IsCapRevocable(newCap, srcCap);
    var newMdb := MdbNode(src, srcMdb.next, revocable, revocable);
    if !Unlinked(m[dest]) then None
    else
      var m1 := WithCap(m, src, SetUntypedCapAsFull(srcCap, newCap));
      var m2 := m1[dest := Cte(newCap, newMdb)];
      var m3 := WithNext(m2, src, dest);
      Some(if newMdb.next != 0 then WithPrev(m3, newMdb.next, dest) else m3)
  }

  /** Slot by slot, what `cteInsert` writes when `src`, `dest` and `src`'s successor are three different slots. */
  lemma InsertSlots(newCap: Cap, src: nat, dest: nat, m: Cdt)
    requires src in m && dest in m && src != dest && Unlinked(m[dest])
    requires m[src].mdb.next != src && m[src].mdb.next != dest
    ensures var r := CteInsert(newCap, src, dest, m).value;
            var s := m[src];
            var nx := s.mdb.next;
            var rev := IsCapRevocable(newCap, s.cap);
            r[src] == Cte(SetUntypedCapAsFull(s.cap, newCap), MdbNode(s.mdb.prev, dest, s.mdb.revocable, s.mdb.firstBadged))
            && r[dest] == Cte(newCap, MdbNode(src, nx, rev, rev))
            && (nx != 0 && nx in m ==> r[nx] == Cte(m[nx].cap, MdbNode(dest, m[nx].mdb.next, m[nx].mdb.revocable, m[nx].mdb.firstBadged)))
            && (forall a | a in m && a != src && a != dest && a != nx :: r[a] == m[a])
  {
    var s := m[src];
    var nx := s.mdb.next;
    var rev := IsCapRevocable(newCap, s.cap);
    var m1 := WithCap(m, src, SetUntypedCapAsFull(s.cap, newCap));
    assert m1[src] == Cte(SetUntypedCapAsFull(s.cap, newCap), s.mdb);
    var m2 := m1[dest := Cte(newCap, MdbNode(src, nx, rev, rev))];
    assert src in m2 && m2[src] == m1[src];
    var m3 := WithNext(m2, src, dest);
    assert m3 == m2[src := Cte(m2[src].cap, MdbNode(s.mdb.prev, dest, s.mdb.revocable, s.mdb.firstBadged))];
    assert m3[src] == Cte(SetUntypedCapAsFull(s.cap, newCap), MdbNode(s.mdb.prev, dest, s.mdb.revocable, s.mdb.firstBadged));
    assert m3[dest] == m2[dest];
    assert forall a | a in m && a != src && a != dest :: m3[a] == m[a];
  }

  /**
   * Inserting a non-null copy of a non-null cap into an empty slot keeps
   * the list well formed and splices the new slot in between `src` and its
   * old successor; only those three slots change, and only `src`'s cap
   * (when an untyped parent becomes full) and the new slot's cap.
   */
  lemma InsertKeepsLinked(newCap: Cap, src: nat, dest: nat, m: Cdt)
    requires Linked(m) && src in m && dest in m && src != dest && Separate(m, src)
    requires Unlinked(m[dest]) && !newCap.NullCap? && !m[src].cap.NullCap?
    ensures CteInsert(newCap, src, dest, m).Some?
    ensures var r := CteInsert(newCap, src, dest, m).value;
            Linked(r)
            && r[dest].cap == newCap
            && r[dest].mdb == MdbNode(src, m[src].mdb.next, IsCapRevocable(newCap, m[src].cap), IsCapRevocable(newCap, m[src].cap))
            && r[src].mdb.next == dest
            && r[src].cap == SetUntypedCapAsFull(m[src].cap, newCap)
            && (m[src].mdb.next != 0 && m[src].mdb.next in m ==> r[m[src].mdb.next].mdb.prev == dest)
            && (forall a | a in m && a != src && a != dest :: r[a].cap == m[a].cap)
  {
    var r := CteInsert(newCap, src, dest, m).value;
    assert m[src].mdb.next != dest by {
      assert NodeLinked(m, src);
    }
    InsertSlots(newCap, src, dest, m);
    SpliceLinked(m, r, src, dest);
  }

  /**
   * The list surgery of an insertion, apart from the operation: splicing an
   * unlinked slot in after `src` keeps every slot well linked.
   */
  lemma SpliceLinked(m: Cdt, r: Cdt, src: nat, dest: nat)
    requires Linked(m) && r.Keys == m.Keys && src in m && dest in m && src != dest && Unlinked(m[dest]) && Separate(m, src)
    requires var s := m[src].mdb;
             r[src].mdb.prev == s.prev && r[src].mdb.next == dest && !r[src].cap.NullCap?
             && r[dest].mdb.prev == src && r[dest].mdb.next == s.next && !r[dest].cap.NullCap?
             && (s.next != 0 && s.next in m ==>
                   r[s.next].mdb.prev == dest && r[s.next].mdb.next == m[s.next].mdb.next && r[s.next].cap == m[s.next].cap)
             && (forall a | a in m && a != src && a != dest && a != s.next :: r[a] == m[a])
    ensures Linked(r)
  {
    var s := m[src].mdb;
    var nx := s.next;
    assert nx != dest && nx != src && s.prev != dest && s.prev != src by {
      assert NodeLinked(m, src);
      assert NodeLinked(m, dest);
    }
    forall a | a in r
      ensures NodeLinked(r, a)
    {
      assert NodeLinked(m, a);
      if a != src && a != dest && a != nx {
        var n := m[a].mdb;
        if n.next != 0 {
          assert NodeLinked(m, n.next);
        }
        if n.prev != 0 {
          assert NodeLinked(m, n.prev);
        }
      } else if a == src {
        if s.prev != 0 {
          assert NodeLinked(m, s.prev);
        }
      } else if a == nx {
        var n := m[nx].mdb;
        if n.next != 0 {
          assert NodeLinked(m, n.next);
        }
      }
    }
  }

  /**
   * `insertNewCap`: a freshly created cap goes into `slot` directly after
   * its parent, revocable and starting a badge group.
   */
  function InsertNewCap(parent: nat, slot: nat, cap: Cap, m: Cdt): (r: Cdt)
    requires parent in m && slot in m
    ensures r.Keys == m.Keys
  {
    var next := m[parent].mdb.next;
    var m1 := WithCap(m, slot, cap);
    var m2 := WithMdb(m1, slot, MdbNode(parent, next, true, true));
    var m3 := if next != 0 then WithPrev(m2, next, slot) else m2;
    WithNext(m3, parent, slot)
  }

  /**
   * A new non-null cap in an empty slot ends up linked right after its
   * parent and before the parent's old successor, and the list stays well
   * formed.
   */
  lemma InsertNewCapKeepsLinked(parent: nat, slot: nat, cap: Cap, m: Cdt)
    requires Linked(m) && parent in m && slot in m && parent != slot && Separate(m, parent)
    requires Unlinked(m[slot]) && !cap.NullCap? && !m[parent].cap.NullCap?
    ensures var r := InsertNewCap(parent, slot, cap, m);
            Linked(r)
            && r[slot] == Cte(cap, MdbNode(parent, m[parent].mdb.next, true, true))
            && r[parent].mdb.next == slot && r[parent].cap == m[parent].cap
            && (forall a | a in m && a != slot :: r[a].cap == m[a].cap)
  {
    var r := InsertNewCap(parent, slot, cap, m);
    var p := m[parent];
    var nx := p.mdb.next;
    assert nx != slot by {
      assert NodeLinked(m, parent);
    }
    var m1 := WithCap(m, slot, cap);
    var m2 := WithMdb(m1, slot, MdbNode(parent, nx, true, true));
    assert m2[slot] == Cte(cap, MdbNode(parent, nx, true, true));
    assert forall a | a in m && a != slot :: m2[a] == m[a];
    var m3 := if nx != 0 then WithPrev(m2, nx, slot) else m2;
    assert m3[slot] == m2[slot] && m3[parent] == m[parent];
    assert nx != 0 ==> m3[nx] == Cte(m[nx].cap, MdbNode(slot, m[nx].mdb.next, m[nx].mdb.revocable, m[nx].mdb.firstBadged));
    assert forall a | a in m && a != slot && a != nx :: m3[a] == m[a];
    assert r[parent] == Cte(p.cap, MdbNode(p.mdb.prev, slot, p.mdb.revocable, p.mdb.firstBadged));
    assert forall a | a in m && a != parent :: r[a] == m3[a];
    SpliceLinked(m, r, parent, slot);
  }

  // ---------------------------------------------------------------------
  // Moving and swapping.

  /** The address `a` after exchanging the addresses `x` and `y`. */
  function Exchange(x: nat, y: nat, a: nat): nat
  {
    if a == x then y else if a == y then x else a
  }

  /**
   * `r` is `m` with the slots at `x` and `y` trading places in the list:
   * the links of each slot `a` of `m` are found, with `x` and `y`
   * exchanged, at the exchanged address of `a` in `r`.
   */
  predicate Relabelled(m: Cdt, r: Cdt, x: nat, y: nat)
  {
    x in m && y in m && r.Keys == m.Keys
    && forall a | a in m ::
         r[Exchange(x, y, a)].mdb.prev == Exchange(x, y, m[a].mdb.prev)
         && r[Exchange(x, y, a)].mdb.next == Exchange(x, y, m[a].mdb.next)
  }

  /**
   * Exchanging two slots' places keeps the list well formed, provided the
   * caps that end up null are the ones whose slots had no links.
   */
  lemma RelabelKeepsLinked(m: Cdt, r: Cdt, x: nat, y: nat)
    requires Linked(m) && Relabelled(m, r, x, y)
    requires forall a | a in m :: r[Exchange(x, y, a)].cap == NullCap ==> m[a].mdb.prev == 0 && m[a].mdb.next == 0
    ensures Linked(r)
  {
    forall b | b in r
      ensures NodeLinked(r, b)
    {
      var a := Exchange(x, y, b);
      assert Exchange(x, y, a) == b;
      assert NodeLinked(m, a);
      var n := m[a].mdb;
      if n.next != 0 {
        assert NodeLinked(m, n.next);
        assert Exchange(x, y, Exchange(x, y, n.next)) == n.next;
      }
      if n.prev != 0 {
        assert NodeLinked(m, n.prev);
        assert Exchange(x, y, Exchange(x, y, n.prev)) == n.prev;
      }
    }
  }

  /** The two neighbours of a slot whose links were `n` now point to `x` instead. */
  function Repoint(m: Cdt, n: MdbNode, x: nat): (r: Cdt)
    ensures r.Keys == m.Keys
  {
    var m1 := if n.prev != 0 then WithNext(m, n.prev, x) else m;
    if n.next != 0 then WithPrev(m1, n.next, x) else m1
  }

  lemma RepointSlots(m: Cdt, n: MdbNode, x: nat)
    requires n.prev != 0 ==> n.prev != n.next
    ensures var r := Repoint(m, n, x);
            (n.prev != 0 && n.prev in m ==> r[n.prev] == Cte(m[n.prev].cap, MdbNode(m[n.prev].mdb.prev, x, m[n.prev].mdb.revocable, m[n.prev].mdb.firstBadged)))
            && (n.next != 0 && n.next in m ==> r[n.next] == Cte(m[n.next].cap, MdbNode(x, m[n.next].mdb.next, m[n.next].mdb.revocable, m[n.next].mdb.firstBadged)))
            && (forall a | a in m && a != n.prev && a != n.next :: r[a] == m[a])
  {
  }

  /** The slot writes of `cteMove` before the neighbours are re-pointed. */
  function MoveEntries(newCap: Cap, src: nat, dest: nat, m: Cdt): (r: Cdt)
    requires src in m && dest in m
    ensures r.Keys == m.Keys
  {
    var m1 := WithCap(m, dest, newCap);
    var m2 := WithCap(m1, src, NullCap);
    var m3 := WithMdb(m2, dest, m[src].mdb);
    WithMdb(m3, src, NULL_MDB)
  }

  lemma MoveEntriesSlots(newCap: Cap, src: nat, dest: nat, m: Cdt)
    requires src in m && dest in m && src != dest
    ensures var r := MoveEntries(newCap, src, dest, m);
            r[dest] == Cte(newCap, m[src].mdb) && r[src] == Cte(NullCap, NULL_MDB)
            && (forall a | a in m && a != src && a != dest :: r[a] == m[a])
  {
  }

  /**
   * `cteMove`: the cap `newCap` goes to the empty slot `dest`, which takes
   * over `src`'s place in the list; `src` is left null and unlinked.  A
   * destination that is not empty trips the kernel's assertion.
   */
  function CteMove(newCap: Cap, src: nat, dest: nat, m: Cdt): (r: Option<Cdt>)
    requires src in m && dest in m
    ensures r.None? <==> !Unlinked(m[dest])
    ensures r.Some? ==> r.value.Keys == m.Keys
  {
    if !Unlinked(m[dest]) then None
    else Some(Repoint(MoveEntries(newCap, src, dest, m), m[src].mdb, dest))
  }

  /** Slot by slot, what `cteMove` writes when `src`'s neighbours are separate from each other and from `dest`. */
  lemma MoveSlots(newCap: Cap, src: nat, dest: nat, m: Cdt)
    requires Linked(m) && src in m && dest in m && src != dest && Separate(m, src) && Unlinked(m[dest])
    ensures var r := CteMove(newCap, src, dest, m).value;
            var s := m[src].mdb;
            r[dest] == Cte(newCap, s) && r[src] == Cte(NullCap, NULL_MDB)
            && (s.prev != 0 && s.prev in m ==> r[s.prev] == Cte(m[s.prev].cap, MdbNode(m[s.prev].mdb.prev, dest, m[s.prev].mdb.revocable, m[s.prev].mdb.firstBadged)))
            && (s.next != 0 && s.next in m ==> r[s.next] == Cte(m[s.next].cap, MdbNode(dest, m[s.next].mdb.next, m[s.next].mdb.revocable, m[s.next].mdb.firstBadged)))
            && (forall a | a in m && a != src && a != dest && a != s.prev && a != s.next :: r[a] == m[a])
  {
    var s := m[src].mdb;
    assert NodeLinked(m, src);
    assert s.prev != dest && s.next != dest by {
      assert NodeLinked(m, dest);
      if s.prev != 0 {
        assert NodeLinked(m, s.prev);
      }
    }
    var e := MoveEntries(newCap, src, dest, m);
    MoveEntriesSlots(newCap, src, dest, m);
    RepointSlots(e, s, dest);
  }

  /**
   * A move into an empty slot is the exchange of the two slots' places,
   * with the moved cap at `dest`, a null cap at `src`, and `src`'s flags
   * carried over; the list stays well formed and no other cap changes.
   */
  lemma MoveKeepsLinked(newCap: Cap, src: nat, dest: nat, m: Cdt)
    requires Linked(m) && src in m && dest in m && src != dest && Separate(m, src)
    requires Unlinked(m[dest]) && !newCap.NullCap?
    ensures CteMove(newCap, src, dest, m).Some?
    ensures var r := CteMove(newCap, src, dest, m).value;
            Linked(r) && Relabelled(m, r, src, dest)
            && r[dest] == Cte(newCap, m[src].mdb) && r[src] == Cte(NullCap, NULL_MDB)
            && (forall a | a in m && a != src && a != dest :: r[a].cap == m[a].cap)
  {
    var r := CteMove(newCap, src, dest, m).value;
    MoveSlots(newCap, src, dest, m);
    MoveRelabels(m, r, src, dest);
  }

  /** The list surgery of a move, apart from the operation: taking over an unlinked slot's place is an exchange. */
  lemma MoveRelabels(m: Cdt, r: Cdt, src: nat, dest: nat)
    requires Linked(m) && r.Keys == m.Keys && src in m && dest in m && src != dest && Separate(m, src) && Unlinked(m[dest])
    requires var s := m[src].mdb;
             r[dest].mdb == s && r[src].mdb.prev == 0 && r[src].mdb.next == 0
             && !r[dest].cap.NullCap?
             && (s.prev != 0 && s.prev in m ==> r[s.prev].mdb.prev == m[s.prev].mdb.prev && r[s.prev].mdb.next == dest && r[s.prev].cap == m[s.prev].cap)
             && (s.next != 0 && s.next in m ==> r[s.next].mdb.prev == dest && r[s.next].mdb.next == m[s.next].mdb.next && r[s.next].cap == m[s.next].cap)
             && (forall a | a in m && a != src && a != dest && a != s.prev && a != s.next :: r[a] == m[a])
    ensures Relabelled(m, r, src, dest) && Linked(r)
  {
    forall a | a in m
      ensures r[Exchange(src, dest, a)].mdb.prev == Exchange(src, dest, m[a].mdb.prev)
      ensures r[Exchange(src, dest, a)].mdb.next == Exchange(src, dest, m[a].mdb.next)
      ensures r[Exchange(src, dest, a)].cap == NullCap ==> m[a].mdb.prev == 0 && m[a].mdb.next == 0
    {
      assert NodeLinked(m, a);
      assert NodeLinked(m, dest);
      assert NodeLinked(m, src);
    }
    RelabelKeepsLinked(m, r, src, dest);
  }

  /** One slot of `Repoint`'s result. */
  lemma RepointAt(m: Cdt, n: MdbNode, x: nat, a: nat)
    requires a in m && (n.prev != 0 ==> n.prev != n.next)
    ensures Repoint(m, n, x)[a] ==
            Cte(m[a].cap,
                MdbNode(if n.next != 0 && a == n.next then x else m[a].mdb.prev,
                        if n.prev != 0 && a == n.prev then x else m[a].mdb.next,
                        m[a].mdb.revocable, m[a].mdb.firstBadged))
  {
  }

  /** The first half of `cteSwap`: the caps change slots and the first slot's neighbours point to the second. */
  function SwapFirstHalf(cap1: Cap, slot1: nat, cap2: Cap, slot2: nat, m: Cdt): (r: Cdt)
    requires slot1 in m && slot2 in m
    ensures r.Keys == m.Keys
  {
    Repoint(WithCap(WithCap(m, slot1, cap2), slot2, cap1), m[slot1].mdb, slot2)
  }

  /**
   * `cteSwap`: `cap1` and `cap2` change slots, and so do the two slots'
   * places in the list.  The second slot's links are read after the first
   * slot's neighbours were re-pointed, which is what makes the exchange come
   * out right when the two slots are neighbours.
   */
  function CteSwap(cap1: Cap, slot1: nat, cap2: Cap, slot2: nat, m: Cdt): (r: Cdt)
    requires slot1 in m && slot2 in m
    ensures r.Keys == m.Keys
  {
    var m2 := SwapFirstHalf(cap1, slot1, cap2, slot2, m);
    var mdb2 := m2[slot2].mdb;
    Repoint(WithMdb(WithMdb(m2, slot1, mdb2), slot2, m[slot1].mdb), mdb2, slot1)
  }

  /** The cap a swap leaves at `a`. */
  function SwappedCap(cap1: Cap, slot1: nat, cap2: Cap, slot2: nat, m: Cdt, a: nat): Cap
    requires a in m
  {
    if a == slot1 then cap2 else if a == slot2 then cap1 else m[a].cap
  }

  lemma SwapFirstHalfAt(cap1: Cap, slot1: nat, cap2: Cap, slot2: nat, m: Cdt, a: nat)
    requires slot1 in m && slot2 in m && a in m && slot1 != slot2 && Separate(m, slot1)
    ensures var n := m[slot1].mdb;
            SwapFirstHalf(cap1, slot1, cap2, slot2, m)[a] ==
            Cte(SwappedCap(cap1, slot1, cap2, slot2, m, a),
                MdbNode(if n.next != 0 && a == n.next then slot2 else m[a].mdb.prev,
                        if n.prev != 0 && a == n.prev then slot2 else m[a].mdb.next,
                        m[a].mdb.revocable, m[a].mdb.firstBadged))
  {
    var m1 := WithCap(WithCap(m, slot1, cap2), slot2, cap1);
    assert m1[a] == Cte(SwappedCap(cap1, slot1, cap2, slot2, m, a), m[a].mdb);
    RepointAt(m1, m[slot1].mdb, slot2, a);
  }

  /** The second slot's links once the first half of the swap is done. */
  lemma SwapMiddle(cap1: Cap, slot1: nat, cap2: Cap, slot2: nat, m: Cdt)
    requires slot1 in m && slot2 in m && slot1 != slot2 && slot2 != 0 && Separate(m, slot1) && Separate(m, slot2)
    ensures var n1 := m[slot1].mdb;
            var n2 := m[slot2].mdb;
            var mdb2 := SwapFirstHalf(cap1, slot1, cap2, slot2, m)[slot2].mdb;
            && mdb2.prev == (if n1.next == slot2 then slot2 else n2.prev)
            && mdb2.next == (if n1.prev == slot2 then slot2 else n2.next)
            && (mdb2.prev != 0 ==> mdb2.prev != mdb2.next)
  {
    SwapFirstHalfAt(cap1, slot1, cap2, slot2, m, slot2);
  }

  /** One slot of the swap's result, in terms of its first half. */
  lemma SwapSecondHalfAt(cap1: Cap, slot1: nat, cap2: Cap, slot2: nat, m: Cdt, b: nat)
    requires slot1 in m && slot2 in m && b in m && slot1 != slot2
    requires var mdb2 := SwapFirstHalf(cap1, slot1, cap2, slot2, m)[slot2].mdb;
             mdb2.prev != 0 ==> mdb2.prev != mdb2.next
    ensures var m2 := SwapFirstHalf(cap1, slot1, cap2, slot2, m);
            var mdb2 := m2[slot2].mdb;
            var links := if b == slot2 then m[slot1].mdb else if b == slot1 then mdb2 else m2[b].mdb;
            CteSwap(cap1, slot1, cap2, slot2, m)[b] ==
            Cte(m2[b].cap,
                MdbNode(if mdb2.next != 0 && b == mdb2.next then slot1 else links.prev,
                        if mdb2.prev != 0 && b == mdb2.prev then slot1 else links.next,
                        links.revocable, links.firstBadged))
  {
    var m2 := SwapFirstHalf(cap1, slot1, cap2, slot2, m);
    var mdb2 := m2[slot2].mdb;
    var m3 := WithMdb(WithMdb(m2, slot1, mdb2), slot2, m[slot1].mdb);
    RepointAt(m3, mdb2, slot1, b);
  }

  /** What a swap leaves at slot `a`, as the exchange of the two slots' places. */
  lemma SwapAt(cap1: Cap, slot1: nat, cap2: Cap, slot2: nat, m: Cdt, a: nat)
    requires Linked(m) && slot1 in m && slot2 in m && a in m && slot1 != slot2 && Separate(m, slot1) && Separate(m, slot2)
    ensures var r := CteSwap(cap1, slot1, cap2, slot2, m);
            var b := Exchange(slot1, slot2, a);
            r[b].mdb.prev == Exchange(slot1, slot2, m[a].mdb.prev)
            && r[b].mdb.next == Exchange(slot1, slot2, m[a].mdb.next)
            && r[b].cap == SwappedCap(cap1, slot1, cap2, slot2, m, b)
  {
    var b := Exchange(slot1, slot2, a);
    assert NodeLinked(m, a);
    assert NodeLinked(m, slot1);
    assert NodeLinked(m, slot2);
    SwapMiddle(cap1, slot1, cap2, slot2, m);
    SwapFirstHalfAt(cap1, slot1, cap2, slot2, m, b);
    SwapSecondHalfAt(cap1, slot1, cap2, slot2, m, b);
    if m[a].mdb.next != 0 {
      assert NodeLinked(m, m[a].mdb.next);
    }
    if m[a].mdb.prev != 0 {
      assert NodeLinked(m, m[a].mdb.prev);
    }
  }

  /**
   * Swapping two non-null caps exchanges the two slots' places in the list,
   * keeps it well formed, and changes no other cap.
   */
  lemma SwapKeepsLinked(cap1: Cap, slot1: nat, cap2: Cap, slot2: nat, m: Cdt)
    requires Linked(m) && slot1 in m && slot2 in m && slot1 != slot2 && Separate(m, slot1) && Separate(m, slot2)
    requires !cap1.NullCap? && !cap2.NullCap?
    ensures var r := CteSwap(cap1, slot1, cap2, slot2, m);
            Linked(r) && Relabelled(m, r, slot1, slot2)
            && r[slot1].cap == cap2 && r[slot2].cap == cap1
            && (forall a | a in m && a != slot1 && a != slot2 :: r[a].cap == m[a].cap)
  {
    var r := CteSwap(cap1, slot1, cap2, slot2, m);
    forall a | a in m
      ensures r[Exchange(slot1, slot2, a)].mdb.prev == Exchange(slot1, slot2, m[a].mdb.prev)
      ensures r[Exchange(slot1, slot2, a)].mdb.next == Exchange(slot1, slot2, m[a].mdb.next)
      ensures r[Exchange(slot1, slot2, a)].cap == SwappedCap(cap1, slot1, cap2, slot2, m, Exchange(slot1, slot2, a))
    {
      SwapAt(cap1, slot1, cap2, slot2, m, a);
    }
    forall a | a in m
      ensures r[Exchange(slot1, slot2, a)].cap == NullCap ==> m[a].mdb.prev == 0 && m[a].mdb.next == 0
    {
      assert NodeLinked(m, a);
    }
    RelabelKeepsLinked(m, r, slot1, slot2);
    assert r[Exchange(slot1, slot2, slot2)].cap == cap2;
    assert r[Exchange(slot1, slot2, slot1)].cap == cap1;
    forall a | a in m && a != slot1 && a != slot2
      ensures r[a].cap == m[a].cap
    {
      assert Exchange(slot1, slot2, a) == a;
    }
  }

  // ---------------------------------------------------------------------
  // Emptying a slot.

  /**
   * `emptySlot`: a slot holding a cap leaves the list, its successor taking
   * over its first-badged flag, and is left null and unlinked.  A slot that
   * is already null is left alone.
   */
  function EmptySlot(slot: nat, m: Cdt): (r: Cdt)
    requires slot in m
    ensures r.Keys == m.Keys
  {
    if m[slot].cap.NullCap? then m
    else
      var n := m[slot].mdb;
      var m1 := if n.prev != 0 then WithNext(m, n.prev, n.next) else m;
      var m2 := if n.next != 0 then WithPrev(m1, n.next, n.prev) else m1;
      var m3 := if n.next != 0 && n.next in m2
                then WithMdb(m2, n.next, m2[n.next].mdb.(firstBadged := m2[n.next].mdb.firstBadged || n.firstBadged))
                else m2;
      m3[slot := Cte(NullCap, NULL_MDB)]
  }

  /** Slot by slot, what `emptySlot` writes. */
  lemma EmptySlotSlots(slot: nat, m: Cdt)
    requires slot in m && !m[slot].cap.NullCap? && Separate(m, slot)
    ensures var r := EmptySlot(slot, m);
            var n := m[slot].mdb;
            r[slot] == Cte(NullCap, NULL_MDB)
            && (n.prev != 0 && n.prev in m ==> r[n.prev] == Cte(m[n.prev].cap, m[n.prev].mdb.(next := n.next)))
            && (n.next != 0 && n.next in m ==>
                  r[n.next] == Cte(m[n.next].cap, m[n.next].mdb.(prev := n.prev, firstBadged := m[n.next].mdb.firstBadged || n.firstBadged)))
            && (forall a | a in m && a != slot && a != n.prev && a != n.next :: r[a] == m[a])
  {
  }

  /** The list surgery of `emptySlot`, apart from the operation: joining a slot's two neighbours keeps the list well formed. */
  lemma UnlinkKeepsLinked(m: Cdt, r: Cdt, slot: nat)
    requires Linked(m) && r.Keys == m.Keys && slot in m && Separate(m, slot)
    requires var n := m[slot].mdb;
             r[slot].cap == NullCap && r[slot].mdb.prev == 0 && r[slot].mdb.next == 0
             && (n.prev != 0 && n.prev in m ==> r[n.prev].cap == m[n.prev].cap && r[n.prev].mdb.prev == m[n.prev].mdb.prev && r[n.prev].mdb.next == n.next)
             && (n.next != 0 && n.next in m ==> r[n.next].cap == m[n.next].cap && r[n.next].mdb.next == m[n.next].mdb.next && r[n.next].mdb.prev == n.prev)
             && (forall a | a in m && a != slot && a != n.prev && a != n.next :: r[a] == m[a])
    ensures Linked(r)
  {
    var n := m[slot].mdb;
    assert NodeLinked(m, slot);
    forall b | b in r
      ensures NodeLinked(r, b)
    {
      assert NodeLinked(m, b);
      var c := m[b].mdb.next;
      var d := m[b].mdb.prev;
      if c != 0 {
        assert NodeLinked(m, c);
      }
      if d != 0 {
        assert NodeLinked(m, d);
      }
    }
  }

  /**
   * Emptying a slot that holds a cap takes it out of the list: its
   * neighbours become adjacent, the list stays well formed, the successor
   * inherits the first-badged flag, and no other cap changes.
   */
  lemma EmptySlotKeepsLinked(slot: nat, m: Cdt)
    requires Linked(m) && slot in m && Separate(m, slot) && !m[slot].cap.NullCap?
    ensures var r := EmptySlot(slot, m);
            var n := m[slot].mdb;
            Linked(r) && r[slot] == Cte(NullCap, NULL_MDB)
            && (n.prev != 0 ==> n.prev in r && r[n.prev].mdb.next == n.next)
            && (n.next != 0 ==> n.next in r && r[n.next].mdb.prev == n.prev && r[n.next].mdb.firstBadged == (m[n.next].mdb.firstBadged || n.firstBadged))
            && (forall a | a in m && a != slot :: r[a].cap == m[a].cap)
  {
    assert NodeLinked(m, slot);
    EmptySlotSlots(slot, m);
    UnlinkKeepsLinked(m, EmptySlot(slot, m), slot);
  }

  /** Emptying a null slot changes nothing, and emptying twice is emptying once. */
  lemma EmptySlotIdempotent(slot: nat, m: Cdt)
    requires slot in m
    ensures m[slot].cap.NullCap? ==> EmptySlot(slot, m) == m
    ensures EmptySlot(slot, EmptySlot(slot, m)) == EmptySlot(slot, m)
  {
  }

  // ---------------------------------------------------------------------
  // Swapping for deletion and rotating.

  /** `capSwapForDelete`: two slots trade their own caps and places; a slot swapped with itself is left alone. */
  function CapSwapForDelete(slot1: nat, slot2: nat, m: Cdt): (r: Cdt)
    requires slot1 in m && slot2 in m
    ensures r.Keys == m.Keys
  {
    if slot1 == slot2 then m else CteSwap(m[slot1].cap, slot1, m[slot2].cap, slot2, m)
  }

  /** Swapping two slots holding caps exchanges their places and their caps and keeps the list well formed. */
  lemma SwapForDeleteExchanges(slot1: nat, slot2: nat, m: Cdt)
    requires Linked(m) && slot1 in m && slot2 in m && Separate(m, slot1) && Separate(m, slot2)
    requires !m[slot1].cap.NullCap? && !m[slot2].cap.NullCap?
    ensures var r := CapSwapForDelete(slot1, slot2, m);
            Linked(r) && r[slot1].cap == m[slot2].cap && r[slot2].cap == m[slot1].cap
            && (slot1 != slot2 ==> Relabelled(m, r, slot1, slot2))
            && (forall a | a in m && a != slot1 && a != slot2 :: r[a].cap == m[a].cap)
  {
    if slot1 != slot2 {
      SwapKeepsLinked(m[slot1].cap, slot1, m[slot2].cap, slot2, m);
    }
  }

  /** A slot other than the two exchanged ones keeps its separation from its neighbours. */
  lemma RelabelKeepsSeparate(m: Cdt, r: Cdt, x: nat, y: nat, a: nat)
    requires Relabelled(m, r, x, y) && x != 0 && y != 0 && a in m && a != x && a != y && Separate(m, a)
    ensures a in r && Separate(r, a)
  {
    assert Exchange(x, y, a) == a;
    assert r[a].mdb.prev == Exchange(x, y, m[a].mdb.prev);
    assert r[a].mdb.next == Exchange(x, y, m[a].mdb.next);
  }

  /**
   * `invokeCNodeRotate`: with source and destination the same slot, the
   * source and pivot swap; otherwise the pivot's cap moves to the
   * destination and then the source's cap to the pivot.  A move into a
   * slot that is not empty trips the kernel's assertion.
   */
  function InvokeCNodeRotate(cap1: Cap, cap2: Cap, slot1: nat, slot2: nat, slot3: nat, m: Cdt): (r: Option<Cdt>)
    requires slot1 in m && slot2 in m && slot3 in m
    ensures r.Some? ==> r.value.Keys == m.Keys
  {
    if slot1 == slot3 then Some(CteSwap(cap1, slot1, cap2, slot2, m))
    else
      match CteMove(cap2, slot2, slot3, m)
      case None => None
      case Some(m1) => CteMove(cap1, slot1, slot2, m1)
  }

  /**
   * A rotation of non-null caps through three slots, with the pivot apart
   * from the other two and the destination empty unless it is the source,
   * keeps the list well formed: `cap1` ends in the pivot, `cap2` in the
   * destination, the source is left empty unless it is the destination,
   * and no other cap changes.
   */
  lemma RotateKeepsLinked(cap1: Cap, cap2: Cap, slot1: nat, slot2: nat, slot3: nat, m: Cdt)
    requires Linked(m) && slot1 in m && slot2 in m && slot3 in m
    requires slot2 != slot1 && slot2 != slot3 && Separate(m, slot1) && Separate(m, slot2)
    requires slot1 != slot3 ==> Unlinked(m[slot3])
    requires !cap1.NullCap? && !cap2.NullCap?
    ensures InvokeCNodeRotate(cap1, cap2, slot1, slot2, slot3, m).Some?
    ensures var r := InvokeCNodeRotate(cap1, cap2, slot1, slot2, slot3, m).value;
            Linked(r) && r[slot2].cap == cap1 && r[slot3].cap == cap2
            && (slot1 != slot3 ==> r[slot1] == Cte(NullCap, NULL_MDB))
            && (forall a | a in m && a != slot1 && a != slot2 && a != slot3 :: r[a].cap == m[a].cap)
  {
    if slot1 == slot3 {
      SwapKeepsLinked(cap1, slot1, cap2, slot2, m);
    } else {
      MoveKeepsLinked(cap2, slot2, slot3, m);
      var m1 := CteMove(cap2, slot2, slot3, m).value;
      RelabelKeepsSeparate(m, m1, slot2, slot3, slot1);
      MoveKeepsLinked(cap1, slot1, slot2, m1);
    }
  }

  // ---------------------------------------------------------------------
  // Derivation queries.

  /** The cap at address `a`, or the null cap where there is no slot. */
  function CapIn(m: Cdt, a: nat): Cap
  {
    if a in m then m[a].cap else NullCap
  }

  /** The entry at address `a`, or an empty unlinked one where there is no slot. */
  function CteIn(m: Cdt, a: nat): Cte
  {
    if a in m then m[a] else Cte(NullCap, NULL_MDB)
  }

  /** The badge of an endpoint or notification cap; other caps carry none. */
  function Badge(c: Cap): Word
  {
    match c
    case EndpointCap(_, b, _, _, _, _) => b
    case NotificationCap(_, b, _, _) => b
    case _ => 0
  }

  /** A cap that carries a badge of its own. */
  predicate Badged(c: Cap)
  {
    (c.EndpointCap? || c.NotificationCap?) && Badge(c) != 0
  }

  /**
   * `isMDBParentOf` (`cnode.c`): `b` was derived from `a` when `a` is
   * revocable and covers `b`'s region; a badged endpoint or notification
   * cap parents only caps with its own badge that do not start a new
   * badge group.
   */
  function IsMdbParentOf(a: Cte, b: Cte): bool
  {
    if !a.mdb.revocable || !SameRegionAs(a.cap, b.cap) then false
    else
      match a.cap
      case EndpointCap(_, badge, _, _, _, _) =>
        badge == 0 || (b.cap.EndpointCap? && b.cap.badge == badge && !b.mdb.firstBadged)
      case NotificationCap(_, badge, _, _) =>
        badge == 0 || (b.cap.NotificationCap? && b.cap.badge == badge && !b.mdb.firstBadged)
      case _ => true
  }

  /** What the parent test says, stated by the kind of the parent cap. */
  lemma ParentOfCharacterised(a: Cte, b: Cte)
    ensures IsMdbParentOf(a, b) ==> a.mdb.revocable && SameRegionAs(a.cap, b.cap)
    ensures Badged(a.cap) ==>
              (IsMdbParentOf(a, b) <==> a.mdb.revocable && SameRegionAs(a.cap, b.cap) && Badge(b.cap) == Badge(a.cap) && !b.mdb.firstBadged)
    ensures !Badged(a.cap) ==> (IsMdbParentOf(a, b) <==> a.mdb.revocable && SameRegionAs(a.cap, b.cap))
  {
  }

  /**
   * `isMDBParentOf` as `CNode.rs` writes it: for an endpoint parent the
   * badge comparison reads the parent's own badge twice, so the child's
   * badge is never looked at.
   */
  function IsMdbParentOfAsWritten(a: Cte, b: Cte): bool
  {
    if !a.mdb.revocable || !SameRegionAs(a.cap, b.cap) then false
    else
      match a.cap
      case EndpointCap(_, badge, _, _, _, _) =>
        badge == 0 || (a.cap.badge == badge && !b.mdb.firstBadged)
      case NotificationCap(_, badge, _, _) =>
        badge == 0 || (b.cap.NotificationCap? && b.cap.badge == badge && !b.mdb.firstBadged)
      case _ => true
  }

  /**
   * The Rust test takes an endpoint cap with another badge, in a slot that
   * does not start a badge group, for a child of a badged endpoint; the
   * kernel's test does not.
   */
  lemma ParentAsWrittenIgnoresChildBadge(p: Word, s: bool, r: bool, g: bool, gr: bool)
    ensures var a := Cte(EndpointCap(p, 1, s, r, g, gr), MdbNode(0, 0, true, true));
            var b := Cte(EndpointCap(p, 2, s, r, g, gr), MdbNode(0, 0, false, false));
            IsMdbParentOfAsWritten(a, b) && !IsMdbParentOf(a, b)
  {
  }

  /** The two tests agree everywhere except on endpoint caps whose badges differ. */
  lemma ParentAsWrittenDiffersOnlyOnBadges(a: Cte, b: Cte)
    ensures IsMdbParentOfAsWritten(a, b) != IsMdbParentOf(a, b) ==>
              a.cap.EndpointCap? && b.cap.EndpointCap? && Badged(a.cap) && Badge(b.cap) != Badge(a.cap)
  {
  }

  /**
   * `isFinalCapability` (`cnode.c`): a slot holds the last cap to its
   * object when neither list neighbour is a cap to the same object.
   */
  function IsFinalCapability(m: Cdt, slot: nat): bool
    requires slot in m
  {
    var n := m[slot].mdb;
    var prevIsSameObject := n.prev != 0 && SameObjectAs(CapIn(m, n.prev), m[slot].cap);
    if prevIsSameObject then false
    else n.next == 0 || !SameObjectAs(m[slot].cap, CapIn(m, n.next))
  }

  /** `isFinalCapability` as `CNode.rs` writes it: the test on the next slot has lost its negation. */
  function IsFinalCapabilityAsWritten(m: Cdt, slot: nat): bool
    requires slot in m
  {
    var n := m[slot].mdb;
    var prevIsSameObject := n.prev != 0 && SameObjectAs(CapIn(m, n.prev), m[slot].cap);
    if prevIsSameObject then false
    else n.next == 0 || SameObjectAs(m[slot].cap, CapIn(m, n.next))
  }

  /** A cap with no list neighbours is the final cap to its object. */
  lemma LoneCapIsFinal(m: Cdt, slot: nat)
    requires slot in m && m[slot].mdb.prev == 0 && m[slot].mdb.next == 0
    ensures IsFinalCapability(m, slot)
  {
  }

  /** The entries a copy of `src`'s own cap into `dest` leaves at the two slots. */
  lemma CopySlots(src: nat, dest: nat, m: Cdt)
    requires Linked(m) && src in m && dest in m && src != dest && Separate(m, src)
    requires Unlinked(m[dest]) && !m[src].cap.NullCap? && !m[src].cap.UntypedCap?
    ensures CteInsert(m[src].cap, src, dest, m).Some?
    ensures var r := CteInsert(m[src].cap, src, dest, m).value;
            var c := m[src].cap;
            Linked(r)
            && r[src] == Cte(c, m[src].mdb.(next := dest))
            && r[dest] == Cte(c, MdbNode(src, m[src].mdb.next, false, false))
            && CapIn(r, m[src].mdb.prev) == CapIn(m, m[src].mdb.prev)
  {
    var c := m[src].cap;
    assert NodeLinked(m, src);
    assert NodeLinked(m, dest);
    InsertKeepsLinked(c, src, dest, m);
    InsertSlots(c, src, dest, m);
    PlainCopyRevocable(c);
    var p := m[src].mdb.prev;
    if p != 0 {
      assert NodeLinked(m, p);
    }
  }

  /**
   * After a cap to an object is copied, neither the original nor the copy
   * is the final cap to that object.
   */
  lemma CopiedCapNotFinal(src: nat, dest: nat, m: Cdt)
    requires Linked(m) && src in m && dest in m && src != dest && Separate(m, src)
    requires Unlinked(m[dest]) && SameObjectAs(m[src].cap, m[src].cap)
    ensures CteInsert(m[src].cap, src, dest, m).Some?
    ensures var r := CteInsert(m[src].cap, src, dest, m).value;
            !IsFinalCapability(r, src) && !IsFinalCapability(r, dest)
  {
    CopySlots(src, dest, m);
  }

  /**
   * The Rust test calls the original final right after the copy when the
   * slot before it is not a cap to the same object.
   */
  lemma FinalAsWrittenAfterCopy(src: nat, dest: nat, m: Cdt)
    requires Linked(m) && src in m && dest in m && src != dest && Separate(m, src)
    requires Unlinked(m[dest]) && SameObjectAs(m[src].cap, m[src].cap)
    requires m[src].mdb.prev != 0 ==> !SameObjectAs(CapIn(m, m[src].mdb.prev), m[src].cap)
    ensures CteInsert(m[src].cap, src, dest, m).Some?
    ensures var r := CteInsert(m[src].cap, src, dest, m).value;
            IsFinalCapabilityAsWritten(r, src) && !IsFinalCapability(r, src)
  {
    CopySlots(src, dest, m);
  }

  // ---------------------------------------------------------------------
  // Slot checks of the CNode invocations.

  /** `ensureEmptySlot`: a slot holding a cap must be deleted first. */
  function EnsureEmptySlot(e: Cte): (r: Result<(), SyscallError>)
    ensures r.Failure? ==> r.error == DeleteFirst
  {
    if !e.cap.NullCap? then Failure(DeleteFirst) else Success(())
  }

  /** In a well-formed list, a slot that passes the check can take an insertion or a move, and an emptied slot passes it. */
  lemma EnsureEmptySlotAdmits(m: Cdt, slot: nat)
    requires Linked(m) && slot in m
    ensures EnsureEmptySlot(m[slot]).Success? <==> Unlinked(m[slot])
    ensures EnsureEmptySlot(EmptySlot(slot, m)[slot]).Success?
  {
    assert NodeLinked(m, slot);
  }

  /** `ensureNoChildren`: a slot whose successor in the list was derived from it must be revoked first. */
  function EnsureNoChildren(m: Cdt, slot: nat): (r: Result<(), SyscallError>)
    requires slot in m
    ensures r.Failure? ==> r.error == RevokeFirst
  {
    var next := m[slot].mdb.next;
    if next != 0 && IsMdbParentOf(m[slot], CteIn(m, next)) then Failure(RevokeFirst) else Success(())
  }

  /** A slot without a successor has no children. */
  lemma LastSlotHasNoChildren(m: Cdt, slot: nat)
    requires slot in m && m[slot].mdb.next == 0
    ensures EnsureNoChildren(m, slot).Success?
  {
  }

  /**
   * A copy of a revocable cap that covers its own region is its child: once
   * it is made, the original must be revoked before it can be moved on.
   */
  lemma CopyOfRevocableIsChild(src: nat, dest: nat, m: Cdt)
    requires Linked(m) && src in m && dest in m && src != dest && Separate(m, src)
    requires Unlinked(m[dest]) && !m[src].cap.NullCap? && !m[src].cap.UntypedCap?
    requires m[src].mdb.revocable && SameRegionAs(m[src].cap, m[src].cap)
    ensures CteInsert(m[src].cap, src, dest, m).Some?
    ensures var r := CteInsert(m[src].cap, src, dest, m).value;
            IsMdbParentOf(r[src], r[dest]) && EnsureNoChildren(r, src) == Failure(RevokeFirst)
  {
    CopySlots(src, dest, m);
  }
}
