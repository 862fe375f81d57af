/**
 * The FreeRTOS intrusive list (`List`/`ListItem`): a ring of items closed by
 * an end marker whose value is `portMAX_DELAY`, a walking cursor (`index`)
 * and an item count.
 *
 * The ring is modelled as the sequence of real items in ring order starting
 * just after the end marker.  The cursor is an index into that sequence, or
 * `|items|` when it rests on the end marker.  The item count of the source is
 * `|items|`.
 */
module PriorityList {
  import opened Ticks
  import opened Wrappers

  type TaskId = nat

  datatype Item = Item(owner: TaskId, value: Tick)

  datatype List = List(items: seq<Item>, cursor: nat)

  predicate Valid(l: List)
  {
    l.cursor <= |l.items|
  }

  /** A freshly initialised list: no items, cursor on the end marker. */
  function Empty(): (l: List)
    ensures Valid(l) && |l.items| == 0 && CursorItem(l) == None
  {
    List([], 0)
  }

  /** The item the cursor designates, `None` for the end marker. */
  function CursorItem(l: List): Option<Item>
    requires Valid(l)
  {
    if l.cursor < |l.items| then Some(l.items[l.cursor]) else None
  }

  ghost predicate Sorted(s: seq<Item>)
  {
    forall i, j :: 0 <= i < j < |s| ==> s[i].value <= s[j].value
  }

  predicate Contains(l: List, owner: TaskId)
  {
    exists i :: 0 <= i < |l.items| && l.items[i].owner == owner
  }

  /** The index of the first item whose value exceeds `v`, or `|s|`. */
  function FirstAbove(s: seq<Item>, v: Tick): (p: nat)
    ensures p <= |s|
    ensures forall i :: 0 <= i < p ==> s[i].value <= v
    ensures p < |s| ==> s[p].value > v
  {
    if |s| == 0 then 0
    else if s[0].value > v then 0
    else 1 + FirstAbove(s[1..], v)
  }

  /**
   * Where `insert` links a new item valued `v`: straight before the end
   * marker when `v` is `portMAX_DELAY`, otherwise after the walk that skips
   * every item whose value is not above `v`.
   */
  function InsertPosition(s: seq<Item>, v: Tick): nat
  {
    if v == MAX_DELAY then |s| else FirstAbove(s, v)
  }

  /** Links `it` at index `p`; the cursor keeps designating the same item. */
  function LinkAt(l: List, p: nat, it: Item): (r: List)
    requires Valid(l) && p <= |l.items|
    ensures Valid(r) && |r.items| == |l.items| + 1
    ensures r.items[p] == it
    ensures CursorItem(r) == CursorItem(l)
    ensures multiset(r.items) == multiset(l.items) + multiset{it}
  {
    assert l.items == l.items[..p] + l.items[p..];
    List(l.items[..p] + [it] + l.items[p..], if l.cursor >= p then l.cursor + 1 else l.cursor)
  }

  /** `List::insert`: sorted insertion, after every item of equal value. */
  function Insert(l: List, it: Item): (r: List)
    requires Valid(l)
    ensures Valid(r) && |r.items| == |l.items| + 1
    ensures CursorItem(r) == CursorItem(l)
    ensures multiset(r.items) == multiset(l.items) + multiset{it}
    ensures exists p :: 0 <= p <= |l.items| && r.items == l.items[..p] + [it] + l.items[p..]
              && (forall i :: 0 <= i < p ==> l.items[i].value <= it.value)
              && (p < |l.items| ==> l.items[p].value > it.value)
    ensures Sorted(l.items) ==> Sorted(r.items)
  {
    var p := InsertPosition(l.items, it.value);
    var r := LinkAt(l, p, it);
    assert r.items == l.items[..p] + [it] + l.items[p..];
    SortedAfterLink(l.items, p, it);
    r
  }

  /** An item inserted into an empty list is its only item. */
  lemma InsertIntoEmpty(l: List, it: Item)
    requires Valid(l) && |l.items| == 0
    ensures Insert(l, it).items == [it]
  {
    var r := Insert(l, it);
    assert r.items[0] == it;
  }

  lemma SortedAfterLink(s: seq<Item>, p: nat, it: Item)
    requires p <= |s|
    requires forall i :: 0 <= i < p ==> s[i].value <= it.value
    requires p < |s| ==> s[p].value > it.value
    ensures Sorted(s) ==> Sorted(s[..p] + [it] + s[p..])
  {
    if Sorted(s) {
      var t := s[..p] + [it] + s[p..];
      forall i, j | 0 <= i < j < |t| ensures t[i].value <= t[j].value {
        if j < p || i > p {
        } else if i == p {
          assert t[j] == s[j - 1];
        } else if j == p {
          assert t[i] == s[i];
        } else {
          assert t[i] == s[i] && t[j] == s[j - 1];
        }
      }
    }
  }

  /** `List::insert_end`: links `it` immediately before the cursor. */
  function InsertEnd(l: List, it: Item): (r: List)
    requires Valid(l)
    ensures Valid(r) && |r.items| == |l.items| + 1
    ensures 0 < r.cursor && r.items[r.cursor - 1] == it
    ensures CursorItem(r) == CursorItem(l)
    ensures multiset(r.items) == multiset(l.items) + multiset{it}
  {
    LinkAt(l, l.cursor, it)
  }

  /**
   * `List::remove_item` together with the unlinking in `ListItem::remove`:
   * drops the item at `i`; a cursor that designated it moves to the item's
   * predecessor (the end marker when `i` is the first item).
   */
  function RemoveAt(l: List, i: nat): (r: List)
    requires Valid(l) && i < |l.items|
    ensures Valid(r) && |r.items| == |l.items| - 1
    ensures multiset(r.items) == multiset(l.items) - multiset{l.items[i]}
    ensures l.cursor != i ==> CursorItem(r) == CursorItem(l)
    ensures l.cursor == i && i == 0 ==> CursorItem(r) == None
    ensures l.cursor == i && i > 0 ==> CursorItem(r) == Some(l.items[i - 1])
    ensures Sorted(l.items) ==> Sorted(r.items)
    ensures Sorted(l.items) && |r.items| > 0 ==> r.items[0].value >= l.items[0].value
  {
    SortedAfterRemove(l.items, i);
    var c := if l.cursor == i then (if i == 0 then |l.items| - 1 else i - 1)
             else if l.cursor > i then l.cursor - 1 else l.cursor;
    List(Drop(l.items, i), c)
  }

  /** `s` without its `i`th item: the items before it keep their places, the ones after move down by one. */
  function Drop(s: seq<Item>, i: nat): (r: seq<Item>)
    requires i < |s|
    ensures r == s[..i] + s[i + 1..] && |r| == |s| - 1
    ensures forall k | 0 <= k < i :: r[k] == s[k]
    ensures forall k | i <= k < |r| :: r[k] == s[k + 1]
    ensures multiset(r) == multiset(s) - multiset{s[i]}
  {
    assert s == s[..i] + [s[i]] + s[i + 1..];
    s[..i] + s[i + 1..]
  }

  /** Dropping one item keeps a sorted sequence sorted and never lowers its first value. */
  lemma SortedAfterRemove(s: seq<Item>, i: nat)
    requires i < |s|
    ensures Sorted(s) ==> Sorted(s[..i] + s[i + 1..])
    ensures Sorted(s) && |s| > 1 ==> (s[..i] + s[i + 1..])[0].value >= s[0].value
  {
    var t := s[..i] + s[i + 1..];
    if Sorted(s) {
      forall a, b | 0 <= a < b < |t| ensures t[a].value <= t[b].value {
        var a0 := if a < i then a else a + 1;
        var b0 := if b < i then b else b + 1;
        assert t[a] == s[a0] && t[b] == s[b0];
      }
      if |s| > 1 {
        var z := if 0 < i then 0 else 1;
        assert t[0] == s[z];
      }
    }
  }

  /** Index of the item owned by `owner`, if it is in the list. */
  function IndexOf(s: seq<Item>, owner: TaskId): (r: Option<nat>)
    ensures r.Some? ==> r.value < |s| && s[r.value].owner == owner
    ensures r.None? ==> forall i :: 0 <= i < |s| ==> s[i].owner != owner
  {
    if |s| == 0 then None
    else if s[|s| - 1].owner == owner then Some(|s| - 1)
    else IndexOf(s[..|s| - 1], owner)
  }

  /** Removing the item that was just linked gives back the original list. */
  lemma {:induction false} RemoveUndoesLink(l: List, p: nat, it: Item)
    requires Valid(l) && p <= |l.items|
    ensures RemoveAt(LinkAt(l, p, it), p) == l
  {
    var r := LinkAt(l, p, it);
    assert r.items[..p] + r.items[p + 1..] == l.items;
  }

  /**
   * The first item in list order, the one just after the end marker;
   * `None` when the list is empty.
   */
  function HeadEntry(l: List): (r: Option<Item>)
    ensures r.None? <==> |l.items| == 0
    ensures r.Some? ==> r.value == l.items[0]
    ensures r.Some? ==> r.value in l.items
    ensures r.Some? && Sorted(l.items) ==> forall i :: 0 <= i < |l.items| ==> r.value.value <= l.items[i].value
  {
    if |l.items| == 0 then None else Some(l.items[0])
  }

  /** Cursor step of `increment_index`: the end marker is skipped. */
  function NextCursor(c: nat, n: nat): nat
  {
    if c + 1 >= n then 0 else c + 1
  }

  /**
   * `get_owner_of_next_entry`: advances the cursor, skipping the end marker,
   * and returns the item it lands on (`None` on an empty list, where the
   * source reads the end marker's empty owner).
   */
  function NextEntry(l: List): (r: (List, Option<Item>))
    requires Valid(l)
    ensures Valid(r.0) && r.0.items == l.items
    ensures |l.items| > 0 ==> r.0.cursor < |l.items| && r.1 == Some(l.items[r.0.cursor])
    ensures |l.items| == 0 ==> r.1 == None
  {
    var c := NextCursor(l.cursor, |l.items|);
    (List(l.items, c), if |l.items| == 0 then None else Some(l.items[c]))
  }

  /** The cursor after `k` successive calls of `NextEntry`. */
  function Walk(l: List, k: nat): (r: List)
    requires Valid(l)
    ensures Valid(r) && r.items == l.items
  {
    if k == 0 then l else NextEntry(Walk(l, k - 1)).0
  }

  /** Reduction of `x < 2n` into `[0, n)`. */
  function Wrap(x: nat, n: nat): nat
  {
    if x < n then x else x - n
  }

  lemma {:induction false} WalkFormula(l: List, k: nat)
    requires Valid(l) && 1 <= k <= |l.items|
    ensures Walk(l, k).cursor == Wrap(NextCursor(l.cursor, |l.items|) + k - 1, |l.items|)
  {
    var n := |l.items|;
    if k == 1 {
      assert Walk(l, 1) == NextEntry(Walk(l, 0)).0;
    } else {
      WalkFormula(l, k - 1);
      assert Walk(l, k) == NextEntry(Walk(l, k - 1)).0;
    }
  }

  /**
   * Repeated `get_owner_of_next_entry` calls cycle through the items: within
   * any `|items|` consecutive calls every item is returned
   */
  lemma {:induction false} NextEntryVisitsEveryItem(l: List, i: nat)
    requires Valid(l) && i < |l.items|
    ensures exists k :: 1 <= k <= |l.items| && Walk(l, k).cursor == i
  {
    var n := |l.items|;
    var s := NextCursor(l.cursor, n);
    var k := if i >= s then i - s + 1 else i + n - s + 1;
    WalkFormula(l, k);
  }

  /** Within `|items|` consecutive calls no item is returned twice. */
  lemma {:induction false} NextEntryVisitsOnce(l: List, k1: nat, k2: nat)
    requires Valid(l) && 1 <= k1 < k2 <= |l.items|
    ensures Walk(l, k1).cursor != Walk(l, k2).cursor
  {
    WalkFormula(l, k1);
    WalkFormula(l, k2);
  }

  /**
   * An item linked by `insert_end` is the last new item returned by
   * `get_owner_of_next_entry` before the walk comes back round to the item
   * the cursor designated (after `|items|` calls when the cursor rested on
   * the end marker).
   */
  lemma {:induction false} InsertEndIsVisitedLast(l: List, it: Item)
    requires Valid(l)
    ensures var r := InsertEnd(l, it);
            var k := if l.cursor == |l.items| then |r.items| else |r.items| - 1;
            1 <= k && Walk(r, k).cursor == r.cursor - 1
            && forall j :: 1 <= j < k ==> Walk(r, j).cursor != r.cursor - 1
  {
    var r := InsertEnd(l, it);
    var k := if l.cursor == |l.items| then |r.items| else |r.items| - 1;
    WalkFormula(r, k);
    forall j | 1 <= j < k ensures Walk(r, j).cursor != r.cursor - 1 {
      NextEntryVisitsOnce(r, j, k);
    }
  }
}
