/**
 * The task records and kernel lists of the FreeRTOS-style kernel, and the
 * list primitives every scheduler operation is built from.
 *
 * Each task owns two list items, its state item and its event item.  A list
 * holds items of one kind only: the pending-ready list and the queues'
 * waiting lists hold event items, every other list holds state items.  A
 * task record remembers the container of each of its items, as the source's
 * `ListItem::container` does, so removal goes through the recorded container.
 */
module RtosKernel {
  import opened Wrappers
  import opened Ticks
  import opened PriorityList

  /** `configMAX_PRIORITIES`. */
  const MAX_PRIORITIES: nat := 10

  datatype ListId =
    | Ready(prio: nat)
    | DelayedA
    | DelayedB
    | PendingReady
    | SuspendedList
    | Termination
    | WaitingToSend(queue: nat)
    | WaitingToReceive(queue: nat)

  /** Lists that link event items rather than state items. */
  predicate HoldsEventItems(id: ListId)
  {
    id.PendingReady? || id.WaitingToSend? || id.WaitingToReceive?
  }

  datatype Tcb = Tcb(
    priority: nat,
    basePriority: nat,
    mutexesHeld: nat,
    stateValue: Tick,
    eventValue: Tick,
    stateIn: Option<ListId>,
    eventIn: Option<ListId>,
    delayAborted: bool)

  /** The container of the state item (`event == false`) or the event item. */
  function Container(t: Tcb, event: bool): Option<ListId>
  {
    if event then t.eventIn else t.stateIn
  }

  function ItemValue(t: Tcb, event: bool): Tick
  {
    if event then t.eventValue else t.stateValue
  }

  /** The item of `t` that a list of kind `id` would link. */
  function ItemFor(u: TaskId, t: Tcb, id: ListId): Item
  {
    Item(u, ItemValue(t, HoldsEventItems(id)))
  }

  function WithContainer(t: Tcb, event: bool, c: Option<ListId>): (r: Tcb)
    ensures Container(r, event) == c && Container(r, !event) == Container(t, !event)
    ensures ItemValue(r, true) == ItemValue(t, true) && ItemValue(r, false) == ItemValue(t, false)
    ensures r.priority == t.priority && r.basePriority == t.basePriority
    ensures r.(stateIn := t.stateIn, eventIn := t.eventIn) == t
  {
    if event then t.(eventIn := c) else t.(stateIn := c)
  }

  function WithValue(t: Tcb, event: bool, v: Tick): (r: Tcb)
    ensures ItemValue(r, event) == v && ItemValue(r, !event) == ItemValue(t, !event)
    ensures Container(r, true) == Container(t, true) && Container(r, false) == Container(t, false)
    ensures r.priority == t.priority && r.basePriority == t.basePriority
    ensures r.(stateValue := t.stateValue, eventValue := t.eventValue) == t
  {
    if event then t.(eventValue := v) else t.(stateValue := v)
  }

  /** The task records and every kernel list, keyed by task and list. */
  datatype Store = Store(tasks: map<TaskId, Tcb>, lists: map<ListId, List>)

  /** What the source does instead of returning: a `panic!` or failed `assert!`. */
  datatype Panic =
    | ContainerNotSet
    | OwnerNotSet
    | NoCurrentTask
    | NoReadyTask
    | ResumeWithoutSuspend
    | AssertionFailed
    | UnwrapFailed

  /** The lists that exist for the whole lifetime of the kernel. */
  ghost predicate HasSystemLists(st: Store)
  {
    (forall p: nat :: p < MAX_PRIORITIES ==> Ready(p) in st.lists)
    && DelayedA in st.lists && DelayedB in st.lists
    && PendingReady in st.lists && SuspendedList in st.lists && Termination in st.lists
  }

  /** A linked item's task records this list as its container and agrees on the value. */
  ghost predicate ItemOk(st: Store, id: ListId, it: Item)
  {
    it.owner in st.tasks
    && Container(st.tasks[it.owner], HoldsEventItems(id)) == Some(id)
    && it == ItemFor(it.owner, st.tasks[it.owner], id)
  }

  ghost predicate ListOk(st: Store, id: ListId)
    requires id in st.lists
  {
    var m := multiset(st.lists[id].items);
    Valid(st.lists[id])
    && forall it :: it in m ==> ItemOk(st, id, it) && m[it] == 1
  }

  /** A task's recorded container for one of its items exists, has the right kind and links the item. */
  ghost predicate SlotOk(st: Store, u: TaskId, t: Tcb, event: bool)
  {
    Container(t, event).Some? ==>
      var id := Container(t, event).value;
      id in st.lists && HoldsEventItems(id) == event
      && ItemFor(u, t, id) in multiset(st.lists[id].items)
  }

  ghost predicate TaskOk(st: Store, u: TaskId)
    requires u in st.tasks
  {
    var t := st.tasks[u];
    t.priority < MAX_PRIORITIES && t.basePriority < MAX_PRIORITIES
    && SlotOk(st, u, t, false) && SlotOk(st, u, t, true)
  }

  /**
   * Container bookkeeping agrees with list contents: every linked item sits
   * in exactly the list its task records, once, carrying the task's value.
   */
  ghost predicate Consistent(st: Store)
  {
    HasSystemLists(st)
    && (forall id :: id in st.lists ==> ListOk(st, id))
    && (forall u :: u in st.tasks ==> TaskOk(st, u))
  }

  /** A task is linked into `id` exactly when the list holds one of its items. */
  lemma LinkedIffContained(st: Store, u: TaskId, id: ListId)
    requires Consistent(st) && u in st.tasks && id in st.lists
    ensures Container(st.tasks[u], HoldsEventItems(id)) == Some(id) <==> Contains(st.lists[id], u)
  {
    var l := st.lists[id];
    var t := st.tasks[u];
    assert TaskOk(st, u);
    assert ListOk(st, id);
    if Container(t, HoldsEventItems(id)) == Some(id) {
      var it := ItemFor(u, t, id);
      assert it in l.items;
      var i :| 0 <= i < |l.items| && l.items[i] == it;
    }
    if Contains(l, u) {
      var i :| 0 <= i < |l.items| && l.items[i].owner == u;
      assert l.items[i] in multiset(l.items);
    }
  }

  /** Lists other than `id` and tasks other than `u` are the same in both stores. */
  predicate FramedExcept(a: Store, b: Store, u: TaskId, id: ListId)
  {
    a.tasks.Keys == b.tasks.Keys && a.lists.Keys == b.lists.Keys
    && (forall v :: v in a.tasks && v != u ==> b.tasks[v] == a.tasks[v])
    && (forall id2 :: id2 in a.lists && id2 != id ==> b.lists[id2] == a.lists[id2])
  }

  /**
   * `list_remove` on one of `u`'s items: panics when the item has no
   * container; otherwise unlinks it and returns the number of items left in
   * that container.
   */
  function Unlink(st: Store, u: TaskId, event: bool): (r: Result<(Store, nat), Panic>)
    requires u in st.tasks
    ensures Container(st.tasks[u], event).None? ==> r == Failure(ContainerNotSet)
    ensures Consistent(st) && Container(st.tasks[u], event).Some? ==> r.Success?
    ensures r.Success? ==>
              var (st', n) := r.value;
              var id := Container(st.tasks[u], event).value;
              var it := Item(u, ItemValue(st.tasks[u], event));
              Container(st.tasks[u], event).Some? && id in st.lists
              && FramedExcept(st, st', u, id)
              && st'.tasks[u] == WithContainer(st.tasks[u], event, None)
              && Valid(st'.lists[id])
              && multiset(st'.lists[id].items) == multiset(st.lists[id].items) - multiset{it}
              && |st.lists[id].items| > 0 && n == |st.lists[id].items| - 1 == |st'.lists[id].items|
              && (Sorted(st.lists[id].items) ==> Sorted(st'.lists[id].items))
              && (Sorted(st.lists[id].items) && n > 0 ==> st'.lists[id].items[0].value >= st.lists[id].items[0].value)
    ensures r.Success? && Consistent(st) ==>
              Consistent(r.value.0) && !Contains(r.value.0.lists[Container(st.tasks[u], event).value], u)
  {
    var c := Container(st.tasks[u], event);
    if c.None? || c.value !in st.lists || !Valid(st.lists[c.value]) then
      UnlinkFindsItem(st, u, event);
      Failure(ContainerNotSet)
    else
      var id := c.value;
      var l := st.lists[id];
      var it := Item(u, ItemValue(st.tasks[u], event));
      match IndexOf(l.items, u)
      case None =>
        UnlinkFindsItem(st, u, event);
        Failure(ContainerNotSet)
      case Some(i) =>
        if l.items[i] != it then
          UnlinkFindsItem(st, u, event);
          Failure(ContainerNotSet)
        else
          var l' := RemoveAt(l, i);
          var st' := Store(st.tasks[u := WithContainer(st.tasks[u], event, None)], st.lists[id := l']);
          UnlinkPreserves(st, u, event, st');
          Success((st', |l'.items|))
  }

  /** In a consistent store a task's recorded container holds its item exactly once. */
  lemma UnlinkFindsItem(st: Store, u: TaskId, event: bool)
    requires u in st.tasks
    ensures Consistent(st) && Container(st.tasks[u], event).Some? ==>
              var id := Container(st.tasks[u], event).value;
              id in st.lists && Valid(st.lists[id])
              && exists i :: 0 <= i < |st.lists[id].items| && st.lists[id].items[i] == Item(u, ItemValue(st.tasks[u], event))
                             && forall j :: 0 <= j < |st.lists[id].items| && st.lists[id].items[j].owner == u ==> j == i
  {
    if Consistent(st) && Container(st.tasks[u], event).Some? {
      var id := Container(st.tasks[u], event).value;
      var l := st.lists[id];
      var it := Item(u, ItemValue(st.tasks[u], event));
      assert TaskOk(st, u);
      assert ListOk(st, id);
      assert it in l.items;
      var i :| 0 <= i < |l.items| && l.items[i] == it;
      forall j | 0 <= j < |l.items| && l.items[j].owner == u ensures j == i {
        assert l.items[j] in multiset(l.items);
        assert ItemOk(st, id, l.items[j]);
        if j != i { MultisetCountTwo(l.items, i, j); }
      }
    }
  }

  lemma MultisetCountTwo<T>(s: seq<T>, i: nat, j: nat)
    requires i < |s| && j < |s| && i != j && s[i] == s[j]
    ensures multiset(s)[s[i]] >= 2
  {
    var lo := if i < j then i else j;
    var hi := if i < j then j else i;
    assert s == s[..lo] + [s[lo]] + s[lo + 1..hi] + [s[hi]] + s[hi + 1..];
  }

  /** A list that did not change and does not hold `u`'s changed item stays well formed. */
  lemma ListOkFrame(st: Store, st': Store, u: TaskId, event: bool, id2: ListId)
    requires u in st.tasks && id2 in st.lists && ListOk(st, id2)
    requires id2 in st'.lists && st'.lists[id2] == st.lists[id2]
    requires st.tasks.Keys == st'.tasks.Keys
    requires forall v :: v in st.tasks && v != u ==> st'.tasks[v] == st.tasks[v]
    requires Container(st'.tasks[u], !event) == Container(st.tasks[u], !event)
    requires ItemValue(st'.tasks[u], !event) == ItemValue(st.tasks[u], !event)
    requires Container(st.tasks[u], event) != Some(id2)
    ensures ListOk(st', id2)
  {
    forall it | it in multiset(st.lists[id2].items) ensures ItemOk(st', id2, it) {
      assert ItemOk(st, id2, it);
      if it.owner == u {
        assert HoldsEventItems(id2) == !event;
      }
    }
  }

  /** An unchanged task stays well formed when only list `id` changed and kept its item. */
  lemma TaskOkFrame(st: Store, st': Store, v: TaskId, id: ListId)
    requires v in st.tasks && TaskOk(st, v) && v in st'.tasks && st'.tasks[v] == st.tasks[v]
    requires st.lists.Keys == st'.lists.Keys
    requires forall id2 :: id2 in st.lists && id2 != id ==> st'.lists[id2] == st.lists[id2]
    requires id in st.lists && ItemFor(v, st.tasks[v], id) in multiset(st.lists[id].items) ==>
               ItemFor(v, st.tasks[v], id) in multiset(st'.lists[id].items)
    ensures TaskOk(st', v)
  {
    var t := st.tasks[v];
    assert SlotOk(st, v, t, false) && SlotOk(st, v, t, true);
  }

  /** The slot of `u` that an operation on its other item leaves alone stays well formed. */
  lemma OtherSlotKept(st: Store, st': Store, u: TaskId, event: bool)
    requires u in st.tasks && TaskOk(st, u) && u in st'.tasks
    requires Container(st'.tasks[u], !event) == Container(st.tasks[u], !event)
    requires ItemValue(st'.tasks[u], !event) == ItemValue(st.tasks[u], !event)
    requires st.lists.Keys == st'.lists.Keys
    requires forall id2 :: id2 in st.lists && HoldsEventItems(id2) == !event ==> st'.lists[id2] == st.lists[id2]
    ensures SlotOk(st', u, st'.tasks[u], !event)
  {
    assert SlotOk(st, u, st.tasks[u], !event);
  }

  /** The list an item left is still well formed and no longer holds any item of its task. */
  lemma UnlinkedListOk(st: Store, u: TaskId, event: bool, st': Store)
    requires Consistent(st) && u in st.tasks && Container(st.tasks[u], event).Some?
    requires var id := Container(st.tasks[u], event).value;
             id in st.lists && id in st'.lists
             && FramedExcept(st, st', u, id)
             && st'.tasks[u] == WithContainer(st.tasks[u], event, None)
             && Valid(st'.lists[id])
             && multiset(st'.lists[id].items) == multiset(st.lists[id].items) - multiset{Item(u, ItemValue(st.tasks[u], event))}
    ensures var id := Container(st.tasks[u], event).value;
            ListOk(st', id) && forall it :: it in multiset(st'.lists[id].items) ==> it.owner != u
  {
    var id := Container(st.tasks[u], event).value;
    var x := Item(u, ItemValue(st.tasks[u], event));
    var m' := multiset(st'.lists[id].items);
    assert TaskOk(st, u);
    assert SlotOk(st, u, st.tasks[u], event);
    assert ListOk(st, id);
    assert m'[x] == 0;
    forall it | it in m' ensures it.owner != u && ItemOk(st', id, it) && m'[it] == 1 {
      assert ItemOk(st, id, it);
    }
  }

  lemma NotContainedWithoutOwner(l: List, u: TaskId)
    requires forall it :: it in multiset(l.items) ==> it.owner != u
    ensures !Contains(l, u)
  {
  }

  lemma UnlinkPreserves(st: Store, u: TaskId, event: bool, st': Store)
    requires u in st.tasks && Container(st.tasks[u], event).Some?
    requires var id := Container(st.tasks[u], event).value;
             id in st.lists && id in st'.lists
             && FramedExcept(st, st', u, id)
             && st'.tasks[u] == WithContainer(st.tasks[u], event, None)
             && Valid(st'.lists[id])
             && multiset(st'.lists[id].items) == multiset(st.lists[id].items) - multiset{Item(u, ItemValue(st.tasks[u], event))}
    ensures Consistent(st) ==> Consistent(st') && !Contains(st'.lists[Container(st.tasks[u], event).value], u)
  {
    if Consistent(st) {
      var id := Container(st.tasks[u], event).value;
      var m' := multiset(st'.lists[id].items);
      UnlinkedListOk(st, u, event, st');
      NotContainedWithoutOwner(st'.lists[id], u);
      assert HasSystemLists(st');
      forall id2 | id2 in st'.lists ensures ListOk(st', id2) {
        if id2 != id {
          ListOkFrame(st, st', u, event, id2);
        }
      }
      forall v | v in st'.tasks ensures TaskOk(st', v) {
        if v != u {
          TaskOkFrame(st, st', v, id);
        } else {
          OtherSlotKept(st, st', u, event);
          assert SlotOk(st', u, st'.tasks[u], event);
        }
      }
    }
  }

  /** Linking an unlinked item into a list of its kind keeps the store consistent. */
  lemma LinkPreserves(st: Store, u: TaskId, event: bool, id: ListId, st': Store)
    requires u in st.tasks && id in st.lists && id in st'.lists
    requires HoldsEventItems(id) == event && Container(st.tasks[u], event).None?
    requires FramedExcept(st, st', u, id)
    requires st'.tasks[u] == WithContainer(st.tasks[u], event, Some(id))
    requires Valid(st'.lists[id])
    requires multiset(st'.lists[id].items) == multiset(st.lists[id].items) + multiset{Item(u, ItemValue(st.tasks[u], event))}
    ensures Consistent(st) ==> Consistent(st')
  {
    if Consistent(st) {
      LinkKeepsLists(st, u, event, id, st');
      LinkKeepsTasks(st, u, event, id, st');
    }
  }

  /** The lists half of `LinkPreserves`. */
  lemma LinkKeepsLists(st: Store, u: TaskId, event: bool, id: ListId, st': Store)
    requires u in st.tasks && id in st.lists && id in st'.lists
    requires HoldsEventItems(id) == event && Container(st.tasks[u], event).None?
    requires FramedExcept(st, st', u, id)
    requires st'.tasks[u] == WithContainer(st.tasks[u], event, Some(id))
    requires Valid(st'.lists[id])
    requires multiset(st'.lists[id].items) == multiset(st.lists[id].items) + multiset{Item(u, ItemValue(st.tasks[u], event))}
    requires Consistent(st)
    ensures forall id2 :: id2 in st'.lists ==> ListOk(st', id2)
  {
    var x := Item(u, ItemValue(st.tasks[u], event));
    var m := multiset(st.lists[id].items);
    var m' := multiset(st'.lists[id].items);
    assert ListOk(st, id);
    forall it | it in m ensures it.owner != u {
      assert ItemOk(st, id, it);
    }
    assert m[x] == 0;
    forall it | it in m' ensures ItemOk(st', id, it) && m'[it] == 1 {
      if it != x {
        assert ItemOk(st, id, it);
      }
    }
    assert ListOk(st', id);
    forall id2 | id2 in st'.lists ensures ListOk(st', id2) {
      if id2 != id {
        ListOkFrame(st, st', u, event, id2);
      }
    }
  }

  /** The tasks half of `LinkPreserves`. */
  lemma LinkKeepsTasks(st: Store, u: TaskId, event: bool, id: ListId, st': Store)
    requires u in st.tasks && id in st.lists && id in st'.lists
    requires HoldsEventItems(id) == event && Container(st.tasks[u], event).None?
    requires FramedExcept(st, st', u, id)
    requires st'.tasks[u] == WithContainer(st.tasks[u], event, Some(id))
    requires Valid(st'.lists[id])
    requires multiset(st'.lists[id].items) == multiset(st.lists[id].items) + multiset{Item(u, ItemValue(st.tasks[u], event))}
    requires Consistent(st)
    ensures forall v :: v in st'.tasks ==> TaskOk(st', v)
  {
    forall v | v in st'.tasks ensures TaskOk(st', v) {
      if v != u {
        TaskOkFrame(st, st', v, id);
      } else {
        assert TaskOk(st, u);
        OtherSlotKept(st, st', u, event);
        assert SlotOk(st', u, st'.tasks[u], event);
      }
    }
  }

  /** `list_insert`: links `u`'s unlinked item into list `id` in value order. */
  function LinkSorted(st: Store, u: TaskId, event: bool, id: ListId): (st': Store)
    requires u in st.tasks && id in st.lists && Valid(st.lists[id])
    requires HoldsEventItems(id) == event && Container(st.tasks[u], event).None?
    ensures FramedExcept(st, st', u, id)
    ensures st'.tasks[u] == WithContainer(st.tasks[u], event, Some(id))
    ensures st'.lists[id] == Insert(st.lists[id], Item(u, ItemValue(st.tasks[u], event)))
    ensures Consistent(st) ==> Consistent(st')
  {
    var it := Item(u, ItemValue(st.tasks[u], event));
    var st' := Store(st.tasks[u := WithContainer(st.tasks[u], event, Some(id))],
                     st.lists[id := Insert(st.lists[id], it)]);
    LinkPreserves(st, u, event, id, st');
    st'
  }

  /** `list_insert_end`: links `u`'s unlinked item immediately before the cursor of `id`. */
  function LinkEnd(st: Store, u: TaskId, event: bool, id: ListId): (st': Store)
    requires u in st.tasks && id in st.lists && Valid(st.lists[id])
    requires HoldsEventItems(id) == event && Container(st.tasks[u], event).None?
    ensures FramedExcept(st, st', u, id)
    ensures st'.tasks[u] == WithContainer(st.tasks[u], event, Some(id))
    ensures st'.lists[id] == InsertEnd(st.lists[id], Item(u, ItemValue(st.tasks[u], event)))
    ensures Consistent(st) ==> Consistent(st')
  {
    var it := Item(u, ItemValue(st.tasks[u], event));
    var st' := Store(st.tasks[u := WithContainer(st.tasks[u], event, Some(id))],
                     st.lists[id := InsertEnd(st.lists[id], it)]);
    LinkPreserves(st, u, event, id, st');
    st'
  }

  /**
   * `set_list_item_value`: changes the value of one of `u`'s items.  A linked
   * item keeps its place in its list; nothing is re-sorted.
   */
  function SetItemValue(st: Store, u: TaskId, event: bool, v: Tick): (st': Store)
    requires u in st.tasks
    ensures st'.tasks.Keys == st.tasks.Keys && st'.lists.Keys == st.lists.Keys
    ensures st'.tasks[u] == WithValue(st.tasks[u], event, v)
    ensures forall w :: w in st.tasks && w != u ==> st'.tasks[w] == st.tasks[w]
    ensures forall id :: id in st.lists && Container(st.tasks[u], event) != Some(id) ==> st'.lists[id] == st.lists[id]
    ensures Consistent(st) && Container(st.tasks[u], event).Some? ==>
              var id := Container(st.tasks[u], event).value;
              id in st.lists && |st'.lists[id].items| == |st.lists[id].items|
              && st'.lists[id].cursor == st.lists[id].cursor
              && forall i :: 0 <= i < |st.lists[id].items| ==>
                   st'.lists[id].items[i] == (if st.lists[id].items[i].owner == u then Item(u, v) else st.lists[id].items[i])
    ensures Consistent(st) ==> Consistent(st')
  {
    var t' := WithValue(st.tasks[u], event, v);
    var c := Container(st.tasks[u], event);
    var st1 := Store(st.tasks[u := t'], st.lists);
    UnlinkFindsItem(st, u, event);
    if c.None? || c.value !in st.lists then
      SetValueUnlinkedPreserves(st, u, event, v, st1);
      st1
    else
      var id := c.value;
      var l := st.lists[id];
      match IndexOf(l.items, u)
      case None =>
        st1
      case Some(i) =>
        var st' := Store(st.tasks[u := t'], st.lists[id := List(l.items[i := Item(u, v)], l.cursor)]);
        SetValueLinkedPreserves(st, u, event, v, i, st');
        st'
  }

  lemma SetValueUnlinkedPreserves(st: Store, u: TaskId, event: bool, v: Tick, st': Store)
    requires u in st.tasks
    requires Container(st.tasks[u], event).None? || Container(st.tasks[u], event).value !in st.lists
    requires st' == Store(st.tasks[u := WithValue(st.tasks[u], event, v)], st.lists)
    ensures Consistent(st) ==> Consistent(st')
  {
    if Consistent(st) {
      assert TaskOk(st, u);
      assert SlotOk(st, u, st.tasks[u], event);
      forall id | id in st'.lists ensures ListOk(st', id) {
        ListOkFrame(st, st', u, event, id);
      }
      forall w | w in st'.tasks ensures TaskOk(st', w) {
        if w != u {
          TaskOkFrame(st, st', w, DelayedA);
        } else {
          OtherSlotKept(st, st', u, event);
        }
      }
    }
  }

  /** The list whose item changed value in place is still well formed. */
  lemma RelabelledListOk(st: Store, u: TaskId, event: bool, v: Tick, i: nat, st': Store)
    requires Consistent(st) && u in st.tasks && Container(st.tasks[u], event).Some?
    requires var id := Container(st.tasks[u], event).value;
             id in st.lists && id in st'.lists && i < |st.lists[id].items| && st.lists[id].items[i].owner == u
             && FramedExcept(st, st', u, id)
             && st'.tasks[u] == WithValue(st.tasks[u], event, v)
             && st'.lists[id] == List(st.lists[id].items[i := Item(u, v)], st.lists[id].cursor)
    ensures ListOk(st', Container(st.tasks[u], event).value)
  {
    var id := Container(st.tasks[u], event).value;
    var l := st.lists[id];
    var x := l.items[i];
    var x' := Item(u, v);
    var m := multiset(l.items);
    var m' := multiset(st'.lists[id].items);
    assert TaskOk(st, u);
    assert SlotOk(st, u, st.tasks[u], event);
    assert ListOk(st, id);
    assert x in m;
    assert ItemOk(st, id, x);
    assert m' == m - multiset{x} + multiset{x'};
    forall it | it in m && it != x ensures it.owner != u {
      assert ItemOk(st, id, it);
    }
    forall it | it in m' ensures ItemOk(st', id, it) && m'[it] == 1 {
      if it != x' {
        assert ItemOk(st, id, it);
      }
    }
  }

  lemma SetValueLinkedPreserves(st: Store, u: TaskId, event: bool, v: Tick, i: nat, st': Store)
    requires u in st.tasks && Container(st.tasks[u], event).Some?
    requires var id := Container(st.tasks[u], event).value;
             id in st.lists && id in st'.lists && i < |st.lists[id].items| && st.lists[id].items[i].owner == u
             && FramedExcept(st, st', u, id)
             && st'.tasks[u] == WithValue(st.tasks[u], event, v)
             && st'.lists[id] == List(st.lists[id].items[i := Item(u, v)], st.lists[id].cursor)
    ensures Consistent(st) ==> Consistent(st')
  {
    if Consistent(st) {
      var id := Container(st.tasks[u], event).value;
      RelabelledListOk(st, u, event, v, i, st');
      forall id2 | id2 in st'.lists ensures ListOk(st', id2) {
        if id2 != id {
          ListOkFrame(st, st', u, event, id2);
        }
      }
      SetValueLinkedKeepsTasks(st, u, event, v, i, st');
    }
  }

  /** The tasks half of `SetValueLinkedPreserves`. */
  lemma SetValueLinkedKeepsTasks(st: Store, u: TaskId, event: bool, v: Tick, i: nat, st': Store)
    requires u in st.tasks && Container(st.tasks[u], event).Some?
    requires var id := Container(st.tasks[u], event).value;
             id in st.lists && id in st'.lists && i < |st.lists[id].items| && st.lists[id].items[i].owner == u
             && FramedExcept(st, st', u, id)
             && st'.tasks[u] == WithValue(st.tasks[u], event, v)
             && st'.lists[id] == List(st.lists[id].items[i := Item(u, v)], st.lists[id].cursor)
    requires Consistent(st)
    ensures forall w :: w in st'.tasks ==> TaskOk(st', w)
  {
    var id := Container(st.tasks[u], event).value;
    assert TaskOk(st, u);
    assert SlotOk(st, u, st.tasks[u], event);
    forall w | w in st'.tasks ensures TaskOk(st', w) {
      if w != u {
        TaskOkFrame(st, st', w, id);
      } else {
        OtherSlotKept(st, st', u, event);
        assert st'.lists[id].items[i] == Item(u, v);
        assert SlotOk(st', u, st'.tasks[u], event);
      }
    }
  }

  /**
   * Replaces the record of task `u` by one that links its items in the same
   * lists with the same values: a change of priority, mutex count or
   * delay-aborted flag.
   */
  function SetTask(st: Store, u: TaskId, t': Tcb): (st': Store)
    requires u in st.tasks
    requires t'.stateIn == st.tasks[u].stateIn && t'.eventIn == st.tasks[u].eventIn
    requires t'.stateValue == st.tasks[u].stateValue && t'.eventValue == st.tasks[u].eventValue
    ensures st'.lists == st.lists && st'.tasks.Keys == st.tasks.Keys
    ensures st'.tasks[u] == t' && forall w :: w in st.tasks && w != u ==> st'.tasks[w] == st.tasks[w]
    ensures Consistent(st) && t'.priority < MAX_PRIORITIES && t'.basePriority < MAX_PRIORITIES ==> Consistent(st')
  {
    var st' := Store(st.tasks[u := t'], st.lists);
    RetagPreserves(st, st');
    st'
  }

  /** Every task's priorities lie below `configMAX_PRIORITIES`. */
  ghost predicate InRange(st: Store)
  {
    forall w :: w in st.tasks ==> st.tasks[w].priority < MAX_PRIORITIES && st.tasks[w].basePriority < MAX_PRIORITIES
  }

  /**
   * Tasks may change, appear or disappear, as long as every record that
   * stays links its items as before and every record that comes or goes
   * links nothing.
   */
  lemma RetagPreserves(st: Store, st': Store)
    requires st'.lists == st.lists
    requires forall w :: w in st'.tasks && w in st.tasks ==>
               st'.tasks[w].stateIn == st.tasks[w].stateIn && st'.tasks[w].eventIn == st.tasks[w].eventIn
               && st'.tasks[w].stateValue == st.tasks[w].stateValue && st'.tasks[w].eventValue == st.tasks[w].eventValue
    requires forall w :: w in st'.tasks && w !in st.tasks ==> Unlinked(st'.tasks[w])
    requires forall w :: w in st.tasks && w !in st'.tasks ==> Unlinked(st.tasks[w])
    ensures Consistent(st) && (forall w :: w in st'.tasks && (w !in st.tasks || st'.tasks[w] != st.tasks[w]) ==>
              st'.tasks[w].priority < MAX_PRIORITIES && st'.tasks[w].basePriority < MAX_PRIORITIES)
            ==> Consistent(st')
  {
    if Consistent(st) && (forall w :: w in st'.tasks && (w !in st.tasks || st'.tasks[w] != st.tasks[w]) ==>
         st'.tasks[w].priority < MAX_PRIORITIES && st'.tasks[w].basePriority < MAX_PRIORITIES) {
      forall id | id in st'.lists ensures ListOk(st', id) {
        assert ListOk(st, id);
        forall it | it in multiset(st.lists[id].items) ensures ItemOk(st', id, it) {
          assert ItemOk(st, id, it);
        }
      }
      forall w | w in st'.tasks ensures TaskOk(st', w) {
        if w in st.tasks {
          assert TaskOk(st, w);
          assert SlotOk(st, w, st.tasks[w], false) && SlotOk(st, w, st.tasks[w], true);
        }
      }
    }
  }

  /** A task record with neither item linked. */
  predicate Unlinked(t: Tcb)
  {
    t.stateIn.None? && t.eventIn.None?
  }

  /** Registers a new task whose items are not linked anywhere yet. */
  function AddTask(st: Store, u: TaskId, t: Tcb): (st': Store)
    requires u !in st.tasks && Unlinked(t)
    ensures st'.lists == st.lists && st'.tasks.Keys == st.tasks.Keys + {u}
    ensures st'.tasks[u] == t && forall w :: w in st.tasks ==> st'.tasks[w] == st.tasks[w]
    ensures Consistent(st) && t.priority < MAX_PRIORITIES && t.basePriority < MAX_PRIORITIES ==> Consistent(st')
  {
    var st' := Store(st.tasks[u := t], st.lists);
    RetagPreserves(st, st');
    st'
  }

  /** Forgets a task whose items are linked nowhere. */
  function DropTask(st: Store, u: TaskId): (st': Store)
    requires u in st.tasks && Unlinked(st.tasks[u])
    ensures st'.lists == st.lists && st'.tasks.Keys == st.tasks.Keys - {u}
    ensures forall w :: w in st'.tasks ==> st'.tasks[w] == st.tasks[w]
    ensures Consistent(st) ==> Consistent(st')
  {
    var st' := Store(st.tasks - {u}, st.lists);
    RetagPreserves(st, st');
    st'
  }
}
