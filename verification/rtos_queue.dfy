/**
 * The blocking queue engine of `all.rs` (`QueueDefinition`): creation and
 * reset, the lock counters that defer the wake-ups an interrupt owes while
 * a task works on the queue, sending and receiving with their time-outs,
 * and the semaphores and mutexes built on top.
 *
 * A queue's two waiting lists live in the kernel store as
 * `WaitingToSend(id)` and `WaitingToReceive(id)`.  For the mutex kinds the
 * source keeps the holder in the storage deque and reuses the read index
 * as the recursion count; here they are the fields `holder` and
 * `recursion`.
 */
module Queues {
  import opened Wrappers
  import opened Ticks
  import opened PriorityList
  import opened RtosKernel
  import opened Scheduler
  import opened TaskLifecycle
  import opened TickInterrupt
  import opened EventLists
  import opened MutexInheritance
  import opened QueueRing

  /** `QueueType`: what the queue is used as. */
  datatype QueueKind = BaseQueue | QueueSet | Mutex | CountingSemaphore | BinarySemaphore | RecursiveMutex

  predicate IsMutex(kind: QueueKind)
  {
    kind == Mutex || kind == RecursiveMutex
  }

  /** `queueUNLOCKED`: nobody is working on the queue. */
  const UNLOCKED: int := -1

  /** `queueLOCKED_UNMODIFIED`: locked, and no interrupt has touched the queue since. */
  const LOCKED_UNMODIFIED: int := 0

  /** The range of the `i8` lock counters. */
  predicate IsI8(x: int)
  {
    -128 <= x < 128
  }

  /** `(c + 1) as i8`, wrapping as a release build does. */
  function CountUp(c: int): (r: int)
    requires IsI8(c)
    ensures IsI8(r) && (c < 127 ==> r == c + 1)
  {
    if c == 127 then -128 else c + 1
  }

  datatype Queue<T> = Queue(
    id: nat,
    kind: QueueKind,
    ring: Ring<T>,
    rxLock: int,
    txLock: int,
    holder: Option<TaskId>,
    recursion: nat)

  /** The semaphores of `Semaphore`: queues of `Option<TaskHandle>` whose messages are all `None`. */
  type Semaphore = Queue<Option<TaskId>>

  function SendList<T>(q: Queue<T>): ListId
  {
    WaitingToSend(q.id)
  }

  function ReceiveList<T>(q: Queue<T>): ListId
  {
    WaitingToReceive(q.id)
  }

  /**
   * A queue the kernel can work with: well-formed storage, counters within
   * `i8`, both waiting lists present, and a recorded holder that is a task.
   */
  ghost predicate QueueOk<T>(k: Kernel, q: Queue<T>)
  {
    RingOk(q.ring) && IsI8(q.rxLock) && IsI8(q.txLock)
    && SendList(q) in k.store.lists && ReceiveList(q) in k.store.lists
    && (q.holder.Some? ==> q.holder.value in k.store.tasks)
  }

  /** Every task-level operation leaves both counters unlocked before it returns. */
  predicate Unlocked<T>(q: Queue<T>)
  {
    q.rxLock == UNLOCKED && q.txLock == UNLOCKED
  }

  function Waiters(k: Kernel, id: ListId): nat
    requires id in k.store.lists
  {
    |k.store.lists[id].items|
  }

  /** The most urgent waiter of `id` has a higher priority than the running task. */
  ghost predicate Outranks(k: Kernel, id: ListId)
    requires id in k.store.lists
  {
    |k.store.lists[id].items| > 0 && k.current.Some?
    && k.store.lists[id].items[0].owner in k.store.tasks && k.current.value in k.store.tasks
    && k.store.tasks[k.store.lists[id].items[0].owner].priority > k.store.tasks[k.current.value].priority
  }

  /**
   * The scheduler invariant under the name the queue operations use: each
   * queue contract carries it as a single fact rather than as the list of
   * its conjuncts.
   */
  ghost predicate Sound(k: Kernel)
  {
    KernelOk(k)
  }

  /**
   * What waking a queue waiter keeps, whatever becomes of the pending
   * yield: the invariant, the running task, the suspension depth, the sets
   * of tasks and lists, and every queue waiting list other than `id`.
   */
  ghost predicate Untouched(k: Kernel, k': Kernel, id: ListId)
  {
    Sound(k') && k'.current == k.current && k'.suspended == k.suspended
    && k'.store.lists.Keys == k.store.lists.Keys && k'.store.tasks.Keys == k.store.tasks.Keys
    && (forall id2 :: id2 in k.store.lists && IsEventList(id2) && id2 != id ==> k'.store.lists[id2] == k.store.lists[id2])
  }

  /** What waking a queue waiter on a task's own path keeps: the above, and a yield that was already pending. */
  ghost predicate Kept(k: Kernel, k': Kernel, id: ListId)
  {
    Untouched(k, k', id) && (k.yieldPending ==> k'.yieldPending)
  }

  lemma KeptTransitive(k: Kernel, k1: Kernel, k2: Kernel, id: ListId)
    requires Kept(k, k1, id) && Kept(k1, k2, id)
    ensures Kept(k, k2, id)
  {
  }

  lemma UntouchedTransitive(k: Kernel, k1: Kernel, k2: Kernel, id: ListId)
    requires Untouched(k, k1, id) && Untouched(k1, k2, id)
    ensures Untouched(k, k2, id)
  {
  }

  /** Whether the waiter outranks the running task depends only on the list, the running task and priorities. */
  lemma OutranksKept(k: Kernel, k': Kernel, id: ListId)
    requires id in k.store.lists && id in k'.store.lists && k'.store.lists[id] == k.store.lists[id]
    requires k'.current == k.current && k'.store.tasks.Keys == k.store.tasks.Keys
    requires forall w :: w in k.store.tasks ==> k'.store.tasks[w].priority == k.store.tasks[w].priority
    ensures Outranks(k', id) == Outranks(k, id)
  {
  }

  // ---------------------------------------------------------------------
  // Creation and locking.

  /** An empty list under a new name disturbs no list or task the consistency invariant checks. */
  lemma AddEmptyListConsistent(st: Store, lid: ListId, st': Store)
    requires Consistent(st) && lid !in st.lists && st' == Store(st.tasks, st.lists[lid := Empty()])
    ensures Consistent(st')
  {
    forall id | id in st'.lists
      ensures ListOk(st', id)
    {
      if id != lid {
        assert ListOk(st, id);
      }
    }
    forall u | u in st'.tasks
      ensures TaskOk(st', u)
    {
      assert TaskOk(st, u);
    }
  }

  /** A new, empty queue waiting list keeps the scheduler invariant. */
  lemma AddEmptyListKeepsKernelOk(k: Kernel, lid: ListId, k': Kernel)
    requires Sound(k) && lid !in k.store.lists && IsEventList(lid)
    requires k' == k.(store := Store(k.store.tasks, k.store.lists[lid := Empty()]))
    ensures Sound(k')
  {
    assert KernelOk(k);
    AddEmptyListConsistent(k.store, lid, k'.store);
    assert k'.store.lists[k.delayed] == k.store.lists[k.delayed];
    assert k'.store.lists[k.overflow] == k.store.lists[k.overflow];
    assert forall p: nat :: p < MAX_PRIORITIES ==> ReadyLen(k'.store, p) == ReadyLen(k.store, p);
    assert KernelOk(k');
  }

  /**
   * `queue_generic_create` for the queue numbered `id`: `length` slots, no
   * message, both counters unlocked, no holder, and the two empty waiting
   * lists of `queue_generic_reset(true)`.  Nothing else changes.
   */
  function NewQueue<T>(k: Kernel, id: nat, length: nat, kind: QueueKind, fill: T): (r: (Kernel, Queue<T>))
    requires Sound(k) && length > 0
    requires WaitingToSend(id) !in k.store.lists && WaitingToReceive(id) !in k.store.lists
    ensures Sound(r.0) && QueueOk(r.0, r.1) && Unlocked(r.1)
    ensures r.1.id == id && r.1.kind == kind && |r.1.ring.slots| == length && Contents(r.1.ring) == []
    ensures r.1.holder.None? && r.1.recursion == 0
    ensures Waiters(r.0, SendList(r.1)) == 0 && Waiters(r.0, ReceiveList(r.1)) == 0
    ensures r.0 == k.(store := r.0.store) && r.0.store.tasks == k.store.tasks
    ensures forall lid :: lid in k.store.lists ==> lid in r.0.store.lists && r.0.store.lists[lid] == k.store.lists[lid]
  {
    var k1 := k.(store := Store(k.store.tasks, k.store.lists[WaitingToSend(id) := Empty()]));
    AddEmptyListKeepsKernelOk(k, WaitingToSend(id), k1);
    var k' := k1.(store := Store(k.store.tasks, k1.store.lists[WaitingToReceive(id) := Empty()]));
    AddEmptyListKeepsKernelOk(k1, WaitingToReceive(id), k');
    (k', Queue(id, kind, QueueRing.Create(length, fill), UNLOCKED, UNLOCKED, None, 0))
  }

  /**
   * `lock_queue`: an unlocked counter starts counting at zero; a counter
   * that already counts keeps its count.
   */
  function Lock<T>(q: Queue<T>): (q': Queue<T>)
    ensures q'.rxLock != UNLOCKED && q'.txLock != UNLOCKED
    ensures q.rxLock != UNLOCKED ==> q'.rxLock == q.rxLock
    ensures q.txLock != UNLOCKED ==> q'.txLock == q.txLock
    ensures Unlocked(q) ==> q'.rxLock == LOCKED_UNMODIFIED && q'.txLock == LOCKED_UNMODIFIED
    ensures q' == q.(rxLock := q'.rxLock, txLock := q'.txLock)
  {
    q.(rxLock := if q.rxLock == UNLOCKED then LOCKED_UNMODIFIED else q.rxLock,
       txLock := if q.txLock == UNLOCKED then LOCKED_UNMODIFIED else q.txLock)
  }

  /** Locking a locked queue changes nothing. */
  lemma LockIdempotent<T>(q: Queue<T>)
    ensures Lock(Lock(q)) == Lock(q)
  {
  }

  // ---------------------------------------------------------------------
  // Waking waiters.

  /**
   * `task_remove_from_event_list` on a non-empty waiting list of a queue:
   * one waiter leaves it, nothing else a queue relies on changes, and the
   * flag says whether the waiter outranks the running task, in which case a
   * yield is left pending.
   */
  method WakeWaiter(k: Kernel, id: ListId) returns (r: Result<(Kernel, bool), Panic>)
    requires Sound(k) && IsEventList(id) && id in k.store.lists && Waiters(k, id) > 0
    ensures r.Success? ==>
              Kept(k, r.value.0, id) && Waiters(r.value.0, id) == Waiters(k, id) - 1
              && r.value.1 == Outranks(k, id) && r.value.0.yieldPending == (k.yieldPending || r.value.1)
  {
    r := RemoveFromEventList(k, id);
    if r.Success? {
      RemoveFromEventListFrame(k, id);
      HeadIsLinked(k.store, id);
      assert Sound(r.value.0);
    }
  }

  /**
   * One wake-up `unlock_queue` replays, as written: the most urgent waiter
   * of `id` is woken and, when it outranks the running task,
   * `task_missed_yield` is called, which CLEARS the pending-yield flag.
   */
  function ReplayWakeAsWritten(k: Kernel, id: ListId): (r: Result<Kernel, Panic>)
    requires Sound(k) && IsEventList(id) && id in k.store.lists && Waiters(k, id) > 0
    ensures r.Success? ==> Untouched(k, r.value, id) && Waiters(r.value, id) == Waiters(k, id) - 1
    ensures r.Success? ==> r.value.yieldPending == (k.yieldPending && !Outranks(k, id))
  {
    match RemoveFromEventList(k, id)
    case Failure(e) => Failure(e)
    case Success((k1, higher)) =>
      RemoveFromEventListFrame(k, id);
      HeadIsLinked(k.store, id);
      var k2 := if higher then k1.(yieldPending := false) else k1;
      KernelOkFields(k1, k2);
      assert Sound(k2);
      Success(k2)
  }

  /**
   * The same replayed wake-up with `task_missed_yield` SETTING the flag, as
   * `vTaskMissedYield` of FreeRTOS does: the yield the waiter deserves is
   * remembered until the scheduler can act on it.
   */
  function ReplayWake(k: Kernel, id: ListId): (r: Result<Kernel, Panic>)
    requires Sound(k) && IsEventList(id) && id in k.store.lists && Waiters(k, id) > 0
    ensures r.Success? ==> Kept(k, r.value, id) && Waiters(r.value, id) == Waiters(k, id) - 1
    ensures r.Success? ==> r.value.yieldPending == (k.yieldPending || Outranks(k, id))
  {
    match RemoveFromEventList(k, id)
    case Failure(e) => Failure(e)
    case Success((k1, higher)) =>
      RemoveFromEventListFrame(k, id);
      HeadIsLinked(k.store, id);
      var k2 := if higher then k1.(yieldPending := true) else k1;
      KernelOkFields(k1, k2);
      assert Sound(k2);
      Success(k2)
  }

  /**
   * Finding: as written, a replayed wake-up of a task that outranks the
   * running one leaves no yield pending, so the switch to it is lost until
   * the next tick; with the flag set it stays pending.
   */
  lemma ReplayAsWrittenDropsYield(k: Kernel, id: ListId)
    requires Sound(k) && IsEventList(id) && id in k.store.lists && Waiters(k, id) > 0
    requires RemoveFromEventList(k, id).Success? && Outranks(k, id)
    ensures ReplayWakeAsWritten(k, id).Success? && !ReplayWakeAsWritten(k, id).value.yieldPending
    ensures ReplayWake(k, id).Success? && ReplayWake(k, id).value.yieldPending
  {
  }

  /** `x` when positive, else 0. */
  function Positive(x: int): nat
  {
    if x > 0 then x else 0
  }

  function Min(a: nat, b: nat): nat
  {
    if a < b then a else b
  }

  /**
   * How many receivers `unlock_queue` wakes when `n` wait, counted the way
   * its loops count: one per unit of the send counter while any receiver
   * is left, then one per unit of the receive counter.
   */
  function ReplayLoops(tx: nat, rx: nat, n: nat): nat
    decreases n
  {
    if n == 0 || tx + rx == 0 then 0
    else if tx > 0 then 1 + ReplayLoops(tx - 1, rx, n - 1)
    else 1 + ReplayLoops(tx, rx - 1, n - 1)
  }

  /** The replay wakes as many receivers as both counters together ask for, or all of them. */
  function Replayed(tx: nat, rx: nat, n: nat): nat
  {
    Min(tx + rx, n)
  }

  /** The two counts agree: the loops stop exactly when the counters or the waiters run out. */
  lemma {:induction false} ReplayLoopsCount(tx: nat, rx: nat, n: nat)
    ensures ReplayLoops(tx, rx, n) == Replayed(tx, rx, n)
    decreases n
  {
    if n > 0 && tx + rx > 0 {
      if tx > 0 {
        ReplayLoopsCount(tx - 1, rx, n - 1);
      } else {
        ReplayLoopsCount(tx, rx - 1, n - 1);
      }
    }
  }

  /**
   * The count of waiters left after one wake-up and the replay of the rest
   * of the counters: the first wake-up spends a unit of the send counter
   * while one is left, else a unit of the receive counter.
   */
  lemma ReplayedCount(tx: nat, rx: nat, n: nat, w1: nat, w2: nat)
    requires n > 0 && tx + rx > 0 && w1 + 1 == n
    requires tx > 0 ==> w2 + Replayed(tx - 1, rx, w1) == w1
    requires tx == 0 ==> w2 + Replayed(tx, rx - 1, w1) == w1
    ensures w2 + Replayed(tx, rx, n) == n
  {
  }

  /** `ReplayWakeAsWritten` behind a method boundary, so that loops see only its contract. */
  method ReplayOne(k: Kernel, id: ListId) returns (r: Result<Kernel, Panic>)
    requires Sound(k) && IsEventList(id) && id in k.store.lists && Waiters(k, id) > 0
    ensures r.Success? ==> Untouched(k, r.value, id) && Waiters(r.value, id) == Waiters(k, id) - 1
    ensures r.Success? ==> r.value.yieldPending == (k.yieldPending && !Outranks(k, id))
  {
    r := ReplayWakeAsWritten(k, id);
  }

  /**
   * The replay loops of `unlock_queue`: while the send counter is positive
   * and a waiter is left on `id`, wake one and count down; then the same
   * for the receive counter.
   */
  method ReplayWakes(k: Kernel, id: ListId, tx: nat, rx: nat) returns (r: Result<Kernel, Panic>)
    requires Sound(k) && IsEventList(id) && id in k.store.lists
    ensures r.Success? ==> Untouched(k, r.value, id) && (r.value.yieldPending ==> k.yieldPending)
    ensures r.Success? ==> id in r.value.store.lists && Waiters(r.value, id) + Replayed(tx, rx, Waiters(k, id)) == Waiters(k, id)
    ensures (tx == 0 && rx == 0) || Waiters(k, id) == 0 ==> r == Success(k)
    decreases tx, rx
  {
    var n := Waiters(k, id);
    if n == 0 || tx + rx == 0 {
      return Success(k);
    }
    var s := ReplayOne(k, id);
    if s.Failure? {
      return Failure(s.error);
    }
    var k1 := s.value;
    var tx', rx' := if tx > 0 then tx - 1 else tx, if tx > 0 then rx else rx - 1;
    r := ReplayWakes(k1, id, tx', rx');
    if r.Success? {
      ReplayedCount(tx, rx, n, Waiters(k1, id), Waiters(r.value, id));
      UntouchedTransitive(k, k1, r.value, id);
    }
  }

  /** The frame `unlock_queue` promises, from the frame of its replay loops. */
  lemma UnlockFrame<T>(k: Kernel, u: Kernel, q: Queue<T>)
    requires QueueOk(k, q) && Untouched(k, u, ReceiveList(q))
    ensures QueueOk(u, q.(rxLock := UNLOCKED, txLock := UNLOCKED))
  {
  }

  /**
   * `unlock_queue`: replays the wake-ups that interrupts deferred while the
   * queue was locked -- one receiver per counted send, stopping as soon as
   * no receiver is left -- then does the same for the receive counter, and
   * unlocks both counters.  The receive counter's replay wakes receivers
   * too, as written (FreeRTOS wakes senders there); nothing in this source
   * ever raises that counter.  Each replayed wake-up of a waiter that
   * outranks the running task calls `task_missed_yield`, which as written
   * clears the pending yield, so the replay never leaves one pending.
   */
  method Unlock<T>(k: Kernel, q: Queue<T>) returns (r: Result<(Kernel, Queue<T>), Panic>)
    requires Sound(k) && QueueOk(k, q)
    ensures r.Success? ==>
              var (k', q') := r.value;
              Untouched(k, k', ReceiveList(q)) && (k'.yieldPending ==> k.yieldPending)
              && QueueOk(k', q') && q' == q.(rxLock := UNLOCKED, txLock := UNLOCKED)
              && Waiters(k', ReceiveList(q)) == Waiters(k, ReceiveList(q)) - Replayed(Positive(q.txLock), Positive(q.rxLock), Waiters(k, ReceiveList(q)))
    ensures (q.txLock <= LOCKED_UNMODIFIED && q.rxLock <= LOCKED_UNMODIFIED) || Waiters(k, ReceiveList(q)) == 0 ==>
              r == Success((k, q.(rxLock := UNLOCKED, txLock := UNLOCKED)))
  {
    var u := ReplayWakes(k, ReceiveList(q), Positive(q.txLock), Positive(q.rxLock));
    if u.Failure? {
      return Failure(u.error);
    }
    UnlockFrame(k, u.value, q);
    r := Success((u.value, q.(rxLock := UNLOCKED, txLock := UNLOCKED)));
  }

  /** Locking an unlocked queue and unlocking it again, with no interrupt in between, changes nothing. */
  method LockThenUnlockRestores<T>(k: Kernel, q: Queue<T>) returns (r: Result<(Kernel, Queue<T>), Panic>)
    requires Sound(k) && QueueOk(k, q) && Unlocked(q)
    ensures r == Success((k, q))
  {
    r := Unlock(k, Lock(q));
  }

  // ---------------------------------------------------------------------
  // Storing messages.

  /** There is room for a message at `pos`: a free slot, or an overwrite. */
  predicate HasRoom<T>(q: Queue<T>, pos: Position)
  {
    q.ring.waiting < |q.ring.slots| || pos == Overwrite
  }

  /** The storage after a send at `pos` holds `x` where that position puts it. */
  ghost predicate Stored<T>(r: Ring<T>, r': Ring<T>, x: T, pos: Position)
    requires RingOk(r) && RingOk(r')
  {
    |r'.slots| == |r.slots|
    && match pos
       case SendToBack => Contents(r') == Contents(r) + [x]
       case SendToFront => Contents(r') == [x] + Contents(r)
       case Overwrite => Contents(r') == [x]
  }

  /**
   * The entry assertion of `queue_generic_send` as written: it refuses an
   * overwrite of a queue of length 1 -- the one case overwriting is meant
   * for -- and lets an overwrite of any longer queue through.
   */
  function OverwriteAdmittedAsWritten(pos: Position, length: nat): (ok: bool)
    ensures ok <==> !(pos == Overwrite && length == 1)
  {
    !(pos == Overwrite && length == 1)
  }

  /** The entry assertion of `xQueueGenericSend`: overwriting needs a queue of length 1. */
  function OverwriteAdmitted(pos: Position, length: nat): (ok: bool)
    ensures ok <==> (pos == Overwrite ==> length == 1)
  {
    pos != Overwrite || length == 1
  }

  /**
   * Finding: the assertion as written refuses the overwrite it should
   * allow, and admits an overwrite of a longer queue, which leaves the
   * storage inconsistent; the intended assertion does the opposite in both
   * cases.
   */
  lemma OverwriteAssertInverted<T>(r: Ring<T>, x: T)
    requires RingOk(r) && |r.slots| == 2 && r.waiting > 0
    ensures !OverwriteAdmittedAsWritten(Overwrite, 1) && OverwriteAdmitted(Overwrite, 1)
    ensures OverwriteAdmittedAsWritten(Overwrite, |r.slots|) && !RingOk(CopyIn(r, x, Overwrite))
    ensures !OverwriteAdmitted(Overwrite, |r.slots|)
  {
    OverwriteBreaksLongerRing(r, x);
  }

  /** `copy_data_to_queue` on the storage, for a send the entry assertion admits. */
  function Put<T>(r: Ring<T>, x: T, pos: Position): (r': Ring<T>)
    requires RingOk(r) && (r.waiting < |r.slots| || pos == Overwrite) && OverwriteAdmitted(pos, |r.slots|)
    ensures RingOk(r') && Stored(r, r', x, pos)
  {
    CopyIn(r, x, pos)
  }

  /**
   * The ownership half of `copy_data_to_queue`: taking a mutex makes the
   * running task its holder and counts one more mutex held by it; for any
   * other kind nothing changes.  (The source keeps the holder in the
   * queue's storage for a mutex; here it has its own field.)
   */
  function Claim<T>(k: Kernel, q: Queue<T>): (r: (Kernel, Queue<T>))
    requires Sound(k) && QueueOk(k, q)
    ensures Sound(r.0) && QueueOk(r.0, r.1) && r.1 == q.(holder := r.1.holder)
    ensures r.0 == k.(store := r.0.store) && r.0.store.lists == k.store.lists && r.0.store.tasks.Keys == k.store.tasks.Keys
    ensures forall w :: w in k.store.tasks ==>
              r.0.store.tasks[w].priority == k.store.tasks[w].priority && r.0.store.tasks[w].eventIn == k.store.tasks[w].eventIn
    ensures IsMutex(q.kind) ==> r.1.holder == k.current && r.0 == IncrementMutexHeld(k).0
    ensures !IsMutex(q.kind) ==> r == (k, q)
  {
    if IsMutex(q.kind) then
      IncrementMutexHeldFrame(k);
      var (k', h) := IncrementMutexHeld(k);
      (k', q.(holder := h))
    else
      (k, q)
  }

  /**
   * `copy_data_to_queue`: the message goes in at `pos`, and a mutex is
   * claimed by the running task.  For a mutex the slot takes the message,
   * which nothing reads.
   */
  function Deposit<T>(k: Kernel, q: Queue<T>, x: T, pos: Position): (r: (Kernel, Queue<T>))
    requires Sound(k) && QueueOk(k, q) && HasRoom(q, pos) && OverwriteAdmitted(pos, |q.ring.slots|)
    ensures QueueOk(r.0, r.1) && Stored(q.ring, r.1.ring, x, pos) && r == Claim(k, q.(ring := r.1.ring))
  {
    Claim(k, q.(ring := Put(q.ring, x, pos)))
  }

  /** The outcome of a send or receive that the caller sees. */
  datatype QueueError = QueueFull | QueueEmpty

  /**
   * How one pass of the send or receive loop ends: done, failed, or with
   * the task blocked on the queue, to run the loop again once woken, with
   * `remaining` ticks left of the wait and the time-out `timeOut`.
   */
  datatype Step = Done | Failed(error: QueueError) | Waiting(remaining: Tick, timeOut: TimeOut)

  /** A pass: the kernel and queue after it, how it ended, the message received, and whether to yield. */
  datatype Pass<T> = Pass(kernel: Kernel, queue: Queue<T>, step: Step, item: Option<T>, mustYield: bool)

  /**
   * The storage step of `queue_generic_send_from_isr` as written: the room
   * test lets every overwrite through and no assertion precedes it, so an
   * overwrite of a queue longer than one slot is copied in.
   */
  function IsrStoreAsWritten<T>(r: Ring<T>, x: T, pos: Position): (r': Option<Ring<T>>)
    requires RingOk(r)
    ensures r'.Some? <==> r.waiting < |r.slots| || pos == Overwrite
    ensures r'.Some? ==> |r'.value.slots| == |r.slots|
  {
    if r.waiting < |r.slots| || pos == Overwrite then Some(CopyIn(r, x, pos)) else None
  }

  /**
   * Finding: with no entry assertion, an interrupt's overwrite of a queue
   * of two or more slots that holds a message is stored and leaves the
   * storage ill formed; the corrected `SendFromIsr` refuses it with the
   * assertion `xQueueGenericSendFromISR` makes.
   */
  lemma IsrOverwriteUnchecked<T>(r: Ring<T>, x: T)
    requires RingOk(r) && |r.slots| >= 2 && r.waiting > 0
    ensures IsrStoreAsWritten(r, x, Overwrite).Some?
    ensures !RingOk(IsrStoreAsWritten(r, x, Overwrite).value)
    ensures !OverwriteAdmitted(Overwrite, |r.slots|)
  {
    OverwriteBreaksLongerRing(r, x);
  }

  /**
   * `queue_generic_send_from_isr` once the entry assertion has passed: with
   * room (or for an overwrite) the message is stored; if the queue is
   * unlocked the most urgent receiver is woken at once and the flag says
   * whether it outranks the interrupted task, otherwise the wake-up is
   * deferred by counting it in the transmit counter.  A full queue is left
   * alone.
   */
  method StoreFromIsr<T>(k: Kernel, q: Queue<T>, x: T, pos: Position) returns (r: Result<Pass<T>, Panic>)
    requires Sound(k) && QueueOk(k, q) && OverwriteAdmitted(pos, |q.ring.slots|)
    ensures !HasRoom(q, pos) ==> r == Success(Pass(k, q, Failed(QueueFull), None, false))
    ensures HasRoom(q, pos) && r.Success? ==>
              var p := r.value;
              p.step == Done && p.item.None? && QueueOk(p.kernel, p.queue) && Stored(q.ring, p.queue.ring, x, pos)
              && p.queue.rxLock == q.rxLock && p.queue.id == q.id && p.queue.kind == q.kind
              && Kept(k, p.kernel, ReceiveList(q))
    ensures HasRoom(q, pos) && q.txLock != UNLOCKED ==>
              r.Success? && r.value.queue.txLock == CountUp(q.txLock)
              && r.value.kernel.store.lists == k.store.lists && !r.value.mustYield
              && r.value.kernel.yieldPending == k.yieldPending
    ensures HasRoom(q, pos) && q.txLock == UNLOCKED && Waiters(k, ReceiveList(q)) == 0 ==>
              r.Success? && r.value.queue.txLock == UNLOCKED
              && r.value.kernel.store.lists == k.store.lists && !r.value.mustYield
    ensures HasRoom(q, pos) && q.txLock == UNLOCKED && Waiters(k, ReceiveList(q)) > 0 && r.Success? ==>
              r.value.queue.txLock == UNLOCKED
              && Waiters(r.value.kernel, ReceiveList(q)) == Waiters(k, ReceiveList(q)) - 1
              && r.value.mustYield == Outranks(k, ReceiveList(q))
  {
    if !HasRoom(q, pos) {
      return Success(Pass(k, q, Failed(QueueFull), None, false));
    }
    var (k1, q1) := Deposit(k, q, x, pos);
    OutranksKept(k, k1, ReceiveList(q));
    if q.txLock != UNLOCKED {
      return Success(Pass(k1, q1.(txLock := CountUp(q.txLock)), Done, None, false));
    }
    if Waiters(k1, ReceiveList(q1)) == 0 {
      return Success(Pass(k1, q1, Done, None, false));
    }
    var w := WakeWaiter(k1, ReceiveList(q1));
    if w.Failure? {
      return Failure(w.error);
    }
    KeptTransitive(k, k1, w.value.0, ReceiveList(q));
    return Success(Pass(w.value.0, q1, Done, None, w.value.1));
  }

  /**
   * `queue_generic_send_from_isr` with the entry assertion of
   * `xQueueGenericSendFromISR`, which the Rust omits: an overwrite needs a
   * one-slot queue (see `IsrOverwriteUnchecked` for what the omission
   * lets through).  Once admitted, the send is `StoreFromIsr`.
   */
  method SendFromIsr<T>(k: Kernel, q: Queue<T>, x: T, pos: Position) returns (r: Result<Pass<T>, Panic>)
    requires Sound(k) && QueueOk(k, q)
    ensures !OverwriteAdmitted(pos, |q.ring.slots|) ==> r == Failure(AssertionFailed)
    ensures !HasRoom(q, pos) ==> r == Success(Pass(k, q, Failed(QueueFull), None, false))
    ensures OverwriteAdmitted(pos, |q.ring.slots|) && HasRoom(q, pos) && r.Success? ==>
              var p := r.value;
              p.step == Done && p.item.None? && QueueOk(p.kernel, p.queue) && Stored(q.ring, p.queue.ring, x, pos)
              && p.queue.rxLock == q.rxLock && p.queue.id == q.id && p.queue.kind == q.kind
              && Kept(k, p.kernel, ReceiveList(q))
    ensures OverwriteAdmitted(pos, |q.ring.slots|) && HasRoom(q, pos) && q.txLock != UNLOCKED ==>
              r.Success? && r.value.queue.txLock == CountUp(q.txLock)
              && r.value.kernel.store.lists == k.store.lists && !r.value.mustYield
              && r.value.kernel.yieldPending == k.yieldPending
    ensures OverwriteAdmitted(pos, |q.ring.slots|) && HasRoom(q, pos) && q.txLock == UNLOCKED && Waiters(k, ReceiveList(q)) == 0 ==>
              r.Success? && r.value.queue.txLock == UNLOCKED
              && r.value.kernel.store.lists == k.store.lists && !r.value.mustYield
    ensures OverwriteAdmitted(pos, |q.ring.slots|) && HasRoom(q, pos) && q.txLock == UNLOCKED && Waiters(k, ReceiveList(q)) > 0 && r.Success? ==>
              r.value.queue.txLock == UNLOCKED
              && Waiters(r.value.kernel, ReceiveList(q)) == Waiters(k, ReceiveList(q)) - 1
              && r.value.mustYield == Outranks(k, ReceiveList(q))
  {
    if !OverwriteAdmitted(pos, |q.ring.slots|) {
      return Failure(AssertionFailed);
    }
    r := StoreFromIsr(k, q, x, pos);
  }

  // ---------------------------------------------------------------------
  // One pass of the task-level send and receive loops.

  /**
   * The time-out a blocking pass measures from: the one set on an earlier
   * pass, or `task_set_time_out_state` now.
   */
  function TimeOutFor(k: Kernel, entry: Option<TimeOut>): (to: TimeOut)
    ensures entry.Some? ==> to == entry.value
    ensures entry.None? ==> to.overflows == k.overflows && to.entered == k.tick
  {
    if entry.Some? then entry.value else SetTimeOutState(k)
  }

  /** A queue stays usable while the kernel keeps its sets of lists and tasks. */
  lemma QueueOkKeys<T>(k: Kernel, k': Kernel, q: Queue<T>)
    requires QueueOk(k, q)
    requires k'.store.lists.Keys == k.store.lists.Keys && k'.store.tasks.Keys == k.store.tasks.Keys
    ensures QueueOk(k', q)
  {
  }

  /** Locking a usable queue keeps it usable. */
  lemma LockKeepsQueueOk<T>(k: Kernel, q: Queue<T>)
    requires QueueOk(k, q)
    ensures QueueOk(k, Lock(q))
  {
  }

  /**
   * `unlock_queue` then `task_resume_all` on a queue this task locked and
   * no interrupt touched: nothing is replayed, both counters unlock, and
   * the scheduler resumes.
   */
  method UnlockAndResume<T>(k: Kernel, q: Queue<T>) returns (r: Result<(Kernel, Queue<T>, bool), Panic>)
    requires Sound(k) && QueueOk(k, q) && k.suspended > 0
    requires q.rxLock == LOCKED_UNMODIFIED && q.txLock == LOCKED_UNMODIFIED
    ensures r.Failure? ==> r.error != ResumeWithoutSuspend
    ensures k.suspended > 1 ==> r == Success((k.(suspended := k.suspended - 1), q.(rxLock := UNLOCKED, txLock := UNLOCKED), false))
    ensures r.Success? ==>
              Sound(r.value.0) && QueueOk(r.value.0, r.value.1) && r.value.1 == q.(rxLock := UNLOCKED, txLock := UNLOCKED)
              && r.value.0.suspended == k.suspended - 1
              && r.value.0.store.lists.Keys == k.store.lists.Keys && r.value.0.store.tasks.Keys == k.store.tasks.Keys
  {
    var u := Unlock(k, q);
    assert u == Success((k, q.(rxLock := UNLOCKED, txLock := UNLOCKED)));
    var s := ResumeAll(k);
    if s.Failure? {
      return Failure(s.error);
    }
    QueueOkKeys(k, s.value.0, q.(rxLock := UNLOCKED, txLock := UNLOCKED));
    r := Success((s.value.0, q.(rxLock := UNLOCKED, txLock := UNLOCKED), s.value.1));
  }

  /** A task whose time is up does not block: the queue it locked is unlocked and the scheduler resumes. */
  method GiveUp<T>(k: Kernel, q: Queue<T>) returns (r: Result<(Kernel, bool), Panic>)
    requires Sound(k) && QueueOk(k, q) && Unlocked(q) && k.suspended > 0
    ensures r.Failure? ==> r.error != ResumeWithoutSuspend
    ensures r.Success? ==>
              Sound(r.value.0) && QueueOk(r.value.0, q) && r.value.0.suspended == k.suspended - 1
              && r.value.0.store.lists.Keys == k.store.lists.Keys && r.value.0.store.tasks.Keys == k.store.tasks.Keys
  {
    LockKeepsQueueOk(k, q);
    var u := UnlockAndResume(k, Lock(q));
    if u.Failure? {
      return Failure(u.error);
    }
    r := Success((u.value.0, u.value.2));
  }

  /**
   * A task that still has time to wait blocks: it goes on the waiting list
   * `id` for `remaining` ticks, the queue it locked is unlocked, and the
   * scheduler resumes; the flag says whether resuming already yielded.
   */
  method Block<T>(k: Kernel, q: Queue<T>, id: ListId, remaining: Tick) returns (r: Result<(Kernel, bool), Panic>)
    requires Sound(k) && QueueOk(k, q) && Unlocked(q) && k.suspended > 0 && (id == SendList(q) || id == ReceiveList(q))
    requires k.current.Some? ==> k.store.tasks[k.current.value].eventIn.None?
    ensures k.current.None? ==> r == Failure(NoCurrentTask)
    ensures k.current.Some? && k.store.tasks[k.current.value].stateIn.None? ==> r.Failure?
    ensures r.Failure? ==> r.error != ResumeWithoutSuspend
    ensures r.Success? ==>
              Sound(r.value.0) && QueueOk(r.value.0, q) && r.value.0.suspended == k.suspended - 1
              && r.value.0.store.lists.Keys == k.store.lists.Keys && r.value.0.store.tasks.Keys == k.store.tasks.Keys
  {
    var placed := PlaceOnEventList(k, id, remaining);
    if placed.Failure? {
      return Failure(placed.error);
    }
    var locked := Lock(q);
    LockKeepsQueueOk(k, q);
    QueueOkKeys(k, placed.value, locked);
    var u := UnlockAndResume(placed.value, locked);
    if u.Failure? {
      return Failure(u.error);
    }
    r := Success((u.value.0, u.value.2));
  }

  /**
   * `task_suspend_all` then `task_check_for_timeout` at the start of the
   * blocking half: the scheduler is suspended one level deeper and the
   * running task's wait is checked against the time-out `to`.
   */
  method SuspendAndCheck(k: Kernel, to: TimeOut, wait: Tick) returns (r: Result<Check, Panic>)
    requires Sound(k)
    ensures r.Failure? <==> k.current.None?
    ensures r.Failure? ==> r.error == NoCurrentTask
    ensures r.Success? ==>
              var c := k.current.value;
              var t := k.store.tasks[c];
              var ch := r.value;
              Sound(ch.kernel) && ch.kernel.suspended == k.suspended + 1 && ch.kernel.current == k.current
              && ch.kernel.store.lists.Keys == k.store.lists.Keys && ch.kernel.store.tasks.Keys == k.store.tasks.Keys
              && ch.kernel.store.tasks[c].eventIn == t.eventIn
              && (t.delayAborted ==> ch.expired)
              && (!t.delayAborted && wait == MAX_DELAY ==> !ch.expired && ch.timeOut == to && ch.remaining == wait)
              && (!t.delayAborted && to == SetTimeOutState(k) && 0 < wait ==> !ch.expired && ch.timeOut == to && ch.remaining == wait)
              && (!ch.expired ==> AddTick(ch.timeOut.entered, ch.remaining) == AddTick(to.entered, wait))
  {
    var k1 := SuspendAll(k);
    r := CheckForTimeout(k1, to, wait);
    if r.Success? && to == SetTimeOutState(k) && 0 < wait && !k.store.tasks[k.current.value].delayAborted {
      FreshTimeOutRunning(k1, wait);
    }
  }

  /**
   * The blocking half of a pass, once the queue turned out full (sending)
   * or empty (receiving) and a wait was asked for: suspend the scheduler,
   * lock the queue, and check the time-out.  While time is left the task
   * goes on the waiting list `id` for the ticks remaining, the queue is
   * unlocked and the scheduler resumed -- yielding unless resuming already
   * did -- and the pass ends waiting to be run again.  Once time is up the
   * pass fails with `error`.  Nothing can change the queue in between, so
   * the source's retry branches are never taken here.
   */
  method WaitStep<T>(k: Kernel, q: Queue<T>, id: ListId, error: QueueError, wait: Tick, entry: Option<TimeOut>)
    returns (r: Result<Pass<T>, Panic>)
    requires Sound(k) && QueueOk(k, q) && Unlocked(q) && (id == SendList(q) || id == ReceiveList(q))
    requires k.current.Some? ==> k.store.tasks[k.current.value].eventIn.None?
    ensures k.current.None? ==> r == Failure(NoCurrentTask)
    ensures r.Failure? ==> r.error != ResumeWithoutSuspend
    ensures r.Success? ==>
              var p := r.value;
              p.queue == q && p.item.None? && Sound(p.kernel) && QueueOk(p.kernel, p.queue)
              && p.kernel.suspended == k.suspended
              && p.kernel.store.lists.Keys == k.store.lists.Keys && p.kernel.store.tasks.Keys == k.store.tasks.Keys
              && (!p.step.Waiting? ==> p.step == Failed(error) && !p.mustYield)
              && (p.step.Waiting? ==>
                    AddTick(p.step.timeOut.entered, p.step.remaining) == AddTick(TimeOutFor(k, entry).entered, wait))
    ensures r.Success? ==>
              var t := k.store.tasks[k.current.value];
              (t.delayAborted ==> r.value.step == Failed(error))
              && (!t.delayAborted && wait == MAX_DELAY ==> r.value.step == Waiting(MAX_DELAY, TimeOutFor(k, entry)))
              && (!t.delayAborted && entry.None? && 0 < wait ==> r.value.step == Waiting(wait, SetTimeOutState(k)))
  {
    var to := TimeOutFor(k, entry);
    var c := SuspendAndCheck(k, to, wait);
    if c.Failure? {
      return Failure(c.error);
    }
    var ch := c.value;
    QueueOkKeys(k, ch.kernel, q);
    var b;
    if ch.expired {
      b := GiveUp(ch.kernel, q);
    } else {
      b := Block(ch.kernel, q, id, ch.remaining);
    }
    if b.Failure? {
      return Failure(b.error);
    }
    var step := if ch.expired then Failed(error) else Waiting(ch.remaining, ch.timeOut);
    r := Success(Pass(b.value.0, q, step, None, !ch.expired && !b.value.1));
  }

  /**
   * Wakes the most urgent waiter of `id`, if there is one.  This is also
   * the wake-up after a peek as `xQueueGenericReceive` does it: the message
   * stays, so another receiver waiting for it is woken to take it.
   */
  method WakeAny(k: Kernel, id: ListId) returns (r: Result<(Kernel, bool), Panic>)
    requires Sound(k) && IsEventList(id) && id in k.store.lists
    ensures Waiters(k, id) == 0 ==> r == Success((k, false))
    ensures r.Success? ==>
              Kept(k, r.value.0, id) && r.value.1 == Outranks(k, id)
              && (Waiters(k, id) > 0 ==> Waiters(r.value.0, id) == Waiters(k, id) - 1)
  {
    if Waiters(k, id) == 0 {
      return Success((k, false));
    }
    r := WakeWaiter(k, id);
  }

  // ---------------------------------------------------------------------
  // Sending.

  /**
   * The branch of `queue_generic_send` that finds room (or overwrites): the
   * message is stored, a mutex is claimed by the running task, and the most
   * urgent task waiting to receive is woken, asking for a yield when it
   * outranks the sender.
   */
  method Deliver<T>(k: Kernel, q: Queue<T>, x: T, pos: Position) returns (r: Result<Pass<T>, Panic>)
    requires Sound(k) && QueueOk(k, q) && HasRoom(q, pos) && OverwriteAdmitted(pos, |q.ring.slots|)
    ensures r.Success? ==>
              var p := r.value;
              p.step == Done && p.item.None? && QueueOk(p.kernel, p.queue) && Stored(q.ring, p.queue.ring, x, pos)
              && p.queue == q.(ring := p.queue.ring, holder := p.queue.holder)
              && (IsMutex(q.kind) ==> p.queue.holder == k.current)
              && (!IsMutex(q.kind) ==> p.queue.holder == q.holder)
              && Kept(k, p.kernel, ReceiveList(q)) && p.mustYield == Outranks(k, ReceiveList(q))
              && (Waiters(k, ReceiveList(q)) > 0 ==> Waiters(p.kernel, ReceiveList(q)) == Waiters(k, ReceiveList(q)) - 1)
    ensures Waiters(k, ReceiveList(q)) == 0 ==>
              r.Success? && r.value.kernel == (if IsMutex(q.kind) then IncrementMutexHeld(k).0 else k)
  {
    var (k1, q1) := Deposit(k, q, x, pos);
    OutranksKept(k, k1, ReceiveList(q));
    assert Kept(k, k1, ReceiveList(q)) && Waiters(k1, ReceiveList(q)) == Waiters(k, ReceiveList(q));
    var w := WakeAny(k1, ReceiveList(q));
    if w.Success? {
      KeptTransitive(k, k1, w.value.0, ReceiveList(q));
    }
    r := if w.Success? then Success(Pass(w.value.0, q1, Done, None, w.value.1)) else Failure(w.error);
  }

  /**
   * The priority inheritance of a task that finds a mutex taken
   * (`task_priority_inherit` on the holder); the other kinds lend nothing.
   */
  function Lend<T>(k: Kernel, q: Queue<T>): (r: Result<Kernel, Panic>)
    requires Sound(k) && QueueOk(k, q)
    ensures !IsMutex(q.kind) || q.holder.None? ==> r == Success(k)
    ensures IsMutex(q.kind) && q.holder.Some? ==> (r.Failure? <==> k.current.None?)
    ensures r.Failure? ==> r.error == NoCurrentTask
    ensures r.Success? ==>
              var k' := r.value;
              Sound(k') && k'.current == k.current && k'.tick == k.tick && k'.overflows == k.overflows
              && k'.suspended == k.suspended
              && k'.store.lists.Keys == k.store.lists.Keys && k'.store.tasks.Keys == k.store.tasks.Keys
              && (k.current.Some? ==>
                    var c := k.current.value;
                    k'.store.tasks[c].eventIn == k.store.tasks[c].eventIn
                    && k'.store.tasks[c].delayAborted == k.store.tasks[c].delayAborted)
  {
    if IsMutex(q.kind) then PriorityInherit(k, q.holder) else Success(k)
  }

  /**
   * The branch of `queue_generic_send` that finds the queue full: a task
   * trying to take a held mutex first lends its priority to the holder,
   * then the pass fails at once when no wait was asked for and otherwise
   * goes on to the blocking half, waiting to send.
   */
  method SendWhenFull<T>(k: Kernel, q: Queue<T>, wait: Tick, entry: Option<TimeOut>) returns (r: Result<Pass<T>, Panic>)
    requires Sound(k) && QueueOk(k, q) && Unlocked(q)
    requires k.current.Some? ==> k.store.tasks[k.current.value].eventIn.None?
    ensures Lend(k, q).Failure? ==> r == Failure(NoCurrentTask)
    ensures wait == 0 && Lend(k, q).Success? ==> r == Success(Pass(Lend(k, q).value, q, Failed(QueueFull), None, false))
    ensures wait > 0 && k.current.None? ==> r == Failure(NoCurrentTask)
    ensures r.Failure? ==> r.error != ResumeWithoutSuspend
    ensures r.Success? ==>
              var p := r.value;
              p.queue == q && p.item.None? && Sound(p.kernel) && QueueOk(p.kernel, q)
              && p.kernel.suspended == k.suspended
              && p.kernel.store.lists.Keys == k.store.lists.Keys && p.kernel.store.tasks.Keys == k.store.tasks.Keys
              && (!p.step.Waiting? ==> p.step == Failed(QueueFull) && !p.mustYield)
              && (p.step.Waiting? ==>
                    wait > 0 && AddTick(p.step.timeOut.entered, p.step.remaining) == AddTick(TimeOutFor(k, entry).entered, wait))
    ensures wait > 0 && r.Success? ==>
              var t := k.store.tasks[k.current.value];
              (t.delayAborted ==> r.value.step == Failed(QueueFull))
              && (!t.delayAborted && wait == MAX_DELAY ==> r.value.step == Waiting(MAX_DELAY, TimeOutFor(k, entry)))
              && (!t.delayAborted && entry.None? ==> r.value.step == Waiting(wait, SetTimeOutState(k)))
  {
    var l := Lend(k, q);
    if l.Failure? {
      return Failure(l.error);
    }
    var k1 := l.value;
    QueueOkKeys(k, k1, q);
    if wait == 0 {
      return Success(Pass(k1, q, Failed(QueueFull), None, false));
    }
    assert TimeOutFor(k1, entry) == TimeOutFor(k, entry);
    r := WaitStep(k1, q, SendList(q), QueueFull, wait, entry);
  }

  /**
   * One pass of `queue_generic_send`: the entry assertion, then a send
   * into room, or a full queue that fails or blocks.  `entry` is the
   * time-out an earlier pass set, if any.
   */
  method SendPass<T>(k: Kernel, q: Queue<T>, x: T, pos: Position, wait: Tick, entry: Option<TimeOut>)
    returns (r: Result<Pass<T>, Panic>)
    requires Sound(k) && QueueOk(k, q) && Unlocked(q)
    requires k.current.Some? ==> k.store.tasks[k.current.value].eventIn.None?
    ensures !OverwriteAdmitted(pos, |q.ring.slots|) ==> r == Failure(AssertionFailed)
    ensures OverwriteAdmitted(pos, |q.ring.slots|) && HasRoom(q, pos) && r.Success? ==>
              var p := r.value;
              p.step == Done && p.item.None? && QueueOk(p.kernel, p.queue) && Unlocked(p.queue)
              && Stored(q.ring, p.queue.ring, x, pos)
              && p.queue == q.(ring := p.queue.ring, holder := p.queue.holder)
              && (IsMutex(q.kind) ==> p.queue.holder == k.current)
              && Kept(k, p.kernel, ReceiveList(q)) && p.mustYield == Outranks(k, ReceiveList(q))
              && (Waiters(k, ReceiveList(q)) > 0 ==> Waiters(p.kernel, ReceiveList(q)) == Waiters(k, ReceiveList(q)) - 1)
    ensures OverwriteAdmitted(pos, |q.ring.slots|) && HasRoom(q, pos) && Waiters(k, ReceiveList(q)) == 0 ==>
              r.Success? && r.value.kernel == (if IsMutex(q.kind) then IncrementMutexHeld(k).0 else k)
    ensures !HasRoom(q, pos) && r.Success? ==>
              var p := r.value;
              p.queue == q && p.item.None? && p.step != Done && Sound(p.kernel) && QueueOk(p.kernel, q)
              && (!p.step.Waiting? ==> p.step == Failed(QueueFull) && !p.mustYield)
    ensures !HasRoom(q, pos) && wait == 0 && Lend(k, q).Success? ==>
              r == Success(Pass(Lend(k, q).value, q, Failed(QueueFull), None, false))
    ensures !HasRoom(q, pos) && wait > 0 && k.current.None? ==> r == Failure(NoCurrentTask)
  {
    if !OverwriteAdmitted(pos, |q.ring.slots|) {
      return Failure(AssertionFailed);
    }
    if HasRoom(q, pos) {
      r := Deliver(k, q, x, pos);
    } else {
      r := SendWhenFull(k, q, wait, entry);
    }
  }

  // ---------------------------------------------------------------------
  // Receiving.

  /**
   * Giving back a mutex when its message is received
   * (`task_priority_disinherit` on the holder); the flag asks for a yield.
   * The other kinds give back nothing.
   */
  function Release<T>(k: Kernel, q: Queue<T>): (r: Result<(Kernel, bool), Panic>)
    requires Sound(k) && QueueOk(k, q)
    ensures !IsMutex(q.kind) ==> r == Success((k, false))
    ensures IsMutex(q.kind) ==> r == PriorityDisinherit(k, q.holder)
    ensures r.Success? ==>
              Sound(r.value.0) && r.value.0.store.lists.Keys == k.store.lists.Keys
              && r.value.0.store.tasks.Keys == k.store.tasks.Keys
  {
    if IsMutex(q.kind) then PriorityDisinherit(k, q.holder) else Success((k, false))
  }

  /**
   * The branch of `queue_generic_receive` that finds a message and removes
   * it: the oldest message is taken, a mutex is given back and loses its
   * holder, and the most urgent task waiting to send is woken; with nobody
   * to wake a yield is still asked for when giving back the mutex dropped
   * the running task's priority.
   */
  method Withdraw<T>(k: Kernel, q: Queue<T>) returns (r: Result<Pass<T>, Panic>)
    requires Sound(k) && QueueOk(k, q) && q.ring.waiting > 0
    ensures Release(k, q).Failure? ==> r == Failure(Release(k, q).error)
    ensures r.Success? ==>
              var p := r.value;
              p.step == Done && p.item == Some(Contents(q.ring)[0]) && Sound(p.kernel) && QueueOk(p.kernel, p.queue)
              && Contents(p.queue.ring) == Contents(q.ring)[1..] && |p.queue.ring.slots| == |q.ring.slots|
              && p.queue == q.(ring := p.queue.ring, holder := p.queue.holder, recursion := p.queue.recursion)
              && (IsMutex(q.kind) ==> p.queue.holder.None? && p.queue.recursion == 0)
              && (!IsMutex(q.kind) ==> p.queue.holder == q.holder && p.queue.recursion == q.recursion)
    ensures Release(k, q).Success? ==>
              var k1 := Release(k, q).value.0;
              (Waiters(k1, SendList(q)) == 0 ==>
                 r.Success? && r.value.kernel == k1 && r.value.mustYield == Release(k, q).value.1)
              && (Waiters(k1, SendList(q)) > 0 && r.Success? ==>
                    Kept(k1, r.value.kernel, SendList(q)) && r.value.mustYield == Outranks(k1, SendList(q))
                    && Waiters(r.value.kernel, SendList(q)) == Waiters(k1, SendList(q)) - 1)
  {
    var rel := Release(k, q);
    if rel.Failure? {
      return Failure(rel.error);
    }
    var k1 := rel.value.0;
    var (ring, x) := Take(q.ring);
    var q1 := if IsMutex(q.kind) then q.(ring := ring, holder := None, recursion := 0) else q.(ring := ring);
    QueueOkKeys(k, k1, q1);
    if Waiters(k1, SendList(q)) == 0 {
      return Success(Pass(k1, q1, Done, Some(x), rel.value.1));
    }
    var w := WakeWaiter(k1, SendList(q));
    if w.Failure? {
      return Failure(w.error);
    }
    QueueOkKeys(k1, w.value.0, q1);
    r := Success(Pass(w.value.0, q1, Done, Some(x), w.value.1));
  }

  /**
   * The wake-up after a peek, as written: the test on the receivers' list
   * is inverted, so with nobody waiting `task_remove_from_event_list` runs
   * on the empty list and panics, while a waiting receiver is left blocked
   * although a message is there.
   */
  function PeekWakeAsWritten(k: Kernel, id: ListId): (r: Result<(Kernel, bool), Panic>)
    requires Sound(k) && IsEventList(id) && id in k.store.lists
    ensures Waiters(k, id) == 0 ==> r == Failure(OwnerNotSet)
    ensures Waiters(k, id) > 0 ==> r == Success((k, false))
  {
    if Waiters(k, id) == 0 then RemoveFromEventList(k, id) else Success((k, false))
  }

  /**
   * The branch of `queue_generic_receive` that finds a message and only
   * peeks: the queue keeps the message, which is returned, and a waiting
   * receiver is woken.
   */
  method Glance<T>(k: Kernel, q: Queue<T>) returns (r: Result<Pass<T>, Panic>)
    requires Sound(k) && QueueOk(k, q) && q.ring.waiting > 0
    ensures Waiters(k, ReceiveList(q)) == 0 ==> r == Success(Pass(k, q, Done, Some(Contents(q.ring)[0]), false))
    ensures r.Success? ==>
              var p := r.value;
              p.queue == q && p.step == Done && p.item == Some(Contents(q.ring)[0]) && QueueOk(p.kernel, q)
              && Kept(k, p.kernel, ReceiveList(q)) && p.mustYield == Outranks(k, ReceiveList(q))
              && (Waiters(k, ReceiveList(q)) > 0 ==> Waiters(p.kernel, ReceiveList(q)) == Waiters(k, ReceiveList(q)) - 1)
  {
    var w := WakeAny(k, ReceiveList(q));
    if w.Failure? {
      return Failure(w.error);
    }
    QueueOkKeys(k, w.value.0, q);
    r := Success(Pass(w.value.0, q, Done, Some(Peek(q.ring)), w.value.1));
  }

  /**
   * One pass of `queue_generic_receive`: take or peek at the oldest
   * message, or find the queue empty and fail or block.  `entry` is the
   * time-out an earlier pass set, if any.
   */
  method ReceivePass<T>(k: Kernel, q: Queue<T>, wait: Tick, peek: bool, entry: Option<TimeOut>)
    returns (r: Result<Pass<T>, Panic>)
    requires Sound(k) && QueueOk(k, q) && Unlocked(q)
    requires k.current.Some? ==> k.store.tasks[k.current.value].eventIn.None?
    ensures q.ring.waiting > 0 && r.Success? ==>
              var p := r.value;
              p.step == Done && p.item == Some(Contents(q.ring)[0]) && Sound(p.kernel) && QueueOk(p.kernel, p.queue)
              && Unlocked(p.queue)
    ensures q.ring.waiting > 0 && peek && r.Success? ==> r.value.queue == q
    ensures q.ring.waiting > 0 && !peek && r.Success? ==>
              Contents(r.value.queue.ring) == Contents(q.ring)[1..] && |r.value.queue.ring.slots| == |q.ring.slots|
              && (IsMutex(q.kind) ==> r.value.queue.holder.None? && r.value.queue.recursion == 0)
    ensures q.ring.waiting > 0 && !peek && !IsMutex(q.kind) && Waiters(k, SendList(q)) == 0 ==>
              r.Success? && r.value.kernel == k && !r.value.mustYield
    ensures q.ring.waiting > 0 && !peek && IsMutex(q.kind) && Release(k, q).Success?
            && Waiters(Release(k, q).value.0, SendList(q)) == 0 ==>
              r.Success? && r.value.kernel == Release(k, q).value.0 && r.value.mustYield == Release(k, q).value.1
    ensures q.ring.waiting > 0 && !peek && Release(k, q).Failure? ==> r == Failure(Release(k, q).error)
    ensures q.ring.waiting > 0 && !peek && Release(k, q).Success? && r.Success?
            && Waiters(Release(k, q).value.0, SendList(q)) > 0 ==>
              var k1 := Release(k, q).value.0;
              Kept(k1, r.value.kernel, SendList(q)) && r.value.mustYield == Outranks(k1, SendList(q))
              && Waiters(r.value.kernel, SendList(q)) == Waiters(k1, SendList(q)) - 1
    ensures q.ring.waiting > 0 && peek && Waiters(k, ReceiveList(q)) == 0 ==>
              r == Success(Pass(k, q, Done, Some(Contents(q.ring)[0]), false))
    ensures q.ring.waiting > 0 && peek && r.Success? ==>
              Kept(k, r.value.kernel, ReceiveList(q)) && r.value.mustYield == Outranks(k, ReceiveList(q))
              && (Waiters(k, ReceiveList(q)) > 0 ==>
                    Waiters(r.value.kernel, ReceiveList(q)) == Waiters(k, ReceiveList(q)) - 1)
    ensures q.ring.waiting == 0 && wait == 0 ==> r == Success(Pass(k, q, Failed(QueueEmpty), None, false))
    ensures q.ring.waiting == 0 && wait > 0 && k.current.None? ==> r == Failure(NoCurrentTask)
    ensures q.ring.waiting == 0 && r.Success? ==>
              var p := r.value;
              p.queue == q && p.item.None? && p.step != Done && Sound(p.kernel) && QueueOk(p.kernel, q)
              && (!p.step.Waiting? ==> p.step == Failed(QueueEmpty) && !p.mustYield)
  {
    if q.ring.waiting > 0 {
      if peek {
        r := Glance(k, q);
      } else {
        r := Withdraw(k, q);
      }
    } else if wait == 0 {
      r := Success(Pass(k, q, Failed(QueueEmpty), None, false));
    } else {
      r := WaitStep(k, q, ReceiveList(q), QueueEmpty, wait, entry);
    }
  }

  // ---------------------------------------------------------------------
  // Reset.

  /**
   * `queue_generic_reset(false)`: the queue empties, both counters unlock,
   * a mutex loses its holder and count, and the most urgent task waiting to
   * send is woken, the flag saying whether it outranks the running task.
   * (A new queue is reset with fresh waiting lists instead; see `NewQueue`.)
   */
  method ResetQueue<T>(k: Kernel, q: Queue<T>) returns (r: Result<(Kernel, Queue<T>, bool), Panic>)
    requires Sound(k) && QueueOk(k, q)
    ensures r.Success? ==>
              var (k', q', y) := r.value;
              QueueOk(k', q') && Unlocked(q') && Contents(q'.ring) == [] && |q'.ring.slots| == |q.ring.slots|
              && q' == q.(ring := q'.ring, rxLock := UNLOCKED, txLock := UNLOCKED, holder := None, recursion := 0)
              && Kept(k, k', SendList(q)) && y == Outranks(k, SendList(q))
              && (Waiters(k, SendList(q)) > 0 ==> Waiters(k', SendList(q)) == Waiters(k, SendList(q)) - 1)
    ensures Waiters(k, SendList(q)) == 0 ==> r.Success? && r.value.0 == k && !r.value.2
  {
    var q' := q.(ring := QueueRing.Reset(q.ring), rxLock := UNLOCKED, txLock := UNLOCKED, holder := None, recursion := 0);
    var w := WakeAny(k, SendList(q));
    if w.Failure? {
      return Failure(w.error);
    }
    QueueOkKeys(k, w.value.0, q');
    r := Success((w.value.0, q', w.value.1));
  }

  /**
   * After a reset with nobody waiting on a queue other than a mutex, a
   * message sent to the back is the next one received, and the queue is
   * empty again: the reset left no message behind.
   */
  method ResetThenSendReceive<T>(k: Kernel, q: Queue<T>, x: T) returns (r: Result<Pass<T>, Panic>)
    requires Sound(k) && QueueOk(k, q) && !IsMutex(q.kind)
    requires Waiters(k, SendList(q)) == 0 && Waiters(k, ReceiveList(q)) == 0
    requires k.current.Some? ==> k.store.tasks[k.current.value].eventIn.None?
    ensures r.Success? && r.value.item == Some(x) && r.value.kernel == k && r.value.step == Done
    ensures RingOk(r.value.queue.ring) && Contents(r.value.queue.ring) == [] && Unlocked(r.value.queue)
  {
    var z := ResetQueue(k, q);
    var (k1, q1, _) := z.value;
    var s := SendPass(k1, q1, x, SendToBack, 0, None);
    var p := s.value;
    assert Contents(p.queue.ring) == [x];
    r := ReceivePass(p.kernel, p.queue, 0, false, None);
  }

  /**
   * A send from an interrupt while a task holds the queue locked, followed
   * by that task's `unlock_queue`, wakes a waiting receiver just as the
   * send would have done on an unlocked queue: the transmit counter carries
   * the deferred wake-up, which the unlock replays exactly once.
   */
  method IsrSendThenUnlock<T>(k: Kernel, q: Queue<T>, x: T) returns (r: Result<(Kernel, Queue<T>), Panic>)
    requires Sound(k) && QueueOk(k, q) && Unlocked(q) && q.ring.waiting < |q.ring.slots|
    ensures r.Success? ==>
              var (k', q') := r.value;
              Unlocked(q') && QueueOk(k', q') && Contents(q'.ring) == Contents(q.ring) + [x]
              && Untouched(k, k', ReceiveList(q)) && (k'.yieldPending ==> k.yieldPending)
              && Waiters(k', ReceiveList(q)) == (if Waiters(k, ReceiveList(q)) > 0 then Waiters(k, ReceiveList(q)) - 1 else 0)
    ensures Waiters(k, ReceiveList(q)) == 0 ==> r.Success? && r.value.0.store.lists == k.store.lists
  {
    var p := IsrSendWhileLocked(k, q, x);
    assert ReceiveList(p.queue) == ReceiveList(q);
    var n := Waiters(p.kernel, ReceiveList(q));
    assert n == Waiters(k, ReceiveList(q));
    assert Replayed(Positive(p.queue.txLock), Positive(p.queue.rxLock), n) == (if n > 0 then 1 else 0);
    var u := Unlock(p.kernel, p.queue);
    if u.Failure? {
      return Failure(u.error);
    }
    UntouchedTransitive(k, p.kernel, u.value.0, ReceiveList(q));
    r := Success(u.value);
  }

  /** The first half of `IsrSendThenUnlock`: the interrupt's send counts the deferred wake-up. */
  method IsrSendWhileLocked<T>(k: Kernel, q: Queue<T>, x: T) returns (p: Pass<T>)
    requires Sound(k) && QueueOk(k, q) && Unlocked(q) && q.ring.waiting < |q.ring.slots|
    ensures QueueOk(p.kernel, p.queue) && Kept(k, p.kernel, ReceiveList(q)) && p.kernel.store.lists == k.store.lists
    ensures p.kernel.yieldPending == k.yieldPending
    ensures p.queue.txLock == 1 && p.queue.rxLock == LOCKED_UNMODIFIED && p.queue.id == q.id && p.queue.kind == q.kind
    ensures Contents(p.queue.ring) == Contents(q.ring) + [x]
  {
    var ql := Lock(q);
    LockKeepsQueueOk(k, q);
    var s := SendFromIsr(k, ql, x, SendToBack);
    p := s.value;
  }
}
