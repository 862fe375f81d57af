/**
 * The semaphores and mutexes of `Semaphore`: queues of
 * `Option<TaskHandle>` whose messages are all `None`.  In this port a
 * semaphore is TAKEN by sending (`semaphore_down`) and GIVEN by receiving
 * (`semaphore_up`), so a semaphore's count is the number of messages --
 * the takes outstanding -- and a new semaphore is empty.  A recursive
 * mutex also counts how many times its holder took it.
 */
module Semaphores {
  import opened Wrappers
  import opened Ticks
  import opened PriorityList
  import opened RtosKernel
  import opened Scheduler
  import opened EventLists
  import opened MutexInheritance
  import opened QueueRing
  import opened Queues

  /** The kinds the constructors of `Semaphore` create. */
  predicate IsSemaphoreKind(kind: QueueKind)
  {
    kind == Mutex || kind == RecursiveMutex || kind == BinarySemaphore || kind == CountingSemaphore
  }

  /** The takes outstanding. */
  function Count(s: Semaphore): nat
  {
    s.ring.waiting
  }

  /**
   * `new_mutex`, `create_binary`, `create_recursive_mutex` and
   * `create_counting(max)`: a queue of one slot -- of `max` slots for a
   * counting semaphore -- with nothing taken, no holder and nobody waiting.
   */
  function CreateSemaphore(k: Kernel, id: nat, kind: QueueKind, max: nat): (r: (Kernel, Semaphore))
    requires Sound(k) && IsSemaphoreKind(kind) && (kind == CountingSemaphore ==> max > 0)
    requires WaitingToSend(id) !in k.store.lists && WaitingToReceive(id) !in k.store.lists
    ensures Sound(r.0) && QueueOk(r.0, r.1) && Unlocked(r.1) && r.1.kind == kind && r.1.id == id
    ensures Count(r.1) == 0 && |r.1.ring.slots| == (if kind == CountingSemaphore then max else 1)
    ensures r.1.holder.None? && r.1.recursion == 0
    ensures Waiters(r.0, SendList(r.1)) == 0 && Waiters(r.0, ReceiveList(r.1)) == 0
    ensures r.0.store.tasks == k.store.tasks && r.0.current == k.current
  {
    NewQueue(k, id, if kind == CountingSemaphore then max else 1, kind, None)
  }

  /**
   * One pass of `semaphore_down`: a send of `None` to the back.  Below the
   * length the take succeeds and the count goes up by one, and a mutex is
   * then held by the running task; at the length the pass fails or blocks.
   */
  method SemaphoreDown(k: Kernel, s: Semaphore, wait: Tick, entry: Option<TimeOut>)
    returns (r: Result<Pass<Option<TaskId>>, Panic>)
    requires Sound(k) && QueueOk(k, s) && Unlocked(s)
    requires k.current.Some? ==> k.store.tasks[k.current.value].eventIn.None?
    ensures Count(s) < |s.ring.slots| && r.Success? ==>
              var p := r.value;
              p.step == Done && Count(p.queue) == Count(s) + 1 && |p.queue.ring.slots| == |s.ring.slots|
              && Unlocked(p.queue) && QueueOk(p.kernel, p.queue) && Sound(p.kernel)
              && p.queue == s.(ring := p.queue.ring, holder := p.queue.holder)
              && (IsMutex(s.kind) ==> p.queue.holder == k.current)
              && Kept(k, p.kernel, ReceiveList(s)) && p.mustYield == Outranks(k, ReceiveList(s))
              && (Waiters(k, ReceiveList(s)) > 0 ==>
                    Waiters(p.kernel, ReceiveList(s)) == Waiters(k, ReceiveList(s)) - 1)
    ensures Count(s) < |s.ring.slots| && Waiters(k, ReceiveList(s)) == 0 ==>
              r.Success? && !r.value.mustYield
              && r.value.kernel == (if IsMutex(s.kind) then IncrementMutexHeld(k).0 else k)
    ensures Count(s) == |s.ring.slots| && r.Success? ==> r.value.queue == s && r.value.step != Done
    ensures Count(s) == |s.ring.slots| && wait == 0 && Lend(k, s).Success? ==>
              r == Success(Pass(Lend(k, s).value, s, Failed(QueueFull), None, false))
  {
    r := SendPass(k, s, None, SendToBack, wait, entry);
    if r.Success? && Count(s) < |s.ring.slots| {
      assert |Contents(r.value.queue.ring)| == |Contents(s.ring)| + 1;
    }
  }

  /**
   * `semaphore_up`: a receive that does not wait (`semGIVE_BLOCK_TIME`).
   * With something taken the count goes down by one and a mutex loses its
   * holder; with nothing taken the give fails.
   */
  method SemaphoreUp(k: Kernel, s: Semaphore) returns (r: Result<Pass<Option<TaskId>>, Panic>)
    requires Sound(k) && QueueOk(k, s) && Unlocked(s)
    requires k.current.Some? ==> k.store.tasks[k.current.value].eventIn.None?
    ensures Count(s) > 0 && r.Success? ==>
              var p := r.value;
              p.step == Done && Count(p.queue) == Count(s) - 1 && |p.queue.ring.slots| == |s.ring.slots|
              && Unlocked(p.queue) && QueueOk(p.kernel, p.queue) && Sound(p.kernel)
              && p.item == Some(Contents(s.ring)[0]) && Contents(p.queue.ring) == Contents(s.ring)[1..]
              && (IsMutex(s.kind) ==> p.queue.holder.None? && p.queue.recursion == 0)
    ensures Count(s) > 0 && Queues.Release(k, s).Failure? ==> r == Failure(Queues.Release(k, s).error)
    ensures Count(s) > 0 && Queues.Release(k, s).Success? && r.Success?
            && Waiters(Queues.Release(k, s).value.0, SendList(s)) > 0 ==>
              var k1 := Queues.Release(k, s).value.0;
              Kept(k1, r.value.kernel, SendList(s)) && r.value.mustYield == Outranks(k1, SendList(s))
              && Waiters(r.value.kernel, SendList(s)) == Waiters(k1, SendList(s)) - 1
    ensures Count(s) > 0 && !IsMutex(s.kind) && Waiters(k, SendList(s)) == 0 ==>
              r.Success? && r.value.kernel == k && !r.value.mustYield
    ensures Count(s) > 0 && IsMutex(s.kind) && Queues.Release(k, s).Success? && Waiters(Queues.Release(k, s).value.0, SendList(s)) == 0 ==>
              r.Success? && r.value.kernel == Queues.Release(k, s).value.0 && r.value.mustYield == Queues.Release(k, s).value.1
    ensures Count(s) == 0 ==> r == Success(Pass(k, s, Failed(QueueEmpty), None, false))
  {
    r := ReceivePass(k, s, 0, false, None);
    if r.Success? && Count(s) > 0 {
      assert |Contents(r.value.queue.ring)| == |Contents(s.ring)| - 1;
    }
  }

  /** Taking and then giving a semaphore other than a mutex, with nobody waiting, changes nothing. */
  method DownThenUp(k: Kernel, s: Semaphore) returns (r: Result<Pass<Option<TaskId>>, Panic>)
    requires Sound(k) && QueueOk(k, s) && Unlocked(s) && !IsMutex(s.kind) && Count(s) < |s.ring.slots|
    requires Waiters(k, SendList(s)) == 0 && Waiters(k, ReceiveList(s)) == 0
    requires k.current.Some? ==> k.store.tasks[k.current.value].eventIn.None?
    ensures r.Success? && r.value.step == Done && r.value.kernel == k && !r.value.mustYield
    ensures Count(r.value.queue) == Count(s) && Unlocked(r.value.queue)
  {
    var d := SemaphoreDown(k, s, 0, None);
    r := SemaphoreUp(d.value.kernel, d.value.queue);
  }

  /**
   * A running task at its base priority that takes a free mutex nobody
   * waits on and gives it back leaves the kernel as it was: the mutex count
   * of the task goes up and down again, and the mutex is free again.
   */
  method MutexTakeThenGive(k: Kernel, m: Semaphore) returns (r: Result<Pass<Option<TaskId>>, Panic>)
    requires Sound(k) && QueueOk(k, m) && Unlocked(m) && IsMutex(m.kind) && Count(m) < |m.ring.slots|
    requires Waiters(k, SendList(m)) == 0 && Waiters(k, ReceiveList(m)) == 0
    requires k.current.Some? && k.store.tasks[k.current.value].eventIn.None?
    requires k.store.tasks[k.current.value].priority == k.store.tasks[k.current.value].basePriority
    ensures r.Success? && r.value.step == Done && r.value.kernel == k && !r.value.mustYield
    ensures r.value.queue.holder.None? && Count(r.value.queue) == Count(m)
  {
    var d := SemaphoreDown(k, m, 0, None);
    TakeThenGiveBackRestores(k);
    var p := d.value;
    assert p.kernel.store.lists == k.store.lists;
    assert Queues.Release(p.kernel, p.queue) == Success((k, false));
    r := SemaphoreUp(p.kernel, p.queue);
  }

  // ---------------------------------------------------------------------
  // Recursive mutexes.

  /** The range of the `u64` recursion count. */
  const WORD_MODULUS: int := 0x1_0000_0000_0000_0000

  /** `QueueUnion_decrease` on the `u64` count, wrapping below zero as a release build does. */
  function CountDown(n: nat): (r: nat)
    ensures n > 0 ==> r == n - 1
    ensures n == 0 ==> r == WORD_MODULUS - 1
  {
    if n == 0 then WORD_MODULUS - 1 else n - 1
  }

  /** The running task holds `m`. */
  predicate HeldByCurrent(k: Kernel, m: Semaphore)
  {
    m.holder.Some? && m.holder == k.current
  }

  /**
   * The holder's half of `up_recursive`: one level is given back, and at
   * the last level the mutex itself is given with a receive that does not
   * wait.  The result says a level was given back.
   */
  method GiveLevel(k: Kernel, m: Semaphore) returns (r: Result<(Kernel, Semaphore, bool), Panic>)
    requires Sound(k) && QueueOk(k, m) && Unlocked(m) && m.kind == RecursiveMutex && HeldByCurrent(k, m)
    requires k.store.tasks[k.current.value].eventIn.None?
    ensures m.recursion != 1 ==> r == Success((k, m.(recursion := CountDown(m.recursion)), true))
    ensures m.recursion == 1 && r.Success? ==>
              var (k', m', given) := r.value;
              given && Sound(k') && QueueOk(k', m') && Unlocked(m') && m'.recursion == 0
              && (Count(m) > 0 ==> m'.holder.None? && Count(m') == Count(m) - 1)
    ensures m.recursion == 1 && Count(m) > 0 && Queues.Release(k, m).Success? && Waiters(Queues.Release(k, m).value.0, SendList(m)) == 0 ==>
              r.Success? && r.value.0 == Queues.Release(k, m).value.0
  {
    var m1 := m.(recursion := CountDown(m.recursion));
    if m1.recursion != 0 {
      return Success((k, m1, true));
    }
    assert Queues.Release(k, m1) == Queues.Release(k, m);
    var p := SemaphoreUp(k, m1);
    if p.Failure? {
      return Failure(p.error);
    }
    r := Success((p.value.kernel, p.value.queue, true));
  }

  /**
   * `up_recursive` as written: the holder is unwrapped before it is
   * compared, so giving a recursive mutex that nobody holds panics instead
   * of failing.
   */
  method GiveRecursiveAsWritten(k: Kernel, m: Semaphore) returns (r: Result<(Kernel, Semaphore, bool), Panic>)
    requires Sound(k) && QueueOk(k, m) && Unlocked(m) && m.kind == RecursiveMutex
    requires k.current.Some? ==> k.store.tasks[k.current.value].eventIn.None?
    ensures m.holder.None? ==> r == Failure(UnwrapFailed)
    ensures m.holder.Some? && !HeldByCurrent(k, m) ==> r == Success((k, m, false))
    ensures HeldByCurrent(k, m) && m.recursion != 1 ==> r == Success((k, m.(recursion := CountDown(m.recursion)), true))
  {
    if m.holder.None? {
      return Failure(UnwrapFailed);
    }
    if !HeldByCurrent(k, m) {
      return Success((k, m, false));
    }
    r := GiveLevel(k, m);
  }

  /**
   * `xQueueGiveMutexRecursive`: only the holder can give a level back; for
   * any other task, and for a mutex nobody holds, the give fails.
   */
  method GiveRecursive(k: Kernel, m: Semaphore) returns (r: Result<(Kernel, Semaphore, bool), Panic>)
    requires Sound(k) && QueueOk(k, m) && Unlocked(m) && m.kind == RecursiveMutex
    requires k.current.Some? ==> k.store.tasks[k.current.value].eventIn.None?
    ensures !HeldByCurrent(k, m) ==> r == Success((k, m, false))
    ensures HeldByCurrent(k, m) && m.recursion != 1 ==> r == Success((k, m.(recursion := CountDown(m.recursion)), true))
    ensures HeldByCurrent(k, m) && m.recursion == 1 && r.Success? ==>
              var (k', m', given) := r.value;
              given && Sound(k') && QueueOk(k', m') && Unlocked(m') && m'.recursion == 0
              && (Count(m) > 0 ==> m'.holder.None? && Count(m') == Count(m) - 1)
    ensures HeldByCurrent(k, m) && m.recursion == 1 && Count(m) > 0 && Queues.Release(k, m).Success?
            && Waiters(Queues.Release(k, m).value.0, SendList(m)) == 0 ==>
              r.Success? && r.value.0 == Queues.Release(k, m).value.0
  {
    if !HeldByCurrent(k, m) {
      return Success((k, m, false));
    }
    r := GiveLevel(k, m);
  }

  /**
   * Finding: on a recursive mutex nobody holds, the give as written panics
   * where the intended give reports failure.
   */
  method GiveFreeRecursive(k: Kernel, m: Semaphore) returns (written: Result<(Kernel, Semaphore, bool), Panic>, intended: Result<(Kernel, Semaphore, bool), Panic>)
    requires Sound(k) && QueueOk(k, m) && Unlocked(m) && m.kind == RecursiveMutex && m.holder.None?
    requires k.current.Some? ==> k.store.tasks[k.current.value].eventIn.None?
    ensures written == Failure(UnwrapFailed) && intended == Success((k, m, false))
  {
    written := GiveRecursiveAsWritten(k, m);
    intended := GiveRecursive(k, m);
  }

  /**
   * One pass of `down_recursive` as written: when the running task already
   * holds the mutex the count goes up, but the task then still sends to
   * the mutex it holds, which is full, so the take fails or blocks with
   * the level already counted.  A send that succeeds counts a level.
   */
  method TakeRecursiveAsWritten(k: Kernel, m: Semaphore, wait: Tick, entry: Option<TimeOut>)
    returns (r: Result<Pass<Option<TaskId>>, Panic>)
    requires Sound(k) && QueueOk(k, m) && Unlocked(m) && m.kind == RecursiveMutex
    requires k.current.Some? ==> k.store.tasks[k.current.value].eventIn.None?
    ensures HeldByCurrent(k, m) && Count(m) == |m.ring.slots| && wait == 0 ==>
              r == Success(Pass(k, m.(recursion := m.recursion + 1), Failed(QueueFull), None, false))
    ensures !HeldByCurrent(k, m) && Count(m) < |m.ring.slots| && r.Success? ==>
              r.value.step == Done && r.value.queue.holder == k.current && r.value.queue.recursion == m.recursion + 1
              && Count(r.value.queue) == Count(m) + 1
  {
    var m1 := if HeldByCurrent(k, m) then m.(recursion := m.recursion + 1) else m;
    if HeldByCurrent(k, m) {
      assert Lend(k, m1) == Success(k);
    }
    r := SemaphoreDown(k, m1, wait, entry);
    if r.Success? && r.value.step == Done {
      var p := r.value;
      r := Success(p.(queue := p.queue.(recursion := p.queue.recursion + 1)));
    }
  }

  /**
   * One pass of `xQueueTakeMutexRecursive`: the holder takes another level
   * at once; any other task takes the mutex as a semaphore, which counts
   * its first level when it succeeds.
   */
  method TakeRecursive(k: Kernel, m: Semaphore, wait: Tick, entry: Option<TimeOut>)
    returns (r: Result<Pass<Option<TaskId>>, Panic>)
    requires Sound(k) && QueueOk(k, m) && Unlocked(m) && m.kind == RecursiveMutex
    requires k.current.Some? ==> k.store.tasks[k.current.value].eventIn.None?
    ensures HeldByCurrent(k, m) ==> r == Success(Pass(k, m.(recursion := m.recursion + 1), Done, None, false))
    ensures !HeldByCurrent(k, m) && Count(m) < |m.ring.slots| && r.Success? ==>
              var p := r.value;
              p.step == Done && p.queue.holder == k.current && p.queue.recursion == m.recursion + 1
              && Count(p.queue) == Count(m) + 1 && Unlocked(p.queue) && QueueOk(p.kernel, p.queue) && Sound(p.kernel)
              && p.queue.kind == m.kind && p.queue.id == m.id && |p.queue.ring.slots| == |m.ring.slots|
    ensures !HeldByCurrent(k, m) && Count(m) < |m.ring.slots| && Waiters(k, ReceiveList(m)) == 0 ==>
              r.Success? && r.value.kernel == IncrementMutexHeld(k).0 && !r.value.mustYield
    ensures !HeldByCurrent(k, m) && Count(m) == |m.ring.slots| && r.Success? ==>
              r.value.queue == m && r.value.step != Done
  {
    if HeldByCurrent(k, m) {
      return Success(Pass(k, m.(recursion := m.recursion + 1), Done, None, false));
    }
    r := SemaphoreDown(k, m, wait, entry);
    if r.Success? && r.value.step == Done {
      var p := r.value;
      r := Success(p.(queue := p.queue.(recursion := p.queue.recursion + 1)));
    }
  }

  /**
   * Finding: the holder taking a full recursive mutex again without
   * waiting fails as written although the level is counted; the intended
   * take succeeds.
   */
  method RetakeRecursive(k: Kernel, m: Semaphore) returns (written: Result<Pass<Option<TaskId>>, Panic>, intended: Result<Pass<Option<TaskId>>, Panic>)
    requires Sound(k) && QueueOk(k, m) && Unlocked(m) && m.kind == RecursiveMutex
    requires HeldByCurrent(k, m) && Count(m) == |m.ring.slots|
    requires k.store.tasks[k.current.value].eventIn.None?
    ensures written.Success? && written.value.step == Failed(QueueFull) && written.value.queue.recursion == m.recursion + 1
    ensures intended.Success? && intended.value.step == Done && intended.value.queue.recursion == m.recursion + 1
  {
    written := TakeRecursiveAsWritten(k, m, 0, None);
    intended := TakeRecursive(k, m, 0, None);
  }

  /** A level the holder takes and gives back leaves the kernel and the mutex as they were. */
  method TakeThenGiveLevel(k: Kernel, m: Semaphore) returns (r: Result<(Kernel, Semaphore, bool), Panic>)
    requires Sound(k) && QueueOk(k, m) && Unlocked(m) && m.kind == RecursiveMutex && HeldByCurrent(k, m)
    requires k.store.tasks[k.current.value].eventIn.None?
    requires m.recursion > 0
    ensures r == Success((k, m, true))
  {
    var t := TakeRecursive(k, m, 0, None);
    r := GiveRecursive(t.value.kernel, t.value.queue);
  }

  /**
   * A running task that takes a free recursive mutex nobody waits to
   * receive from holds it at one level, and its mutex count goes up.
   */
  method TakeFreeRecursive(k: Kernel, m: Semaphore) returns (r: Result<Pass<Option<TaskId>>, Panic>)
    requires Sound(k) && QueueOk(k, m) && Unlocked(m) && m.kind == RecursiveMutex
    requires m.holder.None? && Count(m) < |m.ring.slots| && Waiters(k, ReceiveList(m)) == 0
    requires k.current.Some? && k.store.tasks[k.current.value].eventIn.None?
    ensures r.Success? && r.value.step == Done && r.value.kernel == IncrementMutexHeld(k).0 && !r.value.mustYield
    ensures var m' := r.value.queue;
            m' == m.(ring := m'.ring, holder := k.current, recursion := m.recursion + 1)
            && Count(m') == Count(m) + 1 && |m'.ring.slots| == |m.ring.slots| && Unlocked(m')
            && QueueOk(r.value.kernel, m')
  {
    r := TakeRecursive(k, m, 0, None);
  }

  /**
   * A running task at its base priority that takes a free recursive mutex
   * nobody waits on and gives it back leaves the kernel as it was and the
   * mutex free.
   */
  method RecursiveTakeThenGive(k: Kernel, m: Semaphore) returns (r: Result<(Kernel, Semaphore, bool), Panic>)
    requires Sound(k) && QueueOk(k, m) && Unlocked(m) && m.kind == RecursiveMutex
    requires m.holder.None? && m.recursion == 0 && Count(m) < |m.ring.slots|
    requires Waiters(k, SendList(m)) == 0 && Waiters(k, ReceiveList(m)) == 0
    requires k.current.Some? && k.store.tasks[k.current.value].eventIn.None?
    requires k.store.tasks[k.current.value].priority == k.store.tasks[k.current.value].basePriority
    ensures r.Success? && r.value.0 == k && r.value.2
    ensures r.value.1.holder.None? && r.value.1.recursion == 0 && Count(r.value.1) == Count(m)
  {
    var t := TakeFreeRecursive(k, m);
    TakeThenGiveBackRestores(k);
    var p := t.value;
    assert p.kernel.store.lists == k.store.lists;
    assert Queues.Release(p.kernel, p.queue) == Success((k, false));
    r := GiveRecursive(p.kernel, p.queue);
  }

  // ---------------------------------------------------------------------
  // The holder of a mutex.

  /**
   * `get_mutex_holder` as written: a peek that does not wait, unwrapped.
   * A free mutex has nothing to peek at, so the unwrap panics; a held one
   * reaches the inverted wake-up test of the peek, which panics whenever
   * nobody waits to give the mutex -- and giving never waits.
   */
  method GetMutexHolderAsWritten(k: Kernel, m: Semaphore) returns (r: Result<Option<TaskId>, Panic>)
    requires Sound(k) && QueueOk(k, m) && IsMutex(m.kind)
    ensures Count(m) == 0 ==> r == Failure(UnwrapFailed)
    ensures Count(m) > 0 && Waiters(k, ReceiveList(m)) == 0 ==> r == Failure(OwnerNotSet)
    ensures Count(m) > 0 && Waiters(k, ReceiveList(m)) > 0 ==> r == Success(m.holder)
  {
    if Count(m) == 0 {
      return Failure(UnwrapFailed);
    }
    var w := PeekWakeAsWritten(k, ReceiveList(m));
    r := if w.Failure? then Failure(w.error) else Success(m.holder);
  }

  /**
   * `xQueueGetMutexHolder`: the holder of a taken mutex, `None` for a free
   * one; reading it changes nothing and never fails.
   */
  function GetMutexHolder(m: Semaphore): (r: Option<TaskId>)
    requires IsMutex(m.kind)
    ensures Count(m) == 0 ==> r.None?
    ensures Count(m) > 0 ==> r == m.holder
  {
    if Count(m) == 0 then None else m.holder
  }

  /** Finding: whenever nobody waits to give a mutex, asking for its holder panics as written. */
  method HolderQueryPanics(k: Kernel, m: Semaphore) returns (written: Result<Option<TaskId>, Panic>)
    requires Sound(k) && QueueOk(k, m) && IsMutex(m.kind) && Waiters(k, ReceiveList(m)) == 0
    ensures written.Failure? && (Count(m) > 0 ==> GetMutexHolder(m) == m.holder)
  {
    written := GetMutexHolderAsWritten(k, m);
  }
}
