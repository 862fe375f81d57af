/**
 * The storage of a FreeRTOS queue: a ring of `length` slots with a write
 * index, a read index and a message count, as `queue_generic_reset`,
 * `copy_data_to_queue` and `copy_data_from_queue` of `all.rs` drive them.
 *
 * `Ring` is the storage those functions evidently intend (a fixed array
 * whose slots are overwritten, as in FreeRTOS `queue.c`); `RawQueue` is the
 * storage as written, a `VecDeque` that `insert` grows and shifts.
 */
module QueueRing {
  import opened Wrappers

  /** `queueSEND_TO_BACK` (0), `queueSEND_TO_FRONT` (1) and `queueOVERWRITE` (2). */
  datatype Position = SendToBack | SendToFront | Overwrite

  /**
   * `slots` has the queue length; `writeTo` is the slot the next
   * send-to-back fills and `readFrom` the slot read last, so the oldest
   * message sits in the slot after it.
   */
  datatype Ring<T> = Ring(slots: seq<T>, writeTo: nat, readFrom: nat, waiting: nat)

  /** The indices stay in the ring and the write index sits just past the newest message. */
  predicate RingOk<T>(r: Ring<T>)
  {
    |r.slots| > 0 && r.writeTo < |r.slots| && r.readFrom < |r.slots| && r.waiting <= |r.slots|
    && r.writeTo == Wrap(r.readFrom + 1 + r.waiting, |r.slots|)
  }

  /** `x` reduced into `[0, n)`, for the sums of at most two in-ring offsets that occur here. */
  function Wrap(x: nat, n: nat): (j: nat)
    requires n > 0 && x <= 2 * n
    ensures j < n && (j == x || j == x - n || j == x - 2 * n)
  {
    if x < n then x else if x < 2 * n then x - n else 0
  }

  /** Index increment that wraps from the tail back to the head (slot 0). */
  function Next(i: nat, n: nat): (j: nat)
    requires i < n
    ensures j < n && j == Wrap(i + 1, n)
  {
    if i + 1 >= n then 0 else i + 1
  }

  /** Index decrement that wraps from the head to the last slot. */
  function Prev(i: nat, n: nat): (j: nat)
    requires i < n
    ensures j < n && Wrap(j + 1, n) == i
  {
    if i == 0 then n - 1 else i - 1
  }

  /** The slot of the `i`-th oldest message. */
  function Slot<T>(r: Ring<T>, i: nat): (j: nat)
    requires RingOk(r) && i < |r.slots|
    ensures j < |r.slots|
  {
    Wrap(r.readFrom + 1 + i, |r.slots|)
  }

  /** The messages in the queue, oldest first. */
  function Contents<T>(r: Ring<T>): (c: seq<T>)
    requires RingOk(r)
    ensures |c| == r.waiting
    ensures forall i :: 0 <= i < |c| ==> c[i] == r.slots[Slot(r, i)]
  {
    seq(r.waiting, i requires 0 <= i < r.waiting => r.slots[Slot(r, i)])
  }

  predicate Full<T>(r: Ring<T>)
  {
    r.waiting == |r.slots|
  }

  /**
   * `queue_generic_reset` on the storage: no messages, the write index at
   * the head and the read index on the last slot.  Old slot values stay.
   */
  function Reset<T>(r: Ring<T>): (r': Ring<T>)
    requires |r.slots| > 0
    ensures RingOk(r') && Contents(r') == [] && r'.slots == r.slots
  {
    Ring(r.slots, 0, |r.slots| - 1, 0)
  }

  /** A fresh queue of `length` slots, all holding `fill`. */
  function Create<T>(length: nat, fill: T): (r: Ring<T>)
    requires length > 0
    ensures RingOk(r) && |r.slots| == length && Contents(r) == []
  {
    Reset(Ring(seq(length, _ => fill), 0, 0, 0))
  }

  /**
   * `copy_data_to_queue` on the storage: send-to-back fills the write slot
   * and advances the write index; send-to-front and overwrite fill the slot
   * before the oldest message and move the read index back, and overwrite
   * of a non-empty queue keeps the count.
   */
  function CopyIn<T>(r: Ring<T>, x: T, pos: Position): (r': Ring<T>)
    requires RingOk(r) && (r.waiting < |r.slots| || pos == Overwrite)
    ensures |r'.slots| == |r.slots|
    ensures r'.waiting == if pos == Overwrite && r.waiting > 0 then r.waiting else r.waiting + 1
    ensures pos != Overwrite || |r.slots| == 1 ==> RingOk(r')
    ensures pos == SendToBack ==> Contents(r') == Contents(r) + [x]
    ensures pos == SendToFront ==> Contents(r') == [x] + Contents(r)
    ensures pos == Overwrite && |r.slots| == 1 ==> Contents(r') == [x]
  {
    var n := |r.slots|;
    match pos
    case SendToBack =>
      var r' := Ring(r.slots[r.writeTo := x], Next(r.writeTo, n), r.readFrom, r.waiting + 1);
      BackExtends(r, x, r');
      r'
    case _ =>
      var count := if pos == Overwrite && r.waiting > 0 then r.waiting - 1 else r.waiting;
      var r' := Ring(r.slots[r.readFrom := x], r.writeTo, Prev(r.readFrom, n), count + 1);
      if pos == SendToFront then FrontExtends(r, x, r'); r'
      else r'
  }

  lemma BackExtends<T>(r: Ring<T>, x: T, r': Ring<T>)
    requires RingOk(r) && r.waiting < |r.slots|
    requires r' == Ring(r.slots[r.writeTo := x], Next(r.writeTo, |r.slots|), r.readFrom, r.waiting + 1)
    ensures RingOk(r') && Contents(r') == Contents(r) + [x]
  {
    forall i | 0 <= i < r.waiting
      ensures Contents(r')[i] == Contents(r)[i]
    {
      assert Slot(r, i) != r.writeTo;
    }
  }

  lemma FrontExtends<T>(r: Ring<T>, x: T, r': Ring<T>)
    requires RingOk(r) && r.waiting < |r.slots|
    requires r' == Ring(r.slots[r.readFrom := x], r.writeTo, Prev(r.readFrom, |r.slots|), r.waiting + 1)
    ensures RingOk(r') && Contents(r') == [x] + Contents(r)
  {
    forall i | 1 <= i < r.waiting + 1
      ensures Contents(r')[i] == Contents(r)[i - 1]
    {
      assert Slot(r', i) == Slot(r, i - 1);
      assert Slot(r, i - 1) != r.readFrom;
    }
  }

  /**
   * `copy_data_from_queue`: the read index moves to the oldest message's
   * slot, which is returned.
   */
  function CopyOut<T>(r: Ring<T>): (p: (Ring<T>, T))
    requires RingOk(r) && r.waiting > 0
    ensures p.1 == Contents(r)[0]
    ensures p.0 == r.(readFrom := Next(r.readFrom, |r.slots|))
  {
    var i := Next(r.readFrom, |r.slots|);
    (r.(readFrom := i), r.slots[i])
  }

  /** A receive that removes the oldest message: copy it out and count one message less. */
  function Take<T>(r: Ring<T>): (p: (Ring<T>, T))
    requires RingOk(r) && r.waiting > 0
    ensures RingOk(p.0) && |p.0.slots| == |r.slots|
    ensures p.1 == Contents(r)[0] && Contents(p.0) == Contents(r)[1..]
  {
    var (r1, x) := CopyOut(r);
    var r' := r1.(waiting := r.waiting - 1);
    forall i | 0 <= i < r'.waiting
      ensures Contents(r')[i] == Contents(r)[i + 1]
    {
      assert Slot(r', i) == Slot(r, i + 1);
    }
    (r', x)
  }

  /** A peeking receive: the oldest message, with the read index put back. */
  function Peek<T>(r: Ring<T>): (x: T)
    requires RingOk(r) && r.waiting > 0
    ensures x == Contents(r)[0]
  {
    CopyOut(r).1
  }

  /** Taking `count` messages, oldest first. */
  function TakeMany<T>(r: Ring<T>, count: nat): (p: (Ring<T>, seq<T>))
    requires RingOk(r) && count <= r.waiting
    ensures RingOk(p.0) && |p.0.slots| == |r.slots|
    ensures p.1 == Contents(r)[..count] && Contents(p.0) == Contents(r)[count..]
    decreases count
  {
    if count == 0 then (r, [])
    else
      var (r1, x) := Take(r);
      var (r2, xs) := TakeMany(r1, count - 1);
      (r2, [x] + xs)
  }

  /** Sending `xs` to the back, one at a time, while there is room. */
  function SendAll<T>(r: Ring<T>, xs: seq<T>): (r': Ring<T>)
    requires RingOk(r) && r.waiting + |xs| <= |r.slots|
    ensures RingOk(r') && |r'.slots| == |r.slots|
    ensures Contents(r') == Contents(r) + xs
    decreases |xs|
  {
    if |xs| == 0 then r
    else
      var r1 := CopyIn(r, xs[0], SendToBack);
      var r' := SendAll(r1, xs[1..]);
      assert Contents(r) + xs == Contents(r) + [xs[0]] + xs[1..];
      r'
  }

  /** Messages leave a queue in the order they were sent to its back. */
  lemma {:induction false} FirstInFirstOut<T>(r: Ring<T>, xs: seq<T>)
    requires RingOk(r) && r.waiting == 0 && |xs| <= |r.slots|
    ensures TakeMany(SendAll(r, xs), |xs|).1 == xs
    ensures Contents(TakeMany(SendAll(r, xs), |xs|).0) == []
  {
    var r1 := SendAll(r, xs);
    assert Contents(r1) == xs;
  }

  /**
   * Overwrite is meant for queues of length 1 only: on a longer queue that
   * holds a message it moves the read index back without counting a new
   * message, and the write index no longer sits after the newest one.
   */
  lemma OverwriteBreaksLongerRing<T>(r: Ring<T>, x: T)
    requires RingOk(r) && |r.slots| >= 2 && r.waiting > 0
    ensures !RingOk(CopyIn(r, x, Overwrite))
  {
    var r' := CopyIn(r, x, Overwrite);
    assert r'.readFrom == Prev(r.readFrom, |r.slots|) && r'.writeTo == r.writeTo && r'.waiting == r.waiting;
  }

  // ---------------------------------------------------------------------
  // The storage as written.

  /** `usize` wrap-around of the index fields. */
  const WORD_MODULUS: nat := 0x1_0000_0000_0000_0000

  /**
   * The `VecDeque` storage of `all.rs`: `buf` grows on every insert,
   * `tail` is the queue length; indices are `usize`.
   */
  datatype RawQueue<T> = RawQueue(buf: seq<T>, tail: nat, writeTo: nat, readFrom: nat, waiting: nat)

  /** `queue_generic_reset` as written: indices as for `Ring`, and the deque cleared. */
  function RawReset<T>(length: nat): (q: RawQueue<T>)
    requires length > 0
    ensures q.buf == [] && q.waiting == 0 && q.writeTo == 0 && q.readFrom == length - 1
  {
    RawQueue([], length, 0, length - 1, 0)
  }

  /** `VecDeque::insert`: shifts the elements from `i` on; panics (None) when `i` is past the end. */
  function DequeInsert<T>(d: seq<T>, i: nat, x: T): (r: Option<seq<T>>)
    ensures r.Some? <==> i <= |d|
    ensures r.Some? ==> |r.value| == |d| + 1 && r.value[i] == x && r.value[..i] == d[..i] && r.value[i + 1..] == d[i..]
  {
    if i <= |d| then Some(d[..i] + [x] + d[i..]) else None
  }

  /**
   * `copy_data_to_queue` as written, for queues that store items: the item
   * is inserted, not stored over, at the write index (send-to-back) or the
   * read index; the read index decrement is a `usize` subtraction whose
   * wrap check against the head (0) can never fire.
   */
  function RawCopyIn<T>(q: RawQueue<T>, x: T, pos: Position): (r: Option<RawQueue<T>>)
    ensures r.Some? ==> |r.value.buf| == |q.buf| + 1
  {
    if pos == SendToBack then
      match DequeInsert(q.buf, q.writeTo, x)
      case None => None
      case Some(b) =>
        var w := (q.writeTo + 1) % WORD_MODULUS;
        Some(q.(buf := b, writeTo := if w >= q.tail then 0 else w, waiting := q.waiting + 1))
    else
      match DequeInsert(q.buf, q.readFrom, x)
      case None => None
      case Some(b) =>
        var count := if pos == Overwrite && q.waiting > 0 then q.waiting - 1 else q.waiting;
        Some(q.(buf := b, readFrom := (q.readFrom + WORD_MODULUS - 1) % WORD_MODULUS, waiting := count + 1))
  }

  /** `copy_data_from_queue` as written: `VecDeque::get` of the next read index, unwrapped (None: the panic). */
  function RawCopyOut<T>(q: RawQueue<T>): (r: Option<(RawQueue<T>, T)>)
    ensures r.Some? ==> r.value.0.buf == q.buf
  {
    var i0 := (q.readFrom + 1) % WORD_MODULUS;
    var i := if i0 >= q.tail then 0 else i0;
    if i < |q.buf| then Some((q.(readFrom := i), q.buf[i])) else None
  }

  /** A receive as written: copy out, and count one message less. */
  function RawTake<T>(q: RawQueue<T>): (r: Option<(RawQueue<T>, T)>)
    ensures r.Some? ==> r.value.0.waiting == q.waiting - 1 || q.waiting == 0
  {
    match RawCopyOut(q)
    case None => None
    case Some((q1, x)) => Some((q1.(waiting := if q.waiting > 0 then q.waiting - 1 else 0), x))
  }

  /**
   * On a queue of length 2: send 1, receive it, send 2, send 3, receive.
   * The ring hands out 2, the oldest message.
   */
  lemma RingReturnsOldestMessage()
    ensures var r0 := Create(2, 0);
            var r1 := CopyIn(r0, 1, SendToBack);
            var r2 := Take(r1).0;
            var r3 := CopyIn(CopyIn(r2, 2, SendToBack), 3, SendToBack);
            Take(r3).1 == 2
  {
    var r0 := Create(2, 0);
    var r1 := CopyIn(r0, 1, SendToBack);
    var r2 := Take(r1).0;
    assert Contents(r2) == [];
    var r3 := CopyIn(CopyIn(r2, 2, SendToBack), 3, SendToBack);
    assert Contents(r3) == [2, 3];
  }

  /**
   * The same calls on the deque hand out 1, the message received before:
   * inserting 3 at slot 0 shifted the stale 1 into slot 1.
   */
  lemma RawQueueReturnsStaleMessage()
    ensures var q0 := RawReset<int>(2);
            var q1 := RawCopyIn(q0, 1, SendToBack).value;
            var q2 := RawTake(q1).value.0;
            var q3 := RawCopyIn(RawCopyIn(q2, 2, SendToBack).value, 3, SendToBack).value;
            RawTake(q3).Some? && RawTake(q3).value.1 == 1
  {
    var q0 := RawReset<int>(2);
    assert q0 == RawQueue([], 2, 0, 1, 0);
    var q1 := RawCopyIn(q0, 1, SendToBack).value;
    assert q1 == RawQueue([1], 2, 1, 1, 1);
    var q2 := RawTake(q1).value.0;
    assert q2 == RawQueue([1], 2, 1, 0, 0);
    var q25 := RawCopyIn(q2, 2, SendToBack).value;
    assert q25 == RawQueue([1, 2], 2, 0, 0, 1);
    var q3 := RawCopyIn(q25, 3, SendToBack).value;
    assert q3 == RawQueue([3, 1, 2], 2, 1, 0, 2);
    assert RawTake(q3) == Some((RawQueue([3, 1, 2], 2, 1, 1, 1), 1));
  }
}
