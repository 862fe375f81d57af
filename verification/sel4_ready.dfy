/**
 * The seL4 scheduler's ready queues and their two-level priority bitmap
 * (`tcb.c`).  There is one FIFO queue per domain and priority.  Level 1 of
 * the bitmap has one bit per group of 64 priorities, level 2 one bit per
 * priority; level-2 word `j` of a domain serves the group whose level-1
 * index is `L2_BITMAP_SIZE - 1 - j` (the index is inverted so that the
 * highest priorities share a cache line with the level-1 word).
 *
 * A queue is the sequence of its threads from head to end; the
 * doubly-linked `tcbSchedNext`/`tcbSchedPrev` pointers are that sequence.
 * A bitmap word is the set of its one bits.  The `tcbQueued` flag of a
 * thread is its membership in `queued`, which also remembers the queue the
 * thread sits in.  One core is modelled (`SMP_TERNARY` picks core 0).
 */
module ReadyQueues {

  type ThreadId = nat

  /** `CONFIG_NUM_PRIORITIES`. */
  const NUM_PRIORITIES: nat := 256
  /** `wordBits` on a 64-bit machine; `wordRadix` is 6. */
  const WORD_BITS: nat := 64
  /** `L2_BITMAP_SIZE`: `(CONFIG_NUM_PRIORITIES + wordBits - 1) / wordBits`. */
  const L2_BITMAP_SIZE: nat := 4

  /** `prio_to_l1index`: `prio >> wordRadix`. */
  function L1Index(prio: nat): nat { prio / WORD_BITS }

  /** `invert_l1index`. */
  function Inverted(l1index: nat): int { L2_BITMAP_SIZE as int - 1 - l1index }

  /** `prio & MASK(wordRadix)`: the priority's bit within its level-2 word. */
  function L2Bit(prio: nat): nat { prio % WORD_BITS }

  /** The queue a queued thread sits in. */
  datatype Slot = Slot(dom: nat, prio: nat)

  /**
   * `ksReadyQueues[dom][prio]`, the set of queued threads with their
   * queue, `ksReadyQueuesL1Bitmap[dom]` and `ksReadyQueuesL2Bitmap[dom][j]`.
   */
  datatype Ready = Ready(queues: seq<seq<seq<ThreadId>>>, queued: map<ThreadId, Slot>,
                         l1: seq<set<nat>>, l2: seq<seq<set<nat>>>)

  /** One queue per domain and priority, and a full bitmap per domain. */
  predicate Shape(rq: Ready)
  {
    |rq.l1| == |rq.queues| && |rq.l2| == |rq.queues|
    && (forall d :: 0 <= d < |rq.queues| ==> |rq.queues[d]| == NUM_PRIORITIES)
    && (forall d :: 0 <= d < |rq.l2| ==> |rq.l2[d]| == L2_BITMAP_SIZE)
  }

  /** The number of domains, `CONFIG_NUM_DOMAINS`. */
  function Domains(rq: Ready): nat { |rq.queues| }

  predicate InRange(rq: Ready, s: Slot)
  {
    s.dom < |rq.queues| && s.prio < NUM_PRIORITIES
  }

  /** The level-2 bit of priority `p` in domain `d`. */
  predicate Bit(rq: Ready, d: nat, p: nat)
    requires Shape(rq) && d < |rq.queues| && p < NUM_PRIORITIES
  {
    L2Bit(p) in rq.l2[d][Inverted(L1Index(p))]
  }

  /** No thread appears twice in a queue. */
  predicate Distinct(q: seq<ThreadId>)
  {
    forall i, j :: 0 <= i < j < |q| ==> q[i] != q[j]
  }

  /** Every queued thread sits in the queue its slot names. */
  ghost predicate Indexed(rq: Ready)
    requires Shape(rq)
  {
    forall t :: t in rq.queued ==> InRange(rq, rq.queued[t]) && t in rq.queues[rq.queued[t].dom][rq.queued[t].prio]
  }

  /** Every thread in a queue is queued there, and only once. */
  ghost predicate Listed(rq: Ready)
    requires Shape(rq)
  {
    forall d, p :: 0 <= d < |rq.queues| && 0 <= p < NUM_PRIORITIES ==> ListedAt(rq, d, p)
  }

  /** `Listed` at one queue. */
  ghost predicate ListedAt(rq: Ready, d: nat, p: nat)
    requires Shape(rq) && d < |rq.queues| && p < NUM_PRIORITIES
  {
    Distinct(rq.queues[d][p]) && forall t :: t in rq.queues[d][p] ==> t in rq.queued && rq.queued[t] == Slot(d, p)
  }

  /** A level-2 bit is set exactly for the non-empty queues, and no word holds a bit past 63. */
  ghost predicate BitsOk(rq: Ready)
    requires Shape(rq)
  {
    (forall d, p :: 0 <= d < |rq.queues| && 0 <= p < NUM_PRIORITIES ==> (Bit(rq, d, p) <==> rq.queues[d][p] != []))
    && (forall d, j, b :: 0 <= d < |rq.queues| && 0 <= j < L2_BITMAP_SIZE && b in rq.l2[d][j] ==> b < WORD_BITS)
  }

  /** A level-1 bit is set exactly for the non-zero level-2 words, and none lies past the last word. */
  ghost predicate L1Ok(rq: Ready)
    requires Shape(rq)
  {
    (forall d, i :: 0 <= d < |rq.queues| && 0 <= i < L2_BITMAP_SIZE ==> (i in rq.l1[d] <==> rq.l2[d][Inverted(i)] != {}))
    && (forall d, i :: 0 <= d < |rq.queues| && i in rq.l1[d] ==> i < L2_BITMAP_SIZE)
  }

  /** The scheduler's invariant over the ready queues and the bitmap. */
  ghost predicate ReadyOk(rq: Ready)
  {
    Shape(rq) && Indexed(rq) && Listed(rq) && BitsOk(rq) && L1Ok(rq)
  }

  /** A queue with thread `t` cut out; `tcbSchedDequeue` and `tcbEPDequeue` both unlink this way. */
  function Unlink(q: seq<ThreadId>, t: ThreadId): (r: seq<ThreadId>)
    ensures forall x :: x in r <==> x in q && x != t
    ensures t !in q ==> r == q
    ensures Distinct(q) ==> Distinct(r)
    ensures Distinct(q) && t in q ==> |r| == |q| - 1
  {
    if q == [] then []
    else if q[0] == t then Unlink(q[1..], t)
    else
      var rest := Unlink(q[1..], t);
      DistinctCons(q, rest);
      [q[0]] + rest
  }

  lemma DistinctCons(q: seq<ThreadId>, rest: seq<ThreadId>)
    requires q != [] && forall x :: x in rest ==> x in q[1..]
    ensures Distinct(q) && Distinct(rest) ==> Distinct([q[0]] + rest)
  {
    if Distinct(q) && Distinct(rest) {
      assert q[0] !in q[1..];
      var s := [q[0]] + rest;
      forall i, j | 0 <= i < j < |s| ensures s[i] != s[j] {
        if i == 0 { assert s[j] in rest; } else { assert s[i] == rest[i - 1] && s[j] == rest[j - 1]; }
      }
    }
  }

  // ---------------------------------------------------------------------
  // The bitmap

  /** The bit pattern determines the priority. */
  lemma SameBitSamePrio(p: nat, p': nat)
    requires p < NUM_PRIORITIES && p' < NUM_PRIORITIES
    requires Inverted(L1Index(p)) == Inverted(L1Index(p')) && L2Bit(p) == L2Bit(p')
    ensures p == p'
  {
  }

  /** `addToBitmap`. */
  function AddToBitmap(rq: Ready, d: nat, p: nat): (r: Ready)
    requires Shape(rq) && d < |rq.queues| && p < NUM_PRIORITIES
    ensures Shape(r) && r.queues == rq.queues && r.queued == rq.queued
    ensures forall d', p' :: 0 <= d' < |r.queues| && 0 <= p' < NUM_PRIORITIES ==>
      (Bit(r, d', p') <==> Bit(rq, d', p') || (d' == d && p' == p))
    ensures |r.l1| == |rq.l1| && forall d', i :: 0 <= d' < |r.l1| ==> (i in r.l1[d'] <==> i in rq.l1[d'] || (d' == d && i == L1Index(p)))
    ensures forall d', j :: 0 <= d' < |r.queues| && 0 <= j < L2_BITMAP_SIZE ==>
      r.l2[d'][j] == if d' == d && j == Inverted(L1Index(p)) then rq.l2[d][j] + {L2Bit(p)} else rq.l2[d'][j]
  {
    var j := Inverted(L1Index(p));
    var r := rq.(l1 := rq.l1[d := rq.l1[d] + {L1Index(p)}],
                 l2 := rq.l2[d := rq.l2[d][j := rq.l2[d][j] + {L2Bit(p)}]]);
    assert forall d', p' :: 0 <= d' < |r.queues| && 0 <= p' < NUM_PRIORITIES && d' == d && Bit(r, d', p') && !Bit(rq, d', p') ==> p' == p by {
      forall d', p' | 0 <= d' < |r.queues| && 0 <= p' < NUM_PRIORITIES && d' == d && Bit(r, d', p') && !Bit(rq, d', p')
        ensures p' == p
      {
        SameBitSamePrio(p, p');
      }
    }
    r
  }

  /** `removeFromBitmap`: the level-1 bit goes only when its level-2 word becomes zero. */
  function RemoveFromBitmap(rq: Ready, d: nat, p: nat): (r: Ready)
    requires Shape(rq) && d < |rq.queues| && p < NUM_PRIORITIES
    ensures Shape(r) && r.queues == rq.queues && r.queued == rq.queued
    ensures forall d', p' :: 0 <= d' < |r.queues| && 0 <= p' < NUM_PRIORITIES ==>
      (Bit(r, d', p') <==> Bit(rq, d', p') && !(d' == d && p' == p))
    ensures forall d', j :: 0 <= d' < |r.queues| && 0 <= j < L2_BITMAP_SIZE ==>
      r.l2[d'][j] == if d' == d && j == Inverted(L1Index(p)) then rq.l2[d][j] - {L2Bit(p)} else rq.l2[d'][j]
    ensures |r.l1| == |rq.l1| && forall d', i :: 0 <= d' < |r.l1| ==>
      (i in r.l1[d'] <==> i in rq.l1[d'] && !(d' == d && i == L1Index(p) && r.l2[d][Inverted(L1Index(p))] == {}))
  {
    var j := Inverted(L1Index(p));
    var w := rq.l2[d][j] - {L2Bit(p)};
    var r := rq.(l2 := rq.l2[d := rq.l2[d][j := w]],
                 l1 := if w == {} then rq.l1[d := rq.l1[d] - {L1Index(p)}] else rq.l1);
    assert forall d', p' :: 0 <= d' < |r.queues| && 0 <= p' < NUM_PRIORITIES && d' == d && Bit(rq, d', p') && !Bit(r, d', p') ==> p' == p by {
      forall d', p' | 0 <= d' < |r.queues| && 0 <= p' < NUM_PRIORITIES && d' == d && Bit(rq, d', p') && !Bit(r, d', p')
        ensures p' == p
      {
        SameBitSamePrio(p, p');
      }
    }
    r
  }

  /** Clearing a bit that was just set, from a consistent bitmap where it was clear, restores the bitmap. */
  lemma RemoveUndoesAdd(rq: Ready, d: nat, p: nat)
    requires ReadyOk(rq) && d < |rq.queues| && p < NUM_PRIORITIES && !Bit(rq, d, p)
    ensures RemoveFromBitmap(AddToBitmap(rq, d, p), d, p) == rq
  {
    var a := AddToBitmap(rq, d, p);
    var r := RemoveFromBitmap(a, d, p);
    var i, j := L1Index(p), Inverted(L1Index(p));
    assert r.l2[d][j] == rq.l2[d][j];
    assert r.l2[d] == rq.l2[d];
    assert r.l2 == rq.l2;
    if rq.l2[d][j] == {} {
      assert i !in rq.l1[d];
      assert r.l1[d] == rq.l1[d];
    } else {
      assert i in rq.l1[d];
      assert r.l1[d] == rq.l1[d];
    }
    assert r.l1 == rq.l1;
  }

  // ---------------------------------------------------------------------
  // The queues

  /** Queue `(d, p)` replaced by `q`. */
  function WithQueue(rq: Ready, d: nat, p: nat, q: seq<ThreadId>): (r: Ready)
    requires Shape(rq) && d < |rq.queues| && p < NUM_PRIORITIES
    ensures Shape(r) && r.queued == rq.queued && r.l1 == rq.l1 && r.l2 == rq.l2
    ensures forall d', p' :: 0 <= d' < |r.queues| && 0 <= p' < NUM_PRIORITIES ==>
      r.queues[d'][p'] == if d' == d && p' == p then q else rq.queues[d'][p']
    ensures |r.queues| == |rq.queues|
  {
    rq.(queues := rq.queues[d := rq.queues[d][p := q]])
  }

  /** The shared body of `tcbSchedEnqueue` and `tcbSchedAppend`: `atHead` picks the end. */
  function Insert(rq: Ready, t: ThreadId, d: nat, p: nat, atHead: bool): (r: Ready)
    requires Shape(rq) && d < |rq.queues| && p < NUM_PRIORITIES
  {
    if t in rq.queued then rq
    else
      var q := rq.queues[d][p];
      var b := if q == [] then AddToBitmap(rq, d, p) else rq;
      WithQueue(b, d, p, if atHead then [t] + q else q + [t]).(queued := rq.queued[t := Slot(d, p)])
  }

  /**
   * `tcbSchedEnqueue` of a thread of domain `d` and priority `p`: a queued
   * thread is left where it is; otherwise it goes to the head of its queue,
   * is marked queued, and its bitmap bit is set.
   */
  function SchedEnqueue(rq: Ready, t: ThreadId, d: nat, p: nat): (r: Ready)
    requires Shape(rq) && d < |rq.queues| && p < NUM_PRIORITIES
    ensures Shape(r) && |r.queues| == |rq.queues|
    ensures t in rq.queued ==> r == rq
    ensures t !in rq.queued ==> r.queued == rq.queued[t := Slot(d, p)] && r.queues[d][p] == [t] + rq.queues[d][p]
    ensures t !in rq.queued ==> forall d', p' :: 0 <= d' < |r.queues| && 0 <= p' < NUM_PRIORITIES && (d', p') != (d, p) ==>
      r.queues[d'][p'] == rq.queues[d'][p']
    ensures ReadyOk(rq) ==> ReadyOk(r)
  {
    var r := Insert(rq, t, d, p, true);
    InsertKeepsReadyOk(rq, t, d, p, true);
    r
  }

  /** `tcbSchedAppend`: the same as `SchedEnqueue` but at the end of the queue. */
  function SchedAppend(rq: Ready, t: ThreadId, d: nat, p: nat): (r: Ready)
    requires Shape(rq) && d < |rq.queues| && p < NUM_PRIORITIES
    ensures Shape(r) && |r.queues| == |rq.queues|
    ensures t in rq.queued ==> r == rq
    ensures t !in rq.queued ==> r.queued == rq.queued[t := Slot(d, p)] && r.queues[d][p] == rq.queues[d][p] + [t]
    ensures t !in rq.queued ==> forall d', p' :: 0 <= d' < |r.queues| && 0 <= p' < NUM_PRIORITIES && (d', p') != (d, p) ==>
      r.queues[d'][p'] == rq.queues[d'][p']
    ensures ReadyOk(rq) ==> ReadyOk(r)
  {
    var r := Insert(rq, t, d, p, false);
    InsertKeepsReadyOk(rq, t, d, p, false);
    r
  }

  lemma InsertKeepsReadyOk(rq: Ready, t: ThreadId, d: nat, p: nat, atHead: bool)
    requires Shape(rq) && d < |rq.queues| && p < NUM_PRIORITIES
    ensures ReadyOk(rq) ==> ReadyOk(Insert(rq, t, d, p, atHead))
  {
    if ReadyOk(rq) && t !in rq.queued {
      var q := rq.queues[d][p];
      var q' := if atHead then [t] + q else q + [t];
      var r := Insert(rq, t, d, p, atHead);
      assert ListedAt(rq, d, p);
      assert t !in q;
      DistinctAdded(q, t, atHead);
      assert Changed(rq, r, d, p, q');
      InsertIndexed(rq, t, d, p, q', r);
      forall d', p' | 0 <= d' < |r.queues| && 0 <= p' < NUM_PRIORITIES
        ensures ListedAt(r, d', p')
      {
        InsertListedAt(rq, t, d, p, q', r, d', p');
      }
      InsertBits(rq, t, d, p, q', r);
    }
  }

  /** A thread added at either end of a queue it was not in keeps the queue free of repeats. */
  lemma DistinctAdded(q: seq<ThreadId>, t: ThreadId, atHead: bool)
    requires Distinct(q) && t !in q
    ensures Distinct(if atHead then [t] + q else q + [t])
    ensures forall x :: x in (if atHead then [t] + q else q + [t]) <==> x in q || x == t
  {
    var q' := if atHead then [t] + q else q + [t];
    forall i, j | 0 <= i < j < |q'| ensures q'[i] != q'[j] {
      if atHead {
        if i > 0 { assert q'[i] == q[i - 1] && q'[j] == q[j - 1]; }
        else { assert q'[j] in q; }
      } else {
        if j < |q| { assert q'[i] == q[i] && q'[j] == q[j]; }
        else { assert q'[i] in q; }
      }
    }
  }

  /** `r` differs from `rq` only in queue `(d, p)`, which is now `q'`. */
  ghost predicate Changed(rq: Ready, r: Ready, d: nat, p: nat, q': seq<ThreadId>)
    requires Shape(rq) && d < |rq.queues| && p < NUM_PRIORITIES
  {
    Shape(r) && |r.queues| == |rq.queues|
    && forall d', p' :: 0 <= d' < |r.queues| && 0 <= p' < NUM_PRIORITIES ==>
      r.queues[d'][p'] == if d' == d && p' == p then q' else rq.queues[d'][p']
  }

  lemma InsertIndexed(rq: Ready, t: ThreadId, d: nat, p: nat, q': seq<ThreadId>, r: Ready)
    requires ReadyOk(rq) && t !in rq.queued && d < |rq.queues| && p < NUM_PRIORITIES
    requires forall x :: x in q' <==> x in rq.queues[d][p] || x == t
    requires Changed(rq, r, d, p, q') && r.queued == rq.queued[t := Slot(d, p)]
    ensures Indexed(r)
  {
  }

  lemma InsertListedAt(rq: Ready, t: ThreadId, d: nat, p: nat, q': seq<ThreadId>, r: Ready, d': nat, p': nat)
    requires ReadyOk(rq) && t !in rq.queued && d < |rq.queues| && p < NUM_PRIORITIES
    requires Distinct(q') && forall x :: x in q' <==> x in rq.queues[d][p] || x == t
    requires Changed(rq, r, d, p, q') && r.queued == rq.queued[t := Slot(d, p)]
    requires d' < |rq.queues| && p' < NUM_PRIORITIES
    ensures ListedAt(r, d', p')
  {
    assert ListedAt(rq, d', p');
    if d' != d || p' != p {
      forall x | x in r.queues[d'][p'] ensures x in r.queued && r.queued[x] == Slot(d', p') {
        assert x != t;
      }
    }
  }

  lemma InsertBits(rq: Ready, t: ThreadId, d: nat, p: nat, q': seq<ThreadId>, r: Ready)
    requires Shape(rq) && BitsOk(rq) && L1Ok(rq) && d < |rq.queues| && p < NUM_PRIORITIES && t !in rq.queued
    requires q' != [] && r == Insert(rq, t, d, p, q' == [t] + rq.queues[d][p])
    requires q' == [t] + rq.queues[d][p] || q' == rq.queues[d][p] + [t]
    requires Changed(rq, r, d, p, q')
    ensures BitsOk(r) && L1Ok(r)
  {
    var q := rq.queues[d][p];
    if q == [] {
      var b := AddToBitmap(rq, d, p);
      assert r.l1 == b.l1 && r.l2 == b.l2;
      assert L1Index(p) in r.l1[d];
      assert L2Bit(p) in r.l2[d][Inverted(L1Index(p))];
      BitmapTracks(rq, r, d, p);
    } else {
      assert r.l1 == rq.l1 && r.l2 == rq.l2;
      BitmapTracks(rq, r, d, p);
    }
  }

  /**
   * The bitmap invariants survive a change to queue `(d, p)` that keeps
   * its bit in step with the queue and touches no other word or bit.
   */
  lemma BitmapTracks(rq: Ready, r: Ready, d: nat, p: nat)
    requires Shape(rq) && BitsOk(rq) && L1Ok(rq) && d < |rq.queues| && p < NUM_PRIORITIES
    requires Shape(r) && |r.queues| == |rq.queues| && Changed(rq, r, d, p, r.queues[d][p])
    requires forall d', p' :: 0 <= d' < |r.queues| && 0 <= p' < NUM_PRIORITIES ==>
      (Bit(r, d', p') <==> if d' == d && p' == p then r.queues[d][p] != [] else Bit(rq, d', p'))
    requires forall d', j :: 0 <= d' < |r.queues| && 0 <= j < L2_BITMAP_SIZE ==>
      r.l2[d'][j] <= rq.l2[d'][j] + {L2Bit(p)}
    requires forall d', i :: 0 <= d' < |r.queues| && 0 <= i < L2_BITMAP_SIZE && !(d' == d && i == L1Index(p)) ==>
      (i in r.l1[d'] <==> i in rq.l1[d']) && r.l2[d'][Inverted(i)] == rq.l2[d'][Inverted(i)]
    requires forall d', i :: 0 <= d' < |r.queues| && i in r.l1[d'] ==> i in rq.l1[d'] || i == L1Index(p)
    requires L1Index(p) in r.l1[d] <==> r.l2[d][Inverted(L1Index(p))] != {}
    ensures BitsOk(r) && L1Ok(r)
  {
  }

  /**
   * `tcbSchedDequeue` of a thread of domain `d` and priority `p`: a thread
   * that is not queued is left alone; otherwise it is unlinked from its
   * queue and unmarked, and the bitmap bit is cleared when it was the only
   * thread there.
   */
  function SchedDequeue(rq: Ready, t: ThreadId, d: nat, p: nat): (r: Ready)
    requires Shape(rq) && d < |rq.queues| && p < NUM_PRIORITIES
    ensures Shape(r) && |r.queues| == |rq.queues|
    ensures t !in rq.queued ==> r == rq
    ensures t in rq.queued ==> r.queued == rq.queued - {t} && r.queues[d][p] == Unlink(rq.queues[d][p], t)
    ensures t in rq.queued ==> forall d', p' :: 0 <= d' < |r.queues| && 0 <= p' < NUM_PRIORITIES && (d', p') != (d, p) ==>
      r.queues[d'][p'] == rq.queues[d'][p']
    ensures ReadyOk(rq) && (t in rq.queued ==> rq.queued[t] == Slot(d, p)) ==> ReadyOk(r)
  {
    if t !in rq.queued then rq
    else
      var q := rq.queues[d][p];
      var b := if q == [t] then RemoveFromBitmap(rq, d, p) else rq;
      var r := WithQueue(b, d, p, Unlink(q, t)).(queued := rq.queued - {t});
      DequeueKeepsReadyOk(rq, t, d, p, r);
      r
  }

  lemma DequeueKeepsReadyOk(rq: Ready, t: ThreadId, d: nat, p: nat, r: Ready)
    requires Shape(rq) && d < |rq.queues| && p < NUM_PRIORITIES && t in rq.queued
    requires r == WithQueue(if rq.queues[d][p] == [t] then RemoveFromBitmap(rq, d, p) else rq, d, p, Unlink(rq.queues[d][p], t)).(queued := rq.queued - {t})
    ensures ReadyOk(rq) && rq.queued[t] == Slot(d, p) ==> ReadyOk(r)
  {
    if ReadyOk(rq) && rq.queued[t] == Slot(d, p) {
      var q := rq.queues[d][p];
      var q' := Unlink(q, t);
      assert t in q;
      assert ListedAt(rq, d, p);
      UnlinkSole(q, t);
      assert Changed(rq, r, d, p, q');
      DequeueIndexed(rq, t, d, p, q', r);
      DequeueListed(rq, t, d, p, q', r);
      DequeueBits(rq, t, d, p, r);
    }
  }

  lemma UnlinkSole(q: seq<ThreadId>, t: ThreadId)
    requires Distinct(q) && t in q
    ensures Unlink(q, t) == [] <==> q == [t]
  {
    if Unlink(q, t) == [] { assert |q| == 1; assert q == [q[0]]; }
  }

  lemma DequeueIndexed(rq: Ready, t: ThreadId, d: nat, p: nat, q': seq<ThreadId>, r: Ready)
    requires ReadyOk(rq) && t in rq.queued && rq.queued[t] == Slot(d, p) && d < |rq.queues| && p < NUM_PRIORITIES
    requires q' == Unlink(rq.queues[d][p], t)
    requires Changed(rq, r, d, p, q') && r.queued == rq.queued - {t}
    ensures Indexed(r)
  {
  }

  lemma DequeueListed(rq: Ready, t: ThreadId, d: nat, p: nat, q': seq<ThreadId>, r: Ready)
    requires ReadyOk(rq) && t in rq.queued && rq.queued[t] == Slot(d, p) && d < |rq.queues| && p < NUM_PRIORITIES
    requires q' == Unlink(rq.queues[d][p], t)
    requires Changed(rq, r, d, p, q') && r.queued == rq.queued - {t}
    ensures Listed(r)
  {
    forall d', p' | 0 <= d' < |r.queues| && 0 <= p' < NUM_PRIORITIES
      ensures ListedAt(r, d', p')
    {
      DequeueListedAt(rq, t, d, p, q', r, d', p');
    }
  }

  lemma DequeueListedAt(rq: Ready, t: ThreadId, d: nat, p: nat, q': seq<ThreadId>, r: Ready, d': nat, p': nat)
    requires ReadyOk(rq) && t in rq.queued && rq.queued[t] == Slot(d, p) && d < |rq.queues| && p < NUM_PRIORITIES
    requires q' == Unlink(rq.queues[d][p], t)
    requires Changed(rq, r, d, p, q') && r.queued == rq.queued - {t}
    requires d' < |rq.queues| && p' < NUM_PRIORITIES
    ensures ListedAt(r, d', p')
  {
    assert ListedAt(rq, d', p');
    if d' != d || p' != p {
      forall x | x in r.queues[d'][p'] ensures x in r.queued && r.queued[x] == Slot(d', p') {
        assert x != t;
      }
    }
  }

  lemma DequeueBits(rq: Ready, t: ThreadId, d: nat, p: nat, r: Ready)
    requires Shape(rq) && BitsOk(rq) && L1Ok(rq) && d < |rq.queues| && p < NUM_PRIORITIES && t in rq.queued
    requires Unlink(rq.queues[d][p], t) == [] <==> rq.queues[d][p] == [t]
    requires r == WithQueue(if rq.queues[d][p] == [t] then RemoveFromBitmap(rq, d, p) else rq, d, p, Unlink(rq.queues[d][p], t)).(queued := rq.queued - {t})
    requires Changed(rq, r, d, p, Unlink(rq.queues[d][p], t))
    ensures BitsOk(r) && L1Ok(r)
  {
    var q := rq.queues[d][p];
    if q == [t] {
      var b := RemoveFromBitmap(rq, d, p);
      assert r.l1 == b.l1 && r.l2 == b.l2;
      BitmapTracks(rq, r, d, p);
    } else {
      assert r.l1 == rq.l1 && r.l2 == rq.l2;
      BitmapTracks(rq, r, d, p);
    }
  }

  // ---------------------------------------------------------------------
  // Round trips

  /** Dequeuing a thread just enqueued, into a consistent state where it was not queued, restores the state. */
  lemma DequeueUndoesEnqueue(rq: Ready, t: ThreadId, d: nat, p: nat)
    requires ReadyOk(rq) && d < |rq.queues| && p < NUM_PRIORITIES && t !in rq.queued
    ensures SchedDequeue(SchedEnqueue(rq, t, d, p), t, d, p) == rq
  {
    UndoInsert(rq, t, d, p, true);
  }

  /** The same for a thread just appended. */
  lemma DequeueUndoesAppend(rq: Ready, t: ThreadId, d: nat, p: nat)
    requires ReadyOk(rq) && d < |rq.queues| && p < NUM_PRIORITIES && t !in rq.queued
    ensures SchedDequeue(SchedAppend(rq, t, d, p), t, d, p) == rq
  {
    UndoInsert(rq, t, d, p, false);
  }

  lemma UndoInsert(rq: Ready, t: ThreadId, d: nat, p: nat, atHead: bool)
    requires ReadyOk(rq) && d < |rq.queues| && p < NUM_PRIORITIES && t !in rq.queued
    ensures SchedDequeue(Insert(rq, t, d, p, atHead), t, d, p) == rq
  {
    var q := rq.queues[d][p];
    var e := Insert(rq, t, d, p, atHead);
    var r := SchedDequeue(e, t, d, p);
    assert ListedAt(rq, d, p);
    assert t !in q;
    var q' := if atHead then [t] + q else q + [t];
    assert e.queues[d][p] == q';
    UnlinkAdded(q, t, atHead);
    assert t in e.queued && e.queued == rq.queued[t := Slot(d, p)];
    MapRemoveAdded(rq.queued, t, Slot(d, p));
    assert r.queued == rq.queued;
    assert r.queues[d][p] == q;
    assert r.queues[d] == rq.queues[d];
    assert r.queues == rq.queues;
    if q == [] {
      assert !Bit(rq, d, p);
      RemoveUndoesAdd(rq, d, p);
      assert e.queues[d][p] == [t];
      assert r.l1 == rq.l1 && r.l2 == rq.l2;
    } else {
      assert q' != [t];
      assert r.l1 == rq.l1 && r.l2 == rq.l2;
    }
  }

  lemma MapRemoveAdded<K, V>(m: map<K, V>, k: K, v: V)
    requires k !in m
    ensures m[k := v] - {k} == m
  {
    assert forall x :: x in m[k := v] - {k} <==> x in m;
  }

  /** Unlinking a thread from either end of a queue it was added to gives the queue back. */
  lemma UnlinkAdded(q: seq<ThreadId>, t: ThreadId, atHead: bool)
    requires t !in q
    ensures Unlink(if atHead then [t] + q else q + [t], t) == q
  {
    if !atHead {
      UnlinkLast(q, t);
    }
  }

  lemma {:induction false} UnlinkLast(q: seq<ThreadId>, t: ThreadId)
    requires t !in q
    ensures Unlink(q + [t], t) == q
  {
    if q != [] {
      assert (q + [t])[1..] == q[1..] + [t];
      UnlinkLast(q[1..], t);
    }
  }

  // ---------------------------------------------------------------------
  // Endpoint queues

  /** `tcbEPAppend`: a thread joins the end of an endpoint or notification queue. */
  function EpAppend(q: seq<ThreadId>, t: ThreadId): (r: seq<ThreadId>)
    ensures |r| == |q| + 1 && r[|q|] == t && r[..|q|] == q
  {
    q + [t]
  }

  /** `tcbEPDequeue`: the thread is unlinked wherever it sits. */
  function EpDequeue(q: seq<ThreadId>, t: ThreadId): (r: seq<ThreadId>)
    ensures forall x :: x in r <==> x in q && x != t
    ensures Distinct(q) ==> Distinct(r)
  {
    Unlink(q, t)
  }

  /** Dequeuing the head moves the head to the next thread. */
  lemma {:induction false} EpDequeueHead(q: seq<ThreadId>)
    requires Distinct(q) && q != []
    ensures EpDequeue(q, q[0]) == q[1..]
  {
    assert q[0] !in q[1..];
  }

  /** Dequeuing the end moves the end to the previous thread. */
  lemma EpDequeueEnd(q: seq<ThreadId>)
    requires Distinct(q) && q != []
    ensures EpDequeue(q, q[|q| - 1]) == q[..|q| - 1]
  {
    var t := q[|q| - 1];
    assert q == q[..|q| - 1] + [t];
    assert t !in q[..|q| - 1];
    UnlinkLast(q[..|q| - 1], t);
  }

  /** The queue is FIFO: a thread appended and then dequeued leaves the queue as it was. */
  lemma EpDequeueUndoesAppend(q: seq<ThreadId>, t: ThreadId)
    requires t !in q
    ensures EpDequeue(EpAppend(q, t), t) == q
  {
    UnlinkLast(q, t);
  }

  // ---------------------------------------------------------------------
  // The highest priority

  /** `wordBits - 1 - clzl(w)` searched from bit `top` down; -1 for a word with no bit up to `top`. */
  function Msb(w: set<nat>, top: nat): (r: int)
    ensures -1 <= r <= top
    ensures r >= 0 ==> r in w
    ensures forall b :: r < b <= top ==> b !in w
  {
    if top in w then top
    else if top == 0 then -1
    else Msb(w, top - 1)
  }

  /** `getHighestPrio`: the highest level-1 bit picks the word, its highest level-2 bit the priority. */
  function HighestPrio(rq: Ready, d: nat): int
    requires Shape(rq) && d < |rq.queues|
  {
    var i := Msb(rq.l1[d], WORD_BITS - 1);
    var j := if i >= 0 then Inverted(i) else -1;
    var b := if i >= 0 && 0 <= j < L2_BITMAP_SIZE then Msb(rq.l2[d][j], WORD_BITS - 1) else -1;
    i * WORD_BITS + b
  }

  /** The bitmap finds the highest non-empty queue of the domain. */
  lemma HighestPrioIsHighest(rq: Ready, d: nat)
    requires ReadyOk(rq) && d < |rq.queues| && rq.l1[d] != {}
    ensures 0 <= HighestPrio(rq, d) < NUM_PRIORITIES
    ensures rq.queues[d][HighestPrio(rq, d)] != []
    ensures forall p :: HighestPrio(rq, d) < p < NUM_PRIORITIES ==> rq.queues[d][p] == []
  {
    var x :| x in rq.l1[d];
    var i := Msb(rq.l1[d], WORD_BITS - 1);
    assert i >= 0;
    assert i < L2_BITMAP_SIZE;
    var w := rq.l2[d][Inverted(i)];
    assert w != {};
    var y :| y in w;
    var b := Msb(w, WORD_BITS - 1);
    assert b >= 0;
    var hp := i * WORD_BITS + b;
    assert HighestPrio(rq, d) == hp;
    assert L1Index(hp) == i && L2Bit(hp) == b;
    assert Bit(rq, d, hp);
    forall p | hp < p < NUM_PRIORITIES ensures rq.queues[d][p] == [] {
      if L1Index(p) == i {
        assert L2Bit(p) > b;
        assert !Bit(rq, d, p);
      } else {
        assert L1Index(p) > i;
        assert L1Index(p) !in rq.l1[d];
        assert rq.l2[d][Inverted(L1Index(p))] == {};
      }
    }
  }

  /** An empty level-1 word means every queue of the domain is empty, and back. */
  lemma EmptyL1MeansNoneReady(rq: Ready, d: nat)
    requires ReadyOk(rq) && d < |rq.queues|
    ensures rq.l1[d] == {} <==> forall p :: 0 <= p < NUM_PRIORITIES ==> rq.queues[d][p] == []
  {
    if rq.l1[d] != {} {
      HighestPrioIsHighest(rq, d);
    } else {
      forall p | 0 <= p < NUM_PRIORITIES ensures rq.queues[d][p] == [] {
        assert L1Index(p) !in rq.l1[d];
      }
    }
  }

  /** `isHighestPrio`: no queue of the domain above `prio` holds a thread. */
  predicate IsHighestPrio(rq: Ready, d: nat, prio: nat)
    requires Shape(rq) && d < |rq.queues|
  {
    rq.l1[d] == {} || prio >= HighestPrio(rq, d)
  }

  lemma IsHighestPrioMeansNoneAbove(rq: Ready, d: nat, prio: nat)
    requires ReadyOk(rq) && d < |rq.queues|
    ensures IsHighestPrio(rq, d, prio) <==> forall p :: prio < p < NUM_PRIORITIES ==> rq.queues[d][p] == []
  {
    EmptyL1MeansNoneReady(rq, d);
    if rq.l1[d] != {} {
      HighestPrioIsHighest(rq, d);
    }
  }
}
