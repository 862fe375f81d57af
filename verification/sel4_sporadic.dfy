/**
 * The sporadic-server refill queue of `sporadic.c`.  A scheduling context
 * keeps its replenishments ("refills") in a circular buffer of
 * `scRefillMax` entries between `scRefillHead` and `scRefillTail`
 * inclusive, so the queue is never empty.  Each refill is an amount of
 * budget and the time from which it may be used.
 *
 * The kernel's own sanity checks (`REFILL_SANITY_CHECK`) demand that the
 * amounts add up to the budget and that the times never decrease from
 * head to tail.  The model states every operation in terms of the queue's
 * contents, the sequence of refills from head to tail.  It proves the sum of
 * every operation and the order of every operation but the budget check:
 * its overrun merge (lines 255-264) keeps the order only when the head's
 * budget runs out by the time the next refill is released, and
 * `BudgetCheckUnorders` shows an ordered queue it leaves out of order.
 *
 * Ticks are unbounded here; `ticks_t` is 64 bits wide.
 */
module Sporadic {
  import opened Wrappers

  /** `getKernelWcetTicks()`: platform-dependent; fixed here. */
  const KERNEL_WCET_TICKS: nat := 10

  /** `MIN_BUDGET`: twice the kernel's worst-case execution time. */
  const MIN_BUDGET: nat := 2 * KERNEL_WCET_TICKS

  /** `MIN_REFILLS`: the head and one more, the least a context is configured with. */
  const MIN_REFILLS: nat := 2

  /** `refill_t`. */
  datatype Refill = Refill(rTime: nat, rAmount: nat)

  /** The refill fields of `sched_context_t`; `refills` is the storage behind the context object. */
  datatype SchedContext = SchedContext(period: nat, head: nat, tail: nat, max: nat, refills: seq<Refill>)

  /** Head and tail lie in the first `scRefillMax` entries, and the storage holds them. */
  predicate Valid(sc: SchedContext)
  {
    0 < sc.max <= |sc.refills| && sc.head < sc.max && sc.tail < sc.max
  }

  /** `isRoundRobin`: a period of zero. */
  predicate IsRoundRobin(sc: SchedContext)
  {
    sc.period == 0
  }

  // ---------------------------------------------------------------------
  // The ring

  /** `refill_next`: the index after `i`, wrapping at `scRefillMax`. */
  function RefillNext(sc: SchedContext, i: nat): (r: nat)
    requires Valid(sc) && i < sc.max
    ensures r < sc.max
    ensures r == (i + 1) % sc.max
  {
    if i == sc.max - 1 then 0 else i + 1
  }

  /** The storage index of the `k`-th refill from the head. */
  function Idx(sc: SchedContext, k: nat): (r: nat)
    requires Valid(sc) && k < sc.max
    ensures r < sc.max
  {
    if sc.head + k < sc.max then sc.head + k else sc.head + k - sc.max
  }

  /** `refill_size`: the number of refills from head to tail inclusive. */
  function Size(sc: SchedContext): (n: nat)
    requires Valid(sc)
    ensures 1 <= n <= sc.max
    ensures Idx(sc, n - 1) == sc.tail
  {
    if sc.head <= sc.tail then sc.tail - sc.head + 1
    else sc.tail + 1 + (sc.max - sc.head)
  }

  /** `refill_single`: head and tail coincide. */
  predicate Single(sc: SchedContext)
    requires Valid(sc)
  {
    sc.head == sc.tail
  }

  /** `refill_full`: every entry is in use. */
  predicate Full(sc: SchedContext)
    requires Valid(sc)
  {
    Size(sc) == sc.max
  }

  /** The refills from head to tail. */
  function Contents(sc: SchedContext): (s: seq<Refill>)
    requires Valid(sc)
    ensures |s| == Size(sc)
  {
    seq(Size(sc), k requires 0 <= k < Size(sc) => sc.refills[Idx(sc, k)])
  }

  /** `REFILL_HEAD`. */
  function Head(sc: SchedContext): (r: Refill)
    requires Valid(sc)
    ensures r == Contents(sc)[0]
  {
    sc.refills[sc.head]
  }

  /** `REFILL_TAIL`. */
  function Tail(sc: SchedContext): (r: Refill)
    requires Valid(sc)
    ensures r == Contents(sc)[Size(sc) - 1]
  {
    sc.refills[sc.tail]
  }

  /** Distinct positions of the queue are distinct entries of the storage. */
  lemma IdxInjective(sc: SchedContext, j: nat, k: nat)
    requires Valid(sc) && j < sc.max && k < sc.max && j != k
    ensures Idx(sc, j) != Idx(sc, k)
  {
  }

  /** `refill_single` holds exactly when the queue holds one refill. */
  lemma SingleIffOne(sc: SchedContext)
    requires Valid(sc)
    ensures Single(sc) <==> Size(sc) == 1
  {
  }

  // ---------------------------------------------------------------------
  // Sum and order

  /** `refill_sum` over a sequence of refills. */
  function Sum(s: seq<Refill>): nat
  {
    if |s| == 0 then 0 else s[0].rAmount + Sum(s[1..])
  }

  /** `refill_ordered`: release times never decrease from head to tail. */
  predicate Ordered(s: seq<Refill>)
  {
    forall i, j :: 0 <= i < j < |s| ==> s[i].rTime <= s[j].rTime
  }

  /** Every refill carries some budget. */
  predicate AllPositive(s: seq<Refill>)
  {
    forall i :: 0 <= i < |s| ==> s[i].rAmount > 0
  }

  lemma {:induction false} SumAppend(s: seq<Refill>, x: Refill)
    ensures Sum(s + [x]) == Sum(s) + x.rAmount
  {
    if |s| == 0 {
      assert s + [x] == [x];
    } else {
      assert (s + [x])[1..] == s[1..] + [x];
      SumAppend(s[1..], x);
    }
  }

  /** The sum splits over the first refill and the rest. */
  lemma SumFront(s: seq<Refill>)
    requires |s| > 0
    ensures Sum(s) == s[0].rAmount + Sum(s[1..])
  {
  }

  /** The sum splits over the last refill and the rest. */
  lemma SumBack(s: seq<Refill>)
    requires |s| > 0
    ensures Sum(s) == Sum(s[..|s| - 1]) + s[|s| - 1].rAmount
  {
    SumAppend(s[..|s| - 1], s[|s| - 1]);
    assert s[..|s| - 1] + [s[|s| - 1]] == s;
  }

  // ---------------------------------------------------------------------
  // Primitive updates, each stated on the contents

  /** `refill_pop_head`: asserts more than one refill; returns the head and advances past it. */
  function PopHead(sc: SchedContext): (r: (SchedContext, Refill))
    requires Valid(sc) && !Single(sc)
    ensures Valid(r.0) && r.0.max == sc.max && r.0.period == sc.period && r.0.tail == sc.tail && |r.0.refills| == |sc.refills|
    ensures Size(r.0) == Size(sc) - 1
    ensures r.1 == Contents(sc)[0]
    ensures Contents(r.0) == Contents(sc)[1..]
  {
    var sc' := sc.(head := RefillNext(sc, sc.head));
    assert forall k :: 0 <= k < Size(sc') ==> Idx(sc', k) == Idx(sc, k + 1);
    (sc', Head(sc))
  }

  /** `refill_add_tail`: asserts room; the refill becomes the new tail. */
  function AddTail(sc: SchedContext, x: Refill): (r: SchedContext)
    requires Valid(sc) && Size(sc) < sc.max
    ensures Valid(r) && r.max == sc.max && r.period == sc.period && r.head == sc.head && |r.refills| == |sc.refills|
    ensures Size(r) == Size(sc) + 1
    ensures Contents(r) == Contents(sc) + [x]
  {
    var t := RefillNext(sc, sc.tail);
    var r := sc.(tail := t, refills := sc.refills[t := x]);
    assert Size(r) == Size(sc) + 1;
    forall k | 0 <= k < Size(sc)
      ensures Contents(r)[k] == Contents(sc)[k]
    {
      assert Idx(r, k) == Idx(sc, k);
      IdxInjective(r, k, Size(sc));
    }
    r
  }

  /** `REFILL_HEAD(sc) = x`. */
  function SetHead(sc: SchedContext, x: Refill): (r: SchedContext)
    requires Valid(sc)
    ensures Valid(r) && r.max == sc.max && r.period == sc.period && r.head == sc.head && r.tail == sc.tail && |r.refills| == |sc.refills|
    ensures Contents(r) == [x] + Contents(sc)[1..]
  {
    var r := sc.(refills := sc.refills[sc.head := x]);
    forall k | 0 < k < Size(sc)
      ensures Contents(r)[k] == Contents(sc)[k]
    {
      IdxInjective(sc, 0, k);
    }
    r
  }

  /** `REFILL_TAIL(sc) = x`. */
  function SetTail(sc: SchedContext, x: Refill): (r: SchedContext)
    requires Valid(sc)
    ensures Valid(r) && r.max == sc.max && r.period == sc.period && r.head == sc.head && r.tail == sc.tail && |r.refills| == |sc.refills|
    ensures Contents(r) == Contents(sc)[..Size(sc) - 1] + [x]
  {
    var r := sc.(refills := sc.refills[sc.tail := x]);
    forall k | 0 <= k < Size(sc) - 1
      ensures Contents(r)[k] == Contents(sc)[k]
    {
      IdxInjective(sc, k, Size(sc) - 1);
    }
    r
  }

  // ---------------------------------------------------------------------
  // Order and sum under the primitive updates

  lemma OrderedRest(s: seq<Refill>)
    requires Ordered(s) && |s| > 0
    ensures Ordered(s[1..])
  {
  }

  lemma OrderedPrefix(s: seq<Refill>, n: nat)
    requires Ordered(s) && n <= |s|
    ensures Ordered(s[..n])
  {
  }

  /** A refill no later than an ordered queue's head may go in front of it. */
  lemma OrderedCons(x: Refill, s: seq<Refill>)
    requires Ordered(s)
    requires |s| > 0 ==> x.rTime <= s[0].rTime
    ensures Ordered([x] + s)
  {
  }

  /** A refill no earlier than an ordered queue's tail may go behind it. */
  lemma OrderedSnoc(s: seq<Refill>, x: Refill)
    requires Ordered(s)
    requires |s| > 0 ==> s[|s| - 1].rTime <= x.rTime
    ensures Ordered(s + [x])
  {
  }

  // ---------------------------------------------------------------------
  // Readiness and capacity

  /** `refill_ready`: the head may be used within one kernel entry of `now`. */
  predicate Ready(sc: SchedContext, now: nat)
    requires Valid(sc)
  {
    Head(sc).rTime <= now + KERNEL_WCET_TICKS
  }

  /** `refill_capacity`: what is left of the head after `usage`, never below zero. */
  function Capacity(sc: SchedContext, usage: nat): (c: nat)
    requires Valid(sc)
    ensures c <= Head(sc).rAmount
    ensures c > 0 <==> usage < Head(sc).rAmount
    ensures c > 0 ==> c + usage == Head(sc).rAmount
  {
    if usage > Head(sc).rAmount then 0 else Head(sc).rAmount - usage
  }

  // ---------------------------------------------------------------------
  // refill_new and refill_update

  /**
   * `maybe_add_empty_tail`: a round-robin context gets an empty refill
   * behind the head, released at `at`, to track the time it uses.
   */
  function MaybeAddEmptyTail(sc: SchedContext, at: nat): (r: SchedContext)
    requires Valid(sc)
    requires IsRoundRobin(sc) ==> Size(sc) < sc.max
    ensures Valid(r) && r.max == sc.max && r.period == sc.period && |r.refills| == |sc.refills|
    ensures Contents(r) == Contents(sc) + (if IsRoundRobin(sc) then [Refill(at, 0)] else [])
  {
    if IsRoundRobin(sc) then AddTail(sc, Refill(at, 0)) else sc
  }

  /**
   * `refill_new(sc, max_refills, budget, period)`: start afresh with the
   * whole budget available at `now`.  Asserts `budget > MIN_BUDGET`;
   * a round-robin context needs room for its empty tail.
   */
  function RefillNew(sc: SchedContext, maxRefills: nat, budget: nat, period: nat, now: nat): (r: SchedContext)
    requires 0 < maxRefills <= |sc.refills|
    requires budget > MIN_BUDGET
    requires period == 0 ==> maxRefills >= MIN_REFILLS
    ensures Valid(r) && r.max == maxRefills && r.period == period
    ensures Contents(r) == [Refill(now, budget)] + (if period == 0 then [Refill(now, 0)] else [])
    ensures Sum(Contents(r)) == budget
    ensures Ordered(Contents(r))
    ensures IsRoundRobin(r) ==> Size(r) == MIN_REFILLS
  {
    var s := SchedContext(period, 0, 0, maxRefills, sc.refills[0 := Refill(now, budget)]);
    assert Contents(s) == [Refill(now, budget)];
    var r := MaybeAddEmptyTail(s, now);
    assert Sum(Contents(r)) == budget by {
      if period == 0 {
        SumAppend([Refill(now, budget)], Refill(now, 0));
      }
    }
    r
  }

  /**
   * `refill_update` with the release time of the round-robin empty tail
   * as a choice: the kernel uses the current time (`emptyTailAtHead`
   * false); the head's release time keeps the queue ordered.
   */
  function RefillUpdateWith(sc: SchedContext, newPeriod: nat, newBudget: nat, newMax: nat, now: nat, emptyTailAtHead: bool): (r: SchedContext)
    requires Valid(sc)
    requires 0 < newMax <= |sc.refills|
    requires Head(sc).rAmount < newBudget || newPeriod == 0 ==> newMax >= MIN_REFILLS
    ensures Valid(r) && r.max == newMax && r.period == newPeriod && r.head == 0
    ensures Sum(Contents(r)) == newBudget
    ensures Head(r).rAmount == if Head(sc).rAmount < newBudget then Head(sc).rAmount else newBudget
    ensures Head(r).rTime == if Head(sc).rTime <= now + KERNEL_WCET_TICKS then now else Head(sc).rTime
    ensures Size(r) <= MIN_REFILLS
  {
    var s0 := SchedContext(newPeriod, 0, 0, newMax, sc.refills[0 := Head(sc)]);
    assert Contents(s0) == [Head(sc)];
    var s1 := if Ready(s0, now) then SetHead(s0, Head(s0).(rTime := now)) else s0;
    var h := Head(s1);
    assert Contents(s1) == [h];
    if h.rAmount >= newBudget then
      var s2 := SetHead(s1, h.(rAmount := newBudget));
      var r := MaybeAddEmptyTail(s2, if emptyTailAtHead then h.rTime else now);
      assert Sum(Contents(r)) == newBudget by {
        if IsRoundRobin(s2) {
          SumAppend(Contents(s2), Refill(if emptyTailAtHead then h.rTime else now, 0));
        }
      }
      r
    else
      var r := AddTail(s1, Refill(h.rTime + newPeriod, newBudget - h.rAmount));
      SumAppend(Contents(s1), Refill(h.rTime + newPeriod, newBudget - h.rAmount));
      r
  }

  /** `refill_update` as the kernel has it: the empty tail is released now. */
  function RefillUpdateAsWritten(sc: SchedContext, newPeriod: nat, newBudget: nat, newMax: nat, now: nat): (r: SchedContext)
    requires Valid(sc)
    requires 0 < newMax <= |sc.refills|
    requires Head(sc).rAmount < newBudget || newPeriod == 0 ==> newMax >= MIN_REFILLS
    ensures Valid(r) && Sum(Contents(r)) == newBudget
    ensures Ordered(Contents(r)) || (newPeriod == 0 && !Ready(sc, now))
  {
    var r := RefillUpdateWith(sc, newPeriod, newBudget, newMax, now, false);
    assert Size(r) == 2 ==> Contents(r)[0] == Head(r) && Contents(r)[1] == Tail(r);
    r
  }

  /**
   * `refill_update`: truncate to the head, take the new period and size,
   * and make the refills add up to the new budget, either by trimming the
   * head or by scheduling the rest one period after it.  The empty tail of
   * a round-robin context is released with the head.
   */
  function RefillUpdate(sc: SchedContext, newPeriod: nat, newBudget: nat, newMax: nat, now: nat): (r: SchedContext)
    requires Valid(sc)
    requires 0 < newMax <= |sc.refills|
    requires Head(sc).rAmount < newBudget || newPeriod == 0 ==> newMax >= MIN_REFILLS
    ensures Valid(r) && Sum(Contents(r)) == newBudget && r.max == newMax && r.period == newPeriod
    ensures Ordered(Contents(r))
  {
    var r := RefillUpdateWith(sc, newPeriod, newBudget, newMax, now, true);
    assert Size(r) == 2 ==> Contents(r)[0] == Head(r) && Contents(r)[1] == Tail(r);
    r
  }

  /**
   * A throttled thread whose context is reconfigured as round robin: its
   * head is not ready, so it keeps its future release time, and the empty
   * tail is released now, before it.  `REFILL_SANITY_CHECK` fails.
   */
  lemma UpdateUnorderedWhenThrottled()
    ensures !Ordered(Contents(RefillUpdateAsWritten(
      SchedContext(10, 0, 0, 2, [Refill(100, 50), Refill(0, 0)]), 0, 30, 2, 0)))
  {
    var sc := SchedContext(10, 0, 0, 2, [Refill(100, 50), Refill(0, 0)]);
    var r := RefillUpdateWith(sc, 0, 30, 2, 0, false);
    assert Head(r).rTime == 100;
    assert Contents(r) == Contents(SetHead(SchedContext(0, 0, 0, 2, sc.refills[0 := Head(sc)]), Refill(100, 30))) + [Refill(0, 0)];
    assert Contents(r)[1].rTime == 0;
  }

  // ---------------------------------------------------------------------
  // Sum, order and positivity when one end of the queue changes

  /** Replacing the last refill by `y`. */
  lemma ReplaceLast(c: seq<Refill>, y: Refill)
    requires |c| > 0
    ensures Sum(c[..|c| - 1] + [y]) + c[|c| - 1].rAmount == Sum(c) + y.rAmount
    ensures Ordered(c) && c[|c| - 1].rTime <= y.rTime ==> Ordered(c[..|c| - 1] + [y])
    ensures AllPositive(c) && y.rAmount > 0 ==> AllPositive(c[..|c| - 1] + [y])
  {
    SumBack(c);
    SumAppend(c[..|c| - 1], y);
    if Ordered(c) && c[|c| - 1].rTime <= y.rTime {
      OrderedPrefix(c, |c| - 1);
      OrderedSnoc(c[..|c| - 1], y);
    }
  }

  /** Appending `y`. */
  lemma Append(c: seq<Refill>, y: Refill)
    requires |c| > 0
    ensures Sum(c + [y]) == Sum(c) + y.rAmount
    ensures Ordered(c) && c[|c| - 1].rTime <= y.rTime ==> Ordered(c + [y])
    ensures AllPositive(c) && y.rAmount > 0 ==> AllPositive(c + [y])
  {
    SumAppend(c, y);
    if Ordered(c) && c[|c| - 1].rTime <= y.rTime {
      OrderedSnoc(c, y);
    }
  }

  /** Replacing the first refill by `y`. */
  lemma ReplaceFirst(c: seq<Refill>, y: Refill)
    requires |c| > 0
    ensures Sum([y] + c[1..]) + c[0].rAmount == Sum(c) + y.rAmount
    ensures Ordered(c) && y.rTime <= c[0].rTime ==> Ordered([y] + c[1..])
    ensures AllPositive(c) && y.rAmount > 0 ==> AllPositive([y] + c[1..])
    ensures ([y] + c[1..])[1..] == c[1..]
  {
    SumFront(c);
    SumFront([y] + c[1..]);
    assert ([y] + c[1..])[1..] == c[1..];
    if Ordered(c) && y.rTime <= c[0].rTime {
      OrderedRest(c);
      OrderedCons(y, c[1..]);
    }
  }

  /** Dropping the first refill and adding its amount to the next. */
  lemma FoldFirst(c: seq<Refill>, y: Refill)
    requires |c| > 1 && y.rAmount == c[1].rAmount + c[0].rAmount
    ensures Sum([y] + c[2..]) == Sum(c)
    ensures Ordered(c) && y.rTime <= c[1].rTime ==> Ordered([y] + c[2..])
    ensures AllPositive(c) ==> AllPositive([y] + c[2..])
  {
    SumFront(c);
    ReplaceFirst(c[1..], y);
    assert c[1..][1..] == c[2..];
    if Ordered(c) {
      OrderedRest(c);
    }
  }

  // ---------------------------------------------------------------------
  // schedule_used

  /** Whether `schedule_used` folds `x` into the tail rather than appending it. */
  predicate MergesIntoTail(sc: SchedContext, x: Refill)
    requires Valid(sc)
  {
    (x.rAmount < MIN_BUDGET && !Single(sc)) || x.rTime <= Tail(sc).rTime
  }

  function MaxTime(a: nat, b: nat): (m: nat)
    ensures a <= m && b <= m && (m == a || m == b)
  {
    if a < b then b else a
  }

  /**
   * `schedule_used(sc, new)`: return used budget to the queue.  Too small
   * an amount, or one released no later than the tail, joins the tail;
   * otherwise it becomes a new tail, for which there must be room.
   */
  function ScheduleUsed(sc: SchedContext, x: Refill): (r: SchedContext)
    requires Valid(sc)
    requires !MergesIntoTail(sc, x) ==> Size(sc) < sc.max
    ensures Valid(r) && r.max == sc.max && r.period == sc.period && r.head == sc.head && |r.refills| == |sc.refills|
    ensures Sum(Contents(r)) == Sum(Contents(sc)) + x.rAmount
    ensures Ordered(Contents(sc)) ==> Ordered(Contents(r))
    ensures AllPositive(Contents(sc)) && x.rAmount > 0 ==> AllPositive(Contents(r))
    ensures MergesIntoTail(sc, x) ==> Size(r) == Size(sc) && Contents(r)[..Size(sc) - 1] == Contents(sc)[..Size(sc) - 1]
    ensures !MergesIntoTail(sc, x) ==> Contents(r) == Contents(sc) + [x]
    ensures Tail(r).rTime >= x.rTime
  {
    var t := Tail(sc);
    if MergesIntoTail(sc, x) then
      var y := Refill(if x.rAmount < MIN_BUDGET && !Single(sc) then MaxTime(x.rTime, t.rTime) else t.rTime, t.rAmount + x.rAmount);
      ReplaceLast(Contents(sc), y);
      SetTail(sc, y)
    else
      Append(Contents(sc), x);
      AddTail(sc, x)
  }

  // ---------------------------------------------------------------------
  // refill_split_check

  /** The remnant of the head joins the next refill (the pop branch of `refill_split_check`). */
  function FoldRemnant(sc: SchedContext, remnant: nat): (r: SchedContext)
    requires Valid(sc) && !Single(sc)
    ensures Valid(r) && r.max == sc.max && r.period == sc.period && |r.refills| == |sc.refills|
    ensures Size(r) == Size(sc) - 1
    ensures Sum(Contents(r)) + Head(sc).rAmount == Sum(Contents(sc)) + remnant
    ensures Ordered(Contents(sc)) ==> Ordered(Contents(r))
    ensures AllPositive(Contents(sc)) ==> AllPositive(Contents(r))
  {
    var c := Contents(sc);
    var p := PopHead(sc).0;
    var h1 := Head(p);
    SumFront(c);
    ReplaceFirst(c[1..], h1.(rAmount := h1.rAmount + remnant));
    if Ordered(c) then OrderedRest(c); SetHead(p, h1.(rAmount := h1.rAmount + remnant))
    else SetHead(p, h1.(rAmount := h1.rAmount + remnant))
  }

  /**
   * `refill_split_check(usage)`: charge `usage` of the head.  The used part
   * is scheduled one period after the head's release; the remnant stays as
   * the head, or joins the next refill when it is too small or the queue is
   * full.  Asserts `0 < usage <= head amount` and a non-zero period.
   */
  function SplitCheck(sc: SchedContext, usage: nat): (r: SchedContext)
    requires Valid(sc) && sc.period > 0
    requires 0 < usage <= Head(sc).rAmount
    ensures Valid(r) && r.max == sc.max && r.period == sc.period && |r.refills| == |sc.refills|
    ensures Sum(Contents(r)) == Sum(Contents(sc))
    ensures Ordered(Contents(sc)) ==> Ordered(Contents(r))
    ensures AllPositive(Contents(sc)) ==> AllPositive(Contents(r))
  {
    var h := Head(sc);
    var remnant := h.rAmount - usage;
    var used := Refill(h.rTime + sc.period, usage);
    if Size(sc) == sc.max || remnant < MIN_BUDGET then
      if Single(sc) then
        ReplaceFirst(Contents(sc), used.(rAmount := usage + remnant));
        SingleIffOne(sc);
        SetHead(sc, used.(rAmount := usage + remnant))
      else
        ScheduleUsed(FoldRemnant(sc, remnant), used)
    else
      ReplaceFirst(Contents(sc), h.(rAmount := remnant));
      ScheduleUsed(SetHead(sc, h.(rAmount := remnant)), used)
  }

  // ---------------------------------------------------------------------
  // refill_unblock_check

  /**
   * The merge loop of `refill_unblock_check`: while the next refill is
   * released by the time the head's amount would run out from `now`, fold
   * the head into it and release the result now.
   */
  function MergeReady(sc: SchedContext, now: nat): (r: SchedContext)
    requires Valid(sc) && Head(sc).rTime == now
    ensures Valid(r) && r.max == sc.max && r.period == sc.period && |r.refills| == |sc.refills|
    ensures Sum(Contents(r)) == Sum(Contents(sc))
    ensures Ordered(Contents(sc)[1..]) ==> Ordered(Contents(r))
    ensures Head(r).rTime == now
    ensures Single(r) || Contents(r)[1].rTime > now + Head(r).rAmount
    decreases Size(sc)
  {
    if Single(sc) then
      SingleIffOne(sc);
      sc
    else
      var amount := Head(sc).rAmount;
      var c := Contents(sc);
      assert sc.refills[RefillNext(sc, sc.head)] == c[1] by {
        assert Idx(sc, 1) == RefillNext(sc, sc.head);
      }
      if sc.refills[RefillNext(sc, sc.head)].rTime <= now + amount then
        var p := PopHead(sc).0;
        var h1 := Head(p);
        var p1 := SetHead(p, Refill(now, h1.rAmount + amount));
        SumFront(c);
        SumFront(Contents(p));
        SumFront(Contents(p1));
        assert Contents(p1)[1..] == c[2..];
        assert Ordered(c[1..]) ==> Ordered(Contents(p1)[1..]) by {
          if Ordered(c[1..]) {
            OrderedRest(c[1..]);
            assert c[1..][1..] == c[2..];
          }
        }
        MergeReady(p1, now)
      else
        SingleIffOne(sc);
        assert Ordered(c[1..]) ==> Ordered(c) by {
          if Ordered(c[1..]) {
            OrderedCons(c[0], c[1..]);
            assert [c[0]] + c[1..] == c;
          }
        }
        sc
  }

  /**
   * `refill_unblock_check(sc)`: nothing for a round-robin context.  A
   * ready head is released now, the refills already available are merged
   * into it, and the timer must be reprogrammed.  Returns the context and
   * whether `ksReprogram` was set.
   */
  function UnblockCheck(sc: SchedContext, now: nat): (r: (SchedContext, bool))
    requires Valid(sc)
    ensures Valid(r.0) && r.0.max == sc.max && r.0.period == sc.period && |r.0.refills| == |sc.refills|
    ensures IsRoundRobin(sc) || !Ready(sc, now) ==> r == (sc, false)
    ensures !IsRoundRobin(sc) && Ready(sc, now) ==> r.1 && Head(r.0).rTime == now
    ensures Sum(Contents(r.0)) == Sum(Contents(sc))
    ensures Ordered(Contents(sc)) ==> Ordered(Contents(r.0))
  {
    if IsRoundRobin(sc) then (sc, false)
    else if Ready(sc, now) then
      var c := Contents(sc);
      var s1 := SetHead(sc, Head(sc).(rTime := now));
      SumFront(c);
      SumFront(Contents(s1));
      assert Contents(s1)[1..] == c[1..];
      assert Ordered(c) ==> Ordered(c[1..]) by {
        if Ordered(c) {
          OrderedRest(c);
        }
      }
      (MergeReady(s1, now), true)
    else (sc, false)
  }

  // ---------------------------------------------------------------------
  // refill_budget_check

  /**
   * The first loop of `refill_budget_check`: while the head does not cover
   * the usage, charge all of it and reschedule it one period on.  Every
   * refill carrying budget is what makes the usage fall each time round.
   * Returns the queue and the usage left over.
   *
   * `AllPositive` is not checked by the C at this call: it is the invariant
   * of a sporadic context's queue.  `RefillNew` starts the queue with one
   * refill of more than `MIN_BUDGET` when the period is non-zero, and
   * `ScheduleUsed`, `FoldRemnant`, `SplitCheck`, `MergeReady` and this loop
   * each state that they keep it.
   */
  function Exhaust(sc: SchedContext, usage: nat): (r: (SchedContext, nat))
    requires Valid(sc) && sc.period > 0 && AllPositive(Contents(sc))
    ensures Valid(r.0) && r.0.max == sc.max && r.0.period == sc.period && |r.0.refills| == |sc.refills|
    ensures Sum(Contents(r.0)) == Sum(Contents(sc))
    ensures AllPositive(Contents(r.0))
    ensures r.1 <= usage && r.1 < Head(r.0).rAmount
    decreases usage
  {
    var h := Head(sc);
    if h.rAmount <= usage then
      Exhaust(ChargeHead(sc), usage - h.rAmount)
    else
      (sc, usage)
  }

  /** One round of that loop: the whole head is used and released again one period later. */
  function ChargeHead(sc: SchedContext): (r: SchedContext)
    requires Valid(sc) && sc.period > 0 && AllPositive(Contents(sc))
    ensures Valid(r) && r.max == sc.max && r.period == sc.period && |r.refills| == |sc.refills|
    ensures Sum(Contents(r)) == Sum(Contents(sc))
    ensures AllPositive(Contents(r))
  {
    var h := Head(sc);
    if Single(sc) then
      SingleIffOne(sc);
      ReplaceFirst(Contents(sc), h.(rTime := h.rTime + sc.period));
      SetHead(sc, h.(rTime := h.rTime + sc.period))
    else
      var p := PopHead(sc).0;
      SumFront(Contents(sc));
      ScheduleUsed(p, h.(rTime := h.rTime + sc.period))
  }

  /**
   * The overrun step of `refill_budget_check`: usage left over delays the
   * head, which is merged with the next refill when the two now overlap.
   */
  function Overrun(sc: SchedContext, usage: nat): (r: SchedContext)
    requires Valid(sc)
    ensures Valid(r) && r.max == sc.max && r.period == sc.period && |r.refills| == |sc.refills|
    ensures Sum(Contents(r)) == Sum(Contents(sc))
    ensures AllPositive(Contents(sc)) ==> AllPositive(Contents(r))
    ensures usage == 0 ==> r == sc
  {
    if usage == 0 then sc
    else
      var h := Head(sc);
      var s1 := SetHead(sc, h.(rTime := h.rTime + usage));
      ReplaceFirst(Contents(sc), h.(rTime := h.rTime + usage));
      var h1 := Head(s1);
      if !Single(s1) && h1.rTime + h1.rAmount >= s1.refills[RefillNext(s1, s1.head)].rTime then
        var p := PopHead(s1).0;
        var n := Head(p);
        var c := Contents(s1);
        assert Contents(p) == c[1..];
        FoldFirst(c, Refill(h1.rTime, n.rAmount + h1.rAmount));
        assert [Refill(h1.rTime, n.rAmount + h1.rAmount)] + c[1..][1..] == [Refill(h1.rTime, n.rAmount + h1.rAmount)] + c[2..];
        SetHead(p, Refill(h1.rTime, n.rAmount + h1.rAmount))
      else
        s1
  }

  /**
   * The last loop of `refill_budget_check`: fold the head into the next
   * refill until it holds at least `MIN_BUDGET` and the queue has room.  It
   * ends because the refills add up to at least `MIN_BUDGET` and a single
   * refill never fills a queue of `MIN_REFILLS`.
   */
  function FixHead(sc: SchedContext): (r: SchedContext)
    requires Valid(sc) && sc.max >= MIN_REFILLS && Sum(Contents(sc)) >= MIN_BUDGET
    ensures Valid(r) && r.max == sc.max && r.period == sc.period && |r.refills| == |sc.refills|
    ensures Sum(Contents(r)) == Sum(Contents(sc))
    ensures Head(r).rAmount >= MIN_BUDGET && !Full(r)
    ensures AllPositive(Contents(sc)) ==> AllPositive(Contents(r))
    decreases Size(sc)
  {
    var h := Head(sc);
    SingleIffOne(sc);
    SingleSum(sc);
    if h.rAmount < MIN_BUDGET || Full(sc) then
      var p := PopHead(sc).0;
      var n := Head(p);
      var c := Contents(sc);
      FoldFirst(c, n.(rAmount := n.rAmount + h.rAmount));
      assert Contents(p) == c[1..];
      assert [n.(rAmount := n.rAmount + h.rAmount)] + c[1..][1..] == [n.(rAmount := n.rAmount + h.rAmount)] + c[2..];
      FixHead(SetHead(p, n.(rAmount := n.rAmount + h.rAmount)))
    else
      sc
  }

  /** A single refill holds the whole sum. */
  lemma SingleSum(sc: SchedContext)
    requires Valid(sc)
    ensures Single(sc) ==> Sum(Contents(sc)) == Head(sc).rAmount
  {
    if Single(sc) {
      SingleIffOne(sc);
      SumFront(Contents(sc));
      assert Contents(sc)[1..] == [];
    }
  }

  /** The charge made before the final loop; `None` when `refill_split_check`'s `usage > 0` assertion would fail. */
  function BudgetCharge(sc: SchedContext, usage: nat, capacity: nat, now: nat, skipEmptySplit: bool): (r: Option<SchedContext>)
    requires Valid(sc) && sc.period > 0 && AllPositive(Contents(sc))
    ensures r.Some? ==> Valid(r.value) && r.value.max == sc.max && r.value.period == sc.period && |r.value.refills| == |sc.refills|
    ensures r.Some? ==> Sum(Contents(r.value)) == Sum(Contents(sc))
    ensures skipEmptySplit ==> r.Some?
  {
    var e := if capacity == 0 then Exhaust(sc, usage) else (sc, usage);
    var s1 := if capacity == 0 then Overrun(e.0, e.1) else sc;
    var u := e.1;
    if Capacity(s1, u) > 0 && Ready(s1, now) then
      if u > 0 then Some(SplitCheck(s1, u))
      else if skipEmptySplit then Some(s1)
      else None
    else Some(s1)
  }

  /**
   * `refill_budget_check(usage, capacity)` as the kernel has it.  When the
   * first loop uses up the usage exactly and the next refill is already
   * ready, `refill_split_check` is called with no usage and its assertion
   * fails; the model answers `None` there.
   */
  function BudgetCheckAsWritten(sc: SchedContext, usage: nat, capacity: nat, now: nat): (r: Option<SchedContext>)
    requires Valid(sc) && sc.period > 0
    requires capacity < MIN_BUDGET || Full(sc)
    requires AllPositive(Contents(sc)) && Sum(Contents(sc)) >= MIN_BUDGET && sc.max >= MIN_REFILLS
    ensures r.Some? ==> Valid(r.value) && Sum(Contents(r.value)) == Sum(Contents(sc))
    ensures r.Some? ==> Head(r.value).rAmount >= MIN_BUDGET && !Full(r.value)
  {
    var c := BudgetCharge(sc, usage, capacity, now, false);
    if c.Some? then Some(FixHead(c.value)) else None
  }

  /**
   * `refill_budget_check(usage, capacity)`: charge the usage to the
   * refills, splitting the head when budget is left, and make the head
   * large enough to run on with room in the queue.  The refills still add
   * up to the budget.  Nothing is split when no usage is left.
   */
  function BudgetCheck(sc: SchedContext, usage: nat, capacity: nat, now: nat): (r: SchedContext)
    requires Valid(sc) && sc.period > 0
    requires capacity < MIN_BUDGET || Full(sc)
    requires AllPositive(Contents(sc)) && Sum(Contents(sc)) >= MIN_BUDGET && sc.max >= MIN_REFILLS
    ensures Valid(r) && r.max == sc.max && r.period == sc.period
    ensures Sum(Contents(r)) == Sum(Contents(sc))
    ensures Head(r).rAmount >= MIN_BUDGET && !Full(r)
  {
    FixHead(BudgetCharge(sc, usage, capacity, now, true).value)
  }

  /**
   * Usage exactly equal to the head's amount, with the next refill ready:
   * the first loop leaves no usage, the new head has capacity and is ready,
   * and `refill_split_check(0)` would run.
   */
  lemma EmptySplitReached()
    ensures BudgetCheckAsWritten(SchedContext(100, 0, 1, 2, [Refill(0, 30), Refill(5, 30)]), 30, 0, 5).None?
  {
    var sc := SchedContext(100, 0, 1, 2, [Refill(0, 30), Refill(5, 30)]);
    assert Contents(sc) == [Refill(0, 30), Refill(5, 30)];
    var p := PopHead(sc).0;
    assert Contents(p) == [Refill(5, 30)];
    assert !MergesIntoTail(p, Refill(100, 30));
    var q := ScheduleUsed(p, Refill(100, 30));
    assert Contents(q) == [Refill(5, 30), Refill(100, 30)];
    assert Exhaust(sc, 30) == Exhaust(q, 0);
    assert Exhaust(q, 0) == (q, 0);
    assert Capacity(q, 0) == 30 && Ready(q, 5);
  }

  /**
   * The overrun merge gives the merged head the delayed head's release
   * time, which lies after the refill behind it when the first two refills
   * overlapped: the ordered queue [(1,100), (2,30), (3,30)] with an overrun
   * of 50 becomes [(51,130), (3,30)], out of order.
   */
  lemma OverrunUnorders()
    ensures var sc := SchedContext(1000, 0, 2, 4, [Refill(1, 100), Refill(2, 30), Refill(3, 30), Refill(0, 0)]);
            Ordered(Contents(sc)) && Contents(Overrun(sc, 50)) == [Refill(51, 130), Refill(3, 30)]
            && !Ordered(Contents(Overrun(sc, 50)))
  {
    var sc := SchedContext(1000, 0, 2, 4, [Refill(1, 100), Refill(2, 30), Refill(3, 30), Refill(0, 0)]);
    var c := Contents(sc);
    assert c == [Refill(1, 100), Refill(2, 30), Refill(3, 30)];
    OverrunContents(sc, 50);
    var o := Contents(Overrun(sc, 50));
    assert o == [Refill(51, 130)] + c[2..];
    assert o[0].rTime > o[1].rTime;
  }

  /**
   * The whole budget check on an ordered queue whose first two refills
   * overlap: charging 70 to [(0,20), (1,100), (2,30), (3,30)] with a period
   * of 1000 reschedules the first refill at 1000 and merges the next two
   * under the overrun, leaving [(51,130), (3,30), (1000,20)], out of order.
   */
  lemma BudgetCheckUnorders()
    ensures var sc := SchedContext(1000, 0, 3, 5, [Refill(0, 20), Refill(1, 100), Refill(2, 30), Refill(3, 30), Refill(0, 0)]);
            Ordered(Contents(sc)) && !Ordered(Contents(BudgetCheck(sc, 70, 0, 0)))
  {
    var sc := SchedContext(1000, 0, 3, 5, [Refill(0, 20), Refill(1, 100), Refill(2, 30), Refill(3, 30), Refill(0, 0)]);
    OverlappingStart(sc);
    var o := CheckSeventy(sc);
    MergedHeadSettled(o);
  }

  /** The starting queue of that example is ordered and meets the budget check's demands. */
  lemma OverlappingStart(sc: SchedContext)
    requires sc == SchedContext(1000, 0, 3, 5, [Refill(0, 20), Refill(1, 100), Refill(2, 30), Refill(3, 30), Refill(0, 0)])
    ensures Valid(sc) && AllPositive(Contents(sc)) && Sum(Contents(sc)) >= MIN_BUDGET
    ensures Ordered(Contents(sc))
  {
    assert Contents(sc) == [Refill(0, 20), Refill(1, 100), Refill(2, 30), Refill(3, 30)];
  }

  /** The budget check of that example ends with the charge's queue. */
  lemma CheckSeventy(sc: SchedContext) returns (o: SchedContext)
    requires sc == SchedContext(1000, 0, 3, 5, [Refill(0, 20), Refill(1, 100), Refill(2, 30), Refill(3, 30), Refill(0, 0)])
    ensures o == SchedContext(1000, 2, 4, 5, [Refill(0, 20), Refill(51, 100), Refill(51, 130), Refill(3, 30), Refill(1000, 20)])
    ensures Valid(sc) && AllPositive(Contents(sc)) && Sum(Contents(sc)) >= MIN_BUDGET && BudgetCheck(sc, 70, 0, 0) == o
  {
    OverlappingStart(sc);
    o := ChargeSeventy();
    MergedHeadSettled(o);
  }

  /** The queue that charge leaves needs no more folding, and its head is released after the refill behind it. */
  lemma MergedHeadSettled(o: SchedContext)
    requires o == SchedContext(1000, 2, 4, 5, [Refill(0, 20), Refill(51, 100), Refill(51, 130), Refill(3, 30), Refill(1000, 20)])
    ensures Valid(o) && Sum(Contents(o)) >= MIN_BUDGET && FixHead(o) == o
    ensures Contents(o)[0].rTime > Contents(o)[1].rTime
  {
    assert Size(o) == 3 && !Full(o);
    assert Contents(o) == [Refill(51, 130), Refill(3, 30), Refill(1000, 20)];
  }

  /** The charge of that example, before the final loop. */
  lemma ChargeSeventy() returns (o: SchedContext)
    ensures o == SchedContext(1000, 2, 4, 5, [Refill(0, 20), Refill(51, 100), Refill(51, 130), Refill(3, 30), Refill(1000, 20)])
    ensures BudgetCharge(SchedContext(1000, 0, 3, 5, [Refill(0, 20), Refill(1, 100), Refill(2, 30), Refill(3, 30), Refill(0, 0)]), 70, 0, 0, true) == Some(o)
  {
    var q := ExhaustSeventy();
    o := OverrunFifty(q);
    assert !Ready(o, 0);
  }

  /** The first loop of that example: the first refill is used up and rescheduled at 1000, and 50 is left. */
  lemma ExhaustSeventy() returns (q: SchedContext)
    ensures q == SchedContext(1000, 1, 4, 5, [Refill(0, 20), Refill(1, 100), Refill(2, 30), Refill(3, 30), Refill(1000, 20)])
    ensures Exhaust(SchedContext(1000, 0, 3, 5, [Refill(0, 20), Refill(1, 100), Refill(2, 30), Refill(3, 30), Refill(0, 0)]), 70) == (q, 50)
  {
    var sc := SchedContext(1000, 0, 3, 5, [Refill(0, 20), Refill(1, 100), Refill(2, 30), Refill(3, 30), Refill(0, 0)]);
    assert Contents(sc) == [Refill(0, 20), Refill(1, 100), Refill(2, 30), Refill(3, 30)];
    var p := PopHead(sc).0;
    assert Contents(p) == [Refill(1, 100), Refill(2, 30), Refill(3, 30)];
    assert !MergesIntoTail(p, Refill(1000, 20));
    q := SchedContext(1000, 1, 4, 5, [Refill(0, 20), Refill(1, 100), Refill(2, 30), Refill(3, 30), Refill(1000, 20)]);
    assert ScheduleUsed(p, Refill(1000, 20)) == q;
    assert ChargeHead(sc) == q;
    assert Exhaust(q, 50) == (q, 50);
  }

  /** The overrun of that example: the head is delayed to 51 and merged with the refill at 2. */
  lemma OverrunFifty(q: SchedContext) returns (o: SchedContext)
    requires q == SchedContext(1000, 1, 4, 5, [Refill(0, 20), Refill(1, 100), Refill(2, 30), Refill(3, 30), Refill(1000, 20)])
    ensures o == SchedContext(1000, 2, 4, 5, [Refill(0, 20), Refill(51, 100), Refill(51, 130), Refill(3, 30), Refill(1000, 20)])
    ensures Overrun(q, 50) == o
  {
    o := SchedContext(1000, 2, 4, 5, [Refill(0, 20), Refill(51, 100), Refill(51, 130), Refill(3, 30), Refill(1000, 20)]);
    var s1 := SetHead(q, Refill(51, 100));
    assert s1 == q.(refills := q.refills[1 := Refill(51, 100)]);
    assert !Single(s1) && RefillNext(s1, 1) == 2;
    var p := PopHead(s1).0;
    assert p == s1.(head := 2);
    assert Head(p) == Refill(2, 30);
    assert SetHead(p, Refill(51, 130)) == o;
  }

  /** The refills after an overrun of `usage > 0`: the delayed head, merged with the next refill when they overlap. */
  lemma OverrunContents(sc: SchedContext, usage: nat)
    requires Valid(sc) && usage > 0
    ensures var c := Contents(sc);
            var t := c[0].rTime + usage;
            if |c| > 1 && t + c[0].rAmount >= c[1].rTime
            then Contents(Overrun(sc, usage)) == [Refill(t, c[1].rAmount + c[0].rAmount)] + c[2..]
            else Contents(Overrun(sc, usage)) == [c[0].(rTime := t)] + c[1..]
  {
    var c := Contents(sc);
    var h := Head(sc);
    var s1 := SetHead(sc, h.(rTime := h.rTime + usage));
    SingleIffOne(s1);
    if !Single(s1) {
      NextIsSecond(s1);
      var p := PopHead(s1).0;
      assert Contents(p) == c[1..];
      assert c[1..][1..] == c[2..];
    }
  }

  /** Behind a head that is not alone comes the second refill of the contents. */
  lemma NextIsSecond(sc: SchedContext)
    requires Valid(sc) && !Single(sc)
    ensures Size(sc) > 1 && sc.refills[RefillNext(sc, sc.head)] == Contents(sc)[1]
  {
    SingleIffOne(sc);
    assert Idx(sc, 1) == RefillNext(sc, sc.head);
  }

  /**
   * When the head's budget runs out by the time the next refill is
   * released, an overrun smaller than the head keeps the queue ordered:
   * the delayed head, merged or not, is still released before the next
   * refill.
   */
  lemma OverrunKeepsOrder(sc: SchedContext, usage: nat)
    requires Valid(sc) && Ordered(Contents(sc)) && usage < Head(sc).rAmount
    requires Size(sc) > 1 ==> Contents(sc)[0].rTime + Contents(sc)[0].rAmount <= Contents(sc)[1].rTime
    ensures Ordered(Contents(Overrun(sc, usage)))
  {
    if usage > 0 {
      OverrunContents(sc, usage);
      DelayedHeadOrdered(Contents(sc), usage);
    }
  }

  /** The sequence half of `OverrunKeepsOrder`: the delayed head, merged or not, stays in front of the refills behind it. */
  lemma DelayedHeadOrdered(c: seq<Refill>, usage: nat)
    requires |c| > 0 && Ordered(c) && usage < c[0].rAmount
    requires |c| > 1 ==> c[0].rTime + c[0].rAmount <= c[1].rTime
    ensures var t := c[0].rTime + usage;
            if |c| > 1 && t + c[0].rAmount >= c[1].rTime
            then Ordered([Refill(t, c[1].rAmount + c[0].rAmount)] + c[2..])
            else Ordered([c[0].(rTime := t)] + c[1..])
  {
    var t := c[0].rTime + usage;
    if |c| > 1 {
      OrderedRest(c);
      if t + c[0].rAmount >= c[1].rTime {
        if |c| > 2 {
          OrderedRest(c[1..]);
          assert c[1..][1..] == c[2..];
        }
        OrderedCons(Refill(t, c[1].rAmount + c[0].rAmount), c[2..]);
      } else {
        OrderedCons(c[0].(rTime := t), c[1..]);
      }
    } else {
      OrderedCons(c[0].(rTime := t), c[1..]);
    }
  }
}
