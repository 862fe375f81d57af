/**
 * The release queue of the MCS scheduler (`tcbReleaseEnqueue` in
 * `tcb.c`): threads whose budget is exhausted wait there, ordered by the
 * time their head refill becomes available.  The queue is the sequence
 * from `ksReleaseHead` along `tcbSchedNext`; each entry carries its
 * thread and that time.
 */
module ReleaseQueue {

  datatype Entry = Entry(tcb: nat, rTime: nat)

  /** Release times never decrease from the head. */
  predicate Sorted(q: seq<Entry>)
  {
    forall i, j :: 0 <= i < j < |q| ==> q[i].rTime <= q[j].rTime
  }

  /** No thread is queued twice (`tcbInReleaseQueue` is one flag per thread). */
  predicate Distinct(q: seq<Entry>)
  {
    forall i, j :: 0 <= i < j < |q| ==> q[i].tcb != q[j].tcb
  }

  /**
   * The place the walk picks, as a reference definition: in front of the
   * first entry due strictly later than `e`.
   */
  function Place(q: seq<Entry>, e: Entry): (r: seq<Entry>)
    ensures |r| == |q| + 1
    ensures multiset(r) == multiset(q) + multiset{e}
  {
    if q == [] || e.rTime < q[0].rTime then [e] + q
    else
      assert q == [q[0]] + q[1..];
      [q[0]] + Place(q[1..], e)
  }

  /** Where `Place` puts the new entry: after every entry not due later. */
  function PlaceIndex(q: seq<Entry>, e: Entry): (i: nat)
    ensures i <= |q|
    ensures forall j :: 0 <= j < i ==> q[j].rTime <= e.rTime
    ensures i < |q| ==> e.rTime < q[i].rTime
  {
    if q == [] || e.rTime < q[0].rTime then 0
    else 1 + PlaceIndex(q[1..], e)
  }

  /** The entries of `Place(q, e)`, position by position. */
  lemma {:induction false} PlaceAt(q: seq<Entry>, e: Entry, k: nat)
    requires k <= |q|
    ensures Place(q, e)[k] == if k < PlaceIndex(q, e) then q[k] else if k == PlaceIndex(q, e) then e else q[k - 1]
  {
    if q == [] || e.rTime < q[0].rTime {
    } else if k > 0 {
      PlaceAt(q[1..], e, k - 1);
    }
  }

  /** `Place` splits the queue at `PlaceIndex`. */
  lemma PlaceSplits(q: seq<Entry>, e: Entry)
    ensures Place(q, e) == q[..PlaceIndex(q, e)] + [e] + q[PlaceIndex(q, e)..]
  {
    var i := PlaceIndex(q, e);
    var r, s := Place(q, e), q[..i] + [e] + q[i..];
    forall k | 0 <= k < |r| ensures r[k] == s[k] {
      PlaceAt(q, e, k);
      if k < i { assert s[k] == q[..i][k]; }
      else if k > i { assert s[k] == q[i..][k - i - 1]; }
    }
    assert r == s;
  }

  /**
   * `tcbReleaseEnqueue`: the thread walks from the head past every entry
   * due no later than it, and is linked in there.  Inserting at the head
   * sets `ksReprogram`, because the earliest release time changed.
   */
  method ReleaseEnqueue(q: seq<Entry>, e: Entry, reprogram: bool) returns (q': seq<Entry>, reprogram': bool)
    requires forall i :: 0 <= i < |q| ==> q[i].tcb != e.tcb
    ensures q' == Place(q, e)
    ensures reprogram' == (reprogram || q'[0] == e)
    ensures reprogram' == (reprogram || q == [] || e.rTime < q[0].rTime)
  {
    var before := 0;
    while before < |q| && e.rTime >= q[before].rTime
      invariant before <= |q|
      invariant before <= PlaceIndex(q, e)
    {
      before := before + 1;
    }
    PlaceSplits(q, e);
    q' := q[..before] + [e] + q[before..];
    if before == 0 {
      reprogram' := true;
    } else {
      assert q'[0] == q[0] != e;
      reprogram' := reprogram;
    }
  }

  /** Placing keeps the queue sorted. */
  lemma PlaceKeepsSorted(q: seq<Entry>, e: Entry)
    requires Sorted(q)
    ensures Sorted(Place(q, e))
  {
    var r := Place(q, e);
    forall a, b | 0 <= a < b < |r| ensures r[a].rTime <= r[b].rTime {
      PlaceAt(q, e, a);
      PlaceAt(q, e, b);
    }
  }

  /** Placing a thread not yet queued keeps every thread queued at most once. */
  lemma PlaceKeepsDistinct(q: seq<Entry>, e: Entry)
    requires Distinct(q) && forall i :: 0 <= i < |q| ==> q[i].tcb != e.tcb
    ensures Distinct(Place(q, e))
  {
    var r := Place(q, e);
    forall a, b | 0 <= a < b < |r| ensures r[a].tcb != r[b].tcb {
      PlaceAt(q, e, a);
      PlaceAt(q, e, b);
    }
  }

  /** The new entry follows every entry due at the same time (first come, first released). */
  lemma PlaceAfterEqualTimes(q: seq<Entry>, e: Entry, j: nat)
    requires j < |q| && q[j].rTime == e.rTime && Sorted(q)
    ensures j < PlaceIndex(q, e)
  {
  }
}
