/** Small datatypes shared by every module. */
module Prelude {
  datatype Option<+T> = None | Some(value: T)

  /** Some member of a set that is not empty. */
  ghost function Any<T>(all: set<T>): (x: T)
    requires |all| > 0
    ensures x in all
  {
    var x :| x in all;
    x
  }
}

/**
  What `priqueue_offer` and `priqueue_poll` do to the sequence of queued
  values, for any comparer, and what the comparer must satisfy for the queue
  to be a priority queue.
 */
module PriQueueModel {
  import opened Sequences

  /** `pre <= post` in the order a C comparer stands for. */
  ghost predicate TotalPreorder<T(!new)>(cmp: (T, T) -> int)
  {
    && (forall a, b :: cmp(a, b) < 0 <==> cmp(b, a) > 0)
    && (forall a, b, c :: cmp(a, b) <= 0 && cmp(b, c) <= 0 ==> cmp(a, c) <= 0)
  }

  ghost predicate Sorted<T>(cmp: (T, T) -> int, q: seq<T>)
  {
    forall i, j :: 0 <= i < j < |q| ==> cmp(q[i], q[j]) <= 0
  }

  /** Where the walk that has reached entry `i` splices the new entry in. */
  function WalkFrom<T>(cmp: (T, T) -> int, q: seq<T>, x: T, i: nat): (r: nat)
    requires i < |q|
    ensures i < r <= |q|
    decreases |q| - i
  {
    if i + 1 == |q| then i + 1
    else if cmp(q[i], x) <= 0 && cmp(x, q[i + 1]) < 0 then i + 1
    else WalkFrom(cmp, q, x, i + 1)
  }

  /** The index `priqueue_offer` returns. */
  function OfferIndex<T>(cmp: (T, T) -> int, q: seq<T>, x: T): (r: nat)
    ensures r <= |q|
  {
    if q == [] || cmp(x, q[0]) < 0 then 0 else WalkFrom(cmp, q, x, 0)
  }

  /** The queue after `priqueue_offer`. */
  function Offer<T>(cmp: (T, T) -> int, q: seq<T>, x: T): seq<T>
  {
    InsertAt(q, OfferIndex(cmp, q, x), x)
  }

  lemma BeforeTheRest<T(!new)>(cmp: (T, T) -> int, q: seq<T>, x: T, i: nat)
    requires TotalPreorder(cmp) && Sorted(cmp, q)
    requires i < |q| && cmp(x, q[i]) < 0
    ensures forall k :: i <= k < |q| ==> cmp(x, q[k]) < 0
  {
    forall k | i <= k < |q| ensures cmp(x, q[k]) < 0 {
      var a, b := q[i], q[k];
      assert i < k ==> cmp(a, b) <= 0;
      assert cmp(b, x) <= 0 ==> cmp(a, x) <= 0;
    }
  }

  lemma {:induction false} WalkSplits<T(!new)>(cmp: (T, T) -> int, q: seq<T>, x: T, i: nat)
    requires TotalPreorder(cmp) && Sorted(cmp, q)
    requires i < |q| && cmp(q[i], x) <= 0
    ensures forall k :: 0 <= k < WalkFrom(cmp, q, x, i) ==> cmp(q[k], x) <= 0
    ensures forall k :: WalkFrom(cmp, q, x, i) <= k < |q| ==> cmp(x, q[k]) < 0
    decreases |q| - i
  {
    forall k | 0 <= k <= i ensures cmp(q[k], x) <= 0 {
      if k < i { assert cmp(q[k], q[i]) <= 0; }
    }
    if i + 1 == |q| {
    } else if cmp(x, q[i + 1]) < 0 {
      BeforeTheRest(cmp, q, x, i + 1);
    } else {
      WalkSplits(cmp, q, x, i + 1);
    }
  }

  lemma OfferSplits<T(!new)>(cmp: (T, T) -> int, q: seq<T>, x: T)
    requires TotalPreorder(cmp) && Sorted(cmp, q)
    ensures var r := OfferIndex(cmp, q, x);
            && (forall k :: 0 <= k < r ==> cmp(q[k], x) <= 0)
            && (forall k :: r <= k < |q| ==> cmp(x, q[k]) < 0)
  {
    if q == [] {
    } else if cmp(x, q[0]) < 0 {
      BeforeTheRest(cmp, q, x, 0);
    } else {
      WalkSplits(cmp, q, x, 0);
    }
  }

  lemma InsertKeepsSorted<T(!new)>(cmp: (T, T) -> int, q: seq<T>, r: nat, x: T)
    requires TotalPreorder(cmp) && Sorted(cmp, q) && r <= |q|
    requires forall k :: 0 <= k < r ==> cmp(q[k], x) <= 0
    requires forall k :: r <= k < |q| ==> cmp(x, q[k]) <= 0
    ensures Sorted(cmp, InsertAt(q, r, x))
  {
    hide InsertAt;
    var o := InsertAt(q, r, x);
    InsertedAt(q, r, x);
    forall i, j | 0 <= i < j < |o| ensures cmp(o[i], o[j]) <= 0 {
      assert o[i] == if i < r then q[i] else if i == r then x else q[i - 1];
      assert o[j] == if j < r then q[j] else if j == r then x else q[j - 1];
    }
  }

  /**
    Stable sorted insertion: the new value lands after everything that does not
    exceed it and before everything that does, so the queue stays sorted, the
    others keep their order and equal values leave in the order they came.
   */
  lemma OfferIsStableInsertion<T(!new)>(cmp: (T, T) -> int, q: seq<T>, x: T)
    requires TotalPreorder(cmp) && Sorted(cmp, q)
    ensures var r := OfferIndex(cmp, q, x);
            && (forall k :: 0 <= k < r ==> cmp(q[k], x) <= 0)
            && (forall k :: r <= k < |q| ==> cmp(x, q[k]) < 0)
            && Offer(cmp, q, x)[r] == x
            && Offer(cmp, q, x)[..r] + Offer(cmp, q, x)[r + 1..] == q
    ensures Sorted(cmp, Offer(cmp, q, x))
  {
    hide InsertAt, OfferIndex, TotalPreorder;
    OfferSplits(cmp, q, x);
    var r := OfferIndex(cmp, q, x);
    InsertedAround(q, r, x);
    InsertedAt(q, r, x);
    InsertKeepsSorted(cmp, q, r, x);
  }

  /** The insertion point is the only one that keeps the queue sorted and stable. */
  lemma OfferIndexIsUnique<T(!new)>(cmp: (T, T) -> int, q: seq<T>, x: T, r: nat)
    requires TotalPreorder(cmp) && Sorted(cmp, q)
    requires r <= |q|
    requires forall k :: 0 <= k < r ==> cmp(q[k], x) <= 0
    requires forall k :: r <= k < |q| ==> cmp(x, q[k]) < 0
    ensures r == OfferIndex(cmp, q, x)
  {
    OfferSplits(cmp, q, x);
    var o := OfferIndex(cmp, q, x);
    var low := if r < o then r else o;
    if low < |q| {
      var a := q[low];
      assert cmp(x, a) < 0 ==> cmp(a, x) > 0;
    }
  }

  lemma {:induction false} WalkToTheTail<T>(cmp: (T, T) -> int, q: seq<T>, x: T, i: nat)
    requires i < |q|
    requires forall k :: i <= k < |q| ==> cmp(x, q[k]) >= 0
    ensures WalkFrom(cmp, q, x, i) == |q|
    decreases |q| - i
  {
    if i + 1 == |q| {
    } else {
      WalkToTheTail(cmp, q, x, i + 1);
    }
  }

  /** A value that goes before none of the queued ones is appended. */
  lemma OfferAppends<T>(cmp: (T, T) -> int, q: seq<T>, x: T)
    requires forall k :: 0 <= k < |q| ==> cmp(x, q[k]) >= 0
    ensures OfferIndex(cmp, q, x) == |q| && Offer(cmp, q, x) == q + [x]
  {
    if q != [] {
      WalkToTheTail(cmp, q, x, 0);
    }
  }

  // ---------- first come, first out ----------

  datatype QueueOp<T> = Put(x: T) | Take

  /** The values handed out by a history of offers and polls, oldest first. */
  function Taken<T>(cmp: (T, T) -> int, q: seq<T>, ops: seq<QueueOp<T>>): seq<T>
    decreases |ops|
  {
    if ops == [] then []
    else match ops[0]
      case Put(x) => Taken(cmp, Offer(cmp, q, x), ops[1..])
      case Take => if q == [] then Taken(cmp, q, ops[1..]) else [q[0]] + Taken(cmp, q[1..], ops[1..])
  }

  function Polls<T>(ops: seq<QueueOp<T>>): nat
    decreases |ops|
  {
    if ops == [] then 0 else (if ops[0].Take? then 1 else 0) + Polls(ops[1..])
  }

  /**
    Round robin waits its turn: with the comparer that always answers 1, an
    entry with `p` entries ahead of it is handed out by exactly the (p+1)-th
    poll that follows, whatever is offered in between.
   */
  lemma {:induction false} DispatchedAfterThoseAhead<T(!new)>(cmp: (T, T) -> int, q: seq<T>,
                                                              ops: seq<QueueOp<T>>, p: nat)
    requires forall a, b :: cmp(a, b) == 1
    requires p < |q|
    ensures p < Polls(ops) ==> p < |Taken(cmp, q, ops)| && Taken(cmp, q, ops)[p] == q[p]
    ensures Polls(ops) <= p ==> Taken(cmp, q, ops) == q[..Polls(ops)]
    decreases |ops|
  {
    if ops == [] {
    } else {
      match ops[0]
      case Put(x) =>
        OfferAppends(cmp, q, x);
        DispatchedAfterThoseAhead(cmp, q + [x], ops[1..], p);
      case Take =>
        if p == 0 {
        } else {
          DispatchedAfterThoseAhead(cmp, q[1..], ops[1..], p - 1);
          if Polls(ops) <= p {
            assert q[..Polls(ops)] == [q[0]] + q[1..][..Polls(ops) - 1];
          }
        }
    }
  }
}
