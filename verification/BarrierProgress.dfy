/**
  Every round of the barrier ends: between two changes of the generation only so
  many steps can be taken, other than spurious wake-ups, and one can always be taken.
 */
module BarrierProgress {
  import opened Prelude
  import opened BarrierModel
  import opened BarrierProofs

  /** How far a thread is from its next rest, in generation `g`. */
  function Rank(t: Thread, g: nat): nat
  {
    if t.arrived == g + 1 then
      match t.pc case Test => 6 case Bump => 5 case Waking => 4 case Check => 3 case Sleeping => 2 case _ => 0
    else
      match t.pc
      case Reset => 16 case Broadcast => 15 case Sleeping => 14 case Waking => 13 case Check => 12 case Unlocking => 11
      case Idle => 10 case Locking => 9 case Read => 8 case Increment => 7 case _ => 0
  }

  function Total(ts: seq<Thread>, g: nat): nat
  {
    if ts == [] then 0 else Rank(ts[0], g) + Total(ts[1..], g)
  }

  lemma {:induction false} TotalBound(ts: seq<Thread>, g: nat)
    ensures Total(ts, g) <= 16 * |ts|
  {
    if ts == [] {
    } else {
      TotalBound(ts[1..], g);
    }
  }

  lemma {:induction false} TotalUpdate(ts: seq<Thread>, i: nat, t: Thread, g: nat)
    requires i < |ts|
    ensures Total(ts[i := t], g) == Total(ts, g) - Rank(ts[i], g) + Rank(t, g)
  {
    if i == 0 {
      assert ts[0 := t][1..] == ts[1..];
    } else {
      assert ts[i := t][1..] == ts[1..][i - 1 := t];
      TotalUpdate(ts[1..], i - 1, t, g);
    }
  }

  lemma {:induction false} TotalWoken(ts: seq<Thread>, g: nat)
    requires forall k :: 0 <= k < |ts| ==> ts[k].arrived == g
    ensures Total(AllWoken(ts), g) <= Total(ts, g)
  {
    if ts == [] {
    } else {
      assert AllWoken(ts)[1..] == AllWoken(ts[1..]);
      TotalWoken(ts[1..], g);
    }
  }

  /** A thread's step brings the total down, unless it starts the next generation. */
  lemma ActCosts(s: State, i: nat)
    requires Inv(s) && i < |s.threads| && Next(s, i).Some?
    ensures var u := Next(s, i).value;
            if s.threads[i].pc == Bump then u.generation == s.generation + 1
            else u.generation == s.generation && Total(u.threads, s.generation) < Total(s.threads, s.generation)
  {
    hide Inv, Total, Rank;
    var u := Next(s, i).value;
    if s.threads[i].pc == Broadcast {
      BroadcastCosts(s, i);
    } else if s.threads[i].pc != Bump {
      assert u.threads == s.threads[i := u.threads[i]];
      TotalUpdate(s.threads, i, u.threads[i], s.generation);
      RankFalls(s, i);
    }
  }

  lemma BroadcastCosts(s: State, i: nat)
    requires Inv(s) && i < |s.threads| && s.threads[i].pc == Broadcast
    ensures Total(Next(s, i).value.threads, s.generation) < Total(s.threads, s.generation)
  {
    hide Inv, Total;
    var t, u, g := s.threads[i], Next(s, i).value, s.generation;
    AllCounted(s, i);
    TotalWoken(s.threads, g);
    assert AllWoken(s.threads)[i] == t;
    TotalUpdate(AllWoken(s.threads), i, u.threads[i], g);
  }

  lemma AllCounted(s: State, i: nat)
    requires Inv(s) && i < |s.threads| && s.threads[i].pc == Broadcast
    ensures forall k :: 0 <= k < |s.threads| ==> s.threads[k].arrived == s.generation
  {
    assert s.owner == Some(i);
    CountedIsWithin(s.threads, s.generation);
  }

  lemma RankFalls(s: State, i: nat)
    requires Inv(s) && i < |s.threads| && Next(s, i).Some? && s.threads[i].pc !in {Bump, Broadcast}
    ensures Rank(Next(s, i).value.threads[i], s.generation) < Rank(s.threads[i], s.generation)
  {
    if s.threads[i].pc in {Check, Waking} { WrapIsHarmless(s, i); }
  }

  /** A spurious wake-up brings it up by two at most. */
  lemma SpuriousCosts(s: State, i: nat)
    requires Inv(s) && Step(s, Spurious(i)).Some?
    ensures var u := Step(s, Spurious(i)).value;
            u.generation == s.generation && Total(u.threads, s.generation) <= Total(s.threads, s.generation) + 2
  {
    hide Inv, Total;
    TotalUpdate(s.threads, i, s.threads[i].(pc := Waking), s.generation);
  }

  /** How many of the first `k` events are steps of a thread. */
  function Acts(es: seq<Event>, k: nat): (a: nat)
    requires k <= |es|
    ensures a <= k
  {
    if k == 0 then 0 else Acts(es, k - 1) + if es[k - 1].Act? then 1 else 0
  }

  lemma {:induction false} BudgetKept(ss: seq<State>, es: seq<Event>, k: nat)
    requires IsRun(ss, es) && Inv(ss[0]) && k <= |es|
    ensures ss[0].generation <= ss[k].generation
    ensures ss[k].generation == ss[0].generation ==>
              Total(ss[k].threads, ss[0].generation) + Acts(es, k)
              <= Total(ss[0].threads, ss[0].generation) + 2 * (k - Acts(es, k))
  {
    if k == 0 {
    } else {
      BudgetKept(ss, es, k - 1);
      RunKeeps(ss, es, k - 1);
      var s, e := ss[k - 1], es[k - 1];
      assert Step(s, e) == Some(ss[k]);
      if e.Act? { ActCosts(s, e.thread); } else { SpuriousCosts(s, e.thread); }
    }
  }

  /**
    The barrier opens: a run in which the threads take more than sixteen steps
    each, and two for every spurious wake-up, has changed the generation.
   */
  lemma EveryRoundEnds(n: nat, ss: seq<State>, es: seq<Event>)
    requires IsRun(ss, es) && Reached(n, ss[0])
    requires Acts(es, |es|) > 16 * n + 2 * (|es| - Acts(es, |es|))
    ensures ss[|es|].generation > ss[0].generation
  {
    ReachedInv(n, ss[0]);
    BudgetKept(ss, es, |es|);
    TotalBound(ss[0].threads, ss[0].generation);
  }
}
