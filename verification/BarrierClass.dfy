/** barrier.c statement by statement: the struct, and what a scheduler makes the threads do to it. */
module BarrierClass {
  import opened Prelude
  import opened BarrierModel
  import opened BarrierProofs

  class Barrier {
    var nThreads: nat
    var count: nat
    var timesUsed: nat
    var owner: Option<nat>          // of the mutex
    var threads: seq<Thread>        // where the threads are
    ghost var generation: nat

    ghost function Now(): State
      reads this
    {
      State(nThreads, count, timesUsed, owner, threads, generation)
    }

    /** `barrier_init` */
    constructor (n: nat)
      ensures Now() == Init(n)
    {
      nThreads, count, timesUsed, owner := n, 0, 0, None;
      threads := seq(n, _ => Thread(Idle, 0, 0, 0));
      generation := 0;
    }

    method Goto(i: nat, pc: Pc)
      requires i < |threads|
      modifies this`threads
      ensures threads == old(threads)[i := old(threads[i]).(pc := pc)]
    {
      threads := threads[i := threads[i].(pc := pc)];
    }

    /** The mutex is taken if it is free. */
    method TryLock(i: nat) returns (ok: bool)
      modifies this`owner
      ensures ok == (old(owner) == None) && owner == if ok then Some(i) else old(owner)
    {
      ok := owner == None;
      if ok { owner := Some(i); }
    }

    /** The next statement of `barrier_wait` in thread `i`; false if the thread has to wait. */
    method Act(i: nat) returns (ok: bool)
      requires i < |threads|
      modifies this
      ensures ok == Next(old(Now()), i).Some? && Now() == if ok then Next(old(Now()), i).value else old(Now())
    {
      ok := true;
      match threads[i].pc
      case Idle => Goto(i, Locking);
      case Locking =>
        ok := TryLock(i);
        if ok { Goto(i, Read); }
      case Read =>
        threads := threads[i := threads[i].(pc := Increment, saved := timesUsed)];
      case Increment =>
        count := (count + 1) % UINT_RANGE;
        threads := threads[i := threads[i].(pc := Test, arrived := threads[i].arrived + 1)];
      case Test =>
        Goto(i, if count == nThreads then Bump else Check);
      case Bump | Reset | Broadcast => OpenUp(i);
      case Check =>
        if timesUsed == threads[i].saved {
          owner := None;
          Goto(i, Sleeping);
        } else {
          Goto(i, Unlocking);
        }
      case Sleeping => ok := false;
      case Waking =>
        ok := TryLock(i);
        if ok { Goto(i, Check); }
      case Unlocking =>
        owner := None;
        threads := threads[i := threads[i].(pc := Idle, returned := threads[i].returned + 1)];
    }

    /** The last thread to come opens the barrier: lines 31-34. */
    method OpenUp(i: nat)
      requires i < |threads| && threads[i].pc in {Bump, Reset, Broadcast}
      modifies this
      ensures Next(old(Now()), i) == Some(Now())
    {
      if threads[i].pc == Bump {
        timesUsed := (timesUsed + 1) % UINT_RANGE;
        generation := generation + 1;
        Goto(i, Reset);
      } else if threads[i].pc == Reset {
        count := 0;
        Goto(i, Broadcast);
      } else {
        WakeAll();
        Goto(i, Unlocking);
      }
    }

    /** `pthread_cond_broadcast` */
    method WakeAll()
      modifies this`threads
      ensures threads == AllWoken(old(threads))
    {
      var k := 0;
      while k < |threads|
        invariant k <= |threads| == |old(threads)|
        invariant forall l :: 0 <= l < |threads| ==>
                    threads[l] == if l < k then Woken(old(threads)[l]) else old(threads)[l]
      {
        if threads[k].pc == Sleeping { Goto(k, Waking); }
        k := k + 1;
      }
    }

    method WakeSpuriously(i: nat) returns (ok: bool)
      requires i < |threads|
      modifies this`threads
      ensures var s := Step(old(Now()), Spurious(i)); ok == s.Some? && Now() == if ok then s.value else old(Now())
    {
      ok := threads[i].pc == Sleeping;
      if ok { Goto(i, Waking); }
    }
  }

  /** Whatever the scheduler picks, the barrier is in a state that the theorems speak of. */
  method Run(n: nat, schedule: seq<Event>) returns (b: Barrier)
    requires n < UINT_RANGE && forall e :: e in schedule ==> e.thread < n
    ensures Reached(n, b.Now())
  {
    hide Next, Step, Init, AllWoken;
    b := new Barrier(n);
    ghost var ss, es := [b.Now()], [];
    assert |Init(n).threads| == n by { StartsWith(n); }
    var k := 0;
    while k < |schedule|
      invariant fresh(b) && k <= |schedule| && |b.threads| == n
      invariant IsRun(ss, es) && ss[0] == Init(n) && ss[|es|] == b.Now()
    {
      var ok;
      ghost var s := b.Now();
      if schedule[k].Act? {
        ok := b.Act(schedule[k].thread);
      } else {
        ok := b.WakeSpuriously(schedule[k].thread);
      }
      if ok {
        StepIs(s, schedule[k]);
        RunGrows(ss, es, schedule[k], b.Now());
        ss, es := ss + [b.Now()], es + [schedule[k]];
      }
      k := k + 1;
    }
  }

  lemma StartsWith(n: nat)
    ensures |Init(n).threads| == n
  {
  }

  lemma StepIs(s: State, e: Event)
    requires e.thread < |s.threads|
    ensures e.Act? ==> Step(s, e) == Next(s, e.thread)
    ensures Step(s, e).Some? ==> |Step(s, e).value.threads| == |s.threads|
  {
  }

  lemma RunGrows(ss: seq<State>, es: seq<Event>, e: Event, s: State)
    requires IsRun(ss, es) && Step(ss[|es|], e) == Some(s)
    ensures IsRun(ss + [s], es + [e])
  {
    forall k | 0 <= k < |es| + 1 ensures Step((ss + [s])[k], (es + [e])[k]) == Some((ss + [s])[k + 1]) {
      if k < |es| { assert Step(ss[k], es[k]) == Some(ss[k + 1]); }
    }
  }
}
