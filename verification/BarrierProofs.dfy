/** What the barrier of BarrierModel keeps, and what it is for. */
module BarrierProofs {
  import opened Prelude
  import opened BarrierModel

  lemma InitInv(n: nat)
    requires n < UINT_RANGE
    ensures Inv(Init(n))
  {
    assert Counted(Init(n).threads, 0) == {};
  }

  // ---------- counting ----------

  ghost function Below(n: nat): (all: set<nat>)
    ensures |all| == n && forall i: nat :: i in all <==> i < n
  {
    if n == 0 then {} else Below(n - 1) + {n - 1}
  }

  lemma CountedIsWithin(ts: seq<Thread>, g: nat)
    ensures |Counted(ts, g)| <= |ts|
    ensures |Counted(ts, g)| == |ts| ==> forall i :: 0 <= i < |ts| ==> ts[i].arrived == g + 1
    ensures |Counted(ts, g)| == 0 ==> forall i :: 0 <= i < |ts| ==> ts[i].arrived != g + 1
  {
    var all := Below(|ts|);
    var c := Counted(ts, g);
    Subset(c, all);
    forall i | 0 <= i < |ts| && |c| == |ts| ensures ts[i].arrived == g + 1 {
      assert i in all;
    }
    forall i | 0 <= i < |ts| && |c| == 0 ensures ts[i].arrived != g + 1 {
      assert i !in c;
    }
  }

  lemma {:induction false} Subset(a: set<nat>, b: set<nat>)
    requires a <= b
    ensures |a| <= |b| && (|a| == |b| ==> a == b)
  {
    assert b == a + (b - a);
    assert |b| == |a| + |b - a|;
    if |a| == |b| { assert b - a == {}; }
  }

  lemma SameCounted(ts: seq<Thread>, i: nat, t: Thread, g: nat)
    requires i < |ts| && t.arrived == ts[i].arrived
    ensures Counted(ts[i := t], g) == Counted(ts, g)
  {
  }

  lemma OneMoreCounted(ts: seq<Thread>, i: nat, t: Thread, g: nat)
    requires i < |ts| && ts[i].arrived == g && t.arrived == g + 1
    ensures Counted(ts[i := t], g) == Counted(ts, g) + {i} && i !in Counted(ts, g)
    ensures |Counted(ts[i := t], g)| == |Counted(ts, g)| + 1
  {
  }

  lemma WokenCounted(ts: seq<Thread>, g: nat)
    ensures Counted(AllWoken(ts), g) == Counted(ts, g)
  {
  }

  lemma Neighbours(g: int)
    ensures g % UINT_RANGE != (g - 1) % UINT_RANGE
    ensures (g % UINT_RANGE + 1) % UINT_RANGE == (g + 1) % UINT_RANGE
  {
  }

  // ---------- every step keeps the invariant ----------

  /** A step that only moves thread `i` on, outside of the generation change. */
  lemma MoveKeeps(s: State, i: nat, t: Thread, owner: Option<nat>)
    requires Inv(s) && i < |s.threads| && t.arrived == s.threads[i].arrived && Sound(t, s.generation)
    requires s.threads[i].pc !in {Bump, Reset, Broadcast} && t.pc !in {Reset, Broadcast}
    requires owner == (if HoldsMutex(t.pc) then Some(i) else if s.owner == Some(i) then None else s.owner)
    requires HoldsMutex(t.pc) ==> s.owner == None || s.owner == Some(i)
    requires t.pc == Bump ==> s.count == s.nThreads
    requires s.threads[i].pc == Test ==> s.count != s.nThreads || t.pc == Bump
    requires t.pc == Sleeping ==> t.arrived == s.generation + 1
    ensures Inv(s.(threads := s.threads[i := t], owner := owner))
  {
    SameCounted(s.threads, i, t, s.generation);
  }

  lemma IncrementIs(s: State, i: nat)
    requires i < |s.threads| && s.threads[i].pc == Increment && s.count + 1 < UINT_RANGE
    ensures Next(s, i) == Some(s.(count := s.count + 1,
                                  threads := s.threads[i := s.threads[i].(pc := Test,
                                                                          arrived := s.threads[i].arrived + 1)]))
  {
  }

  lemma CountOneMore(s: State, i: nat, t: Thread)
    requires Inv(s) && i < |s.threads| && s.threads[i].pc == Increment && t.arrived == s.generation + 1
    ensures s.owner == Some(i) && s.count + 1 == |Counted(s.threads[i := t], s.generation)| <= s.nThreads
  {
    OneMoreCounted(s.threads, i, t, s.generation);
    CountedIsWithin(s.threads[i := t], s.generation);
  }

  lemma IncrementKeeps(s: State, i: nat)
    requires Inv(s) && i < |s.threads| && s.threads[i].pc == Increment
    ensures Inv(Next(s, i).value)
  {
    hide Next, Counted;
    var t := s.threads[i].(pc := Test, arrived := s.threads[i].arrived + 1);
    var ts := s.threads[i := t];
    CountOneMore(s, i, t);
    IncrementIs(s, i);
    var u := s.(count := s.count + 1, threads := ts);
    forall k | 0 <= k < |ts|
      ensures Sound(ts[k], s.generation) && (HoldsMutex(ts[k].pc) <==> s.owner == Some(k))
      ensures !(ts[k].pc == Sleeping && ts[k].arrived == s.generation) {
      assert ts[k] == if k == i then t else s.threads[k];
    }
    assert At(u, {Test}) && !At(u, {Reset}) && !At(u, {Bump});
  }

  lemma BumpKeeps(s: State, i: nat)
    requires Inv(s) && i < |s.threads| && s.threads[i].pc == Bump
    ensures Inv(Next(s, i).value)
  {
    var u := Next(s, i).value;
    assert s.owner == Some(i);
    CountedIsWithin(s.threads, s.generation);
    Neighbours(s.generation);
    forall k | 0 <= k < |u.threads| ensures Sound(u.threads[k], u.generation) {
      assert s.threads[k].arrived == s.generation + 1;
    }
    assert Counted(u.threads, u.generation) == {};
  }

  lemma ResetKeeps(s: State, i: nat)
    requires Inv(s) && i < |s.threads| && s.threads[i].pc == Reset
    ensures Inv(Next(s, i).value)
  {
    SameCounted(s.threads, i, s.threads[i].(pc := Broadcast), s.generation);
    assert s.owner == Some(i);
  }

  lemma BroadcastKeeps(s: State, i: nat)
    requires Inv(s) && i < |s.threads| && s.threads[i].pc == Broadcast
    ensures Inv(Next(s, i).value)
  {
    var u := Next(s, i).value;
    assert s.owner == Some(i);
    WokenCounted(s.threads, s.generation);
    SameCounted(AllWoken(s.threads), i, s.threads[i].(pc := Unlocking), s.generation);
    forall k | 0 <= k < |u.threads|
      ensures Sound(u.threads[k], u.generation) && (HoldsMutex(u.threads[k].pc) <==> u.owner == Some(k)) {
      assert u.threads[k] == if k == i then s.threads[i].(pc := Unlocking) else Woken(s.threads[k]);
    }
  }

  /** The comparison of a wrapped counter tells whether the generation is over. */
  lemma WrapIsHarmless(s: State, i: nat)
    requires Inv(s) && i < |s.threads| && s.threads[i].pc in {Check, Sleeping, Waking}
    ensures s.threads[i].arrived - 1 == s.generation || s.threads[i].arrived - 1 == s.generation - 1
    ensures s.timesUsed == s.threads[i].saved <==> s.threads[i].arrived - 1 == s.generation
  {
    Neighbours(s.generation);
  }

  lemma MoveAlongKeeps(s: State, i: nat)
    requires Inv(s) && i < |s.threads| && s.threads[i].pc !in {Increment, Bump, Reset, Broadcast} && Next(s, i).Some?
    ensures Inv(Next(s, i).value)
  {
    var t, u := s.threads[i], Next(s, i).value;
    if t.pc == Check { WrapIsHarmless(s, i); }
    MoveKeeps(s, i, u.threads[i], u.owner);
    assert u == s.(threads := s.threads[i := u.threads[i]], owner := u.owner);
  }

  lemma StepKeeps(s: State, e: Event)
    requires Inv(s) && Step(s, e).Some?
    ensures Inv(Step(s, e).value) && Step(s, e).value.nThreads == s.nThreads
  {
    var i := e.thread;
    if e.Spurious? {
      MoveKeeps(s, i, s.threads[i].(pc := Waking), s.owner);
    } else {
      match s.threads[i].pc
      case Increment => IncrementKeeps(s, i);
      case Bump => BumpKeeps(s, i);
      case Reset => ResetKeeps(s, i);
      case Broadcast => BroadcastKeeps(s, i);
      case _ => MoveAlongKeeps(s, i);
    }
  }

  // ---------- runs ----------

  ghost predicate IsRun(ss: seq<State>, es: seq<Event>)
  {
    && |ss| == |es| + 1
    && forall k :: 0 <= k < |es| ==> Step(ss[k], es[k]) == Some(ss[k + 1])
  }

  ghost predicate Reached(n: nat, s: State)
  {
    && n < UINT_RANGE && |s.threads| == n
    && exists ss: seq<State>, es: seq<Event> :: IsRun(ss, es) && ss[0] == Init(n) && ss[|es|] == s
  }

  lemma {:induction false} RunKeeps(ss: seq<State>, es: seq<Event>, k: nat)
    requires IsRun(ss, es) && Inv(ss[0]) && k <= |es|
    ensures Inv(ss[k]) && ss[k].nThreads == ss[0].nThreads
  {
    hide Inv, Step;
    if k == 0 {
    } else {
      RunKeeps(ss, es, k - 1);
      assert Step(ss[k - 1], es[k - 1]) == Some(ss[k]);
      StepKeeps(ss[k - 1], es[k - 1]);
    }
  }

  lemma ReachedInv(n: nat, s: State)
    requires Reached(n, s)
    ensures Inv(s) && s.nThreads == n == |s.threads|
  {
    var ss: seq<State>, es: seq<Event> :| IsRun(ss, es) && ss[0] == Init(n) && ss[|es|] == s;
    InitInv(n);
    RunKeeps(ss, es, |es|);
  }

  /** Nobody returns from its g-th wait before everybody has arrived at its g-th. */
  lemma NobodyLeavesEarly(n: nat, s: State, i: nat, j: nat)
    requires Reached(n, s) && i < n && j < n
    ensures s.threads[i].returned <= s.threads[j].arrived
  {
    ReachedInv(n, s);
  }

  /** The threads are never more than one round apart. */
  lemma RoundsStayTogether(n: nat, s: State, i: nat, j: nat)
    requires Reached(n, s) && i < n && j < n
    ensures s.threads[i].returned <= s.threads[j].returned + 1 && s.threads[i].arrived <= s.threads[j].arrived + 1
  {
    ReachedInv(n, s);
  }

  /** The saved generation is the present one or the one before, and the comparison tells which. */
  lemma SavedIsRecent(n: nat, s: State, i: nat)
    requires Reached(n, s) && i < n && s.threads[i].pc in {Check, Sleeping, Waking}
    ensures var g := s.threads[i].arrived - 1;
            && s.threads[i].saved == g % UINT_RANGE && (g == s.generation || g == s.generation - 1)
            && (s.timesUsed == s.threads[i].saved <==> g == s.generation)
  {
    ReachedInv(n, s);
    WrapIsHarmless(s, i);
  }

  /** Two threads are never at the counters at once. */
  lemma MutualExclusion(n: nat, s: State, i: nat, j: nat)
    requires Reached(n, s) && i < n && j < n && HoldsMutex(s.threads[i].pc) && HoldsMutex(s.threads[j].pc)
    ensures i == j
  {
    ReachedInv(n, s);
  }

  /** No deadlock: unless a thread has yet to call, one of those that have can go on by itself. */
  lemma SomebodyCanGoOn(n: nat, s: State)
    requires Reached(n, s) && 0 < n
    ensures exists i :: 0 <= i < n && Next(s, i).Some?
  {
    ReachedInv(n, s);
    if s.owner.Some? {
      assert Next(s, s.owner.value).Some?;
    } else {
      var i := SomebodyIsAwake(s);
      assert Next(s, i).Some?;
    }
  }

  /** With the mutex free, a thread not counted yet is not asleep. */
  lemma SomebodyIsAwake(s: State) returns (i: nat)
    requires Inv(s) && 0 < s.nThreads && s.owner == None
    ensures i < s.nThreads && s.threads[i].pc in {Idle, Locking, Waking}
  {
    CountedIsWithin(s.threads, s.generation);
    var all, counted := Below(s.nThreads), Counted(s.threads, s.generation);
    Subset(counted, all);
    assert all == counted + (all - counted);
    i := Any(all - counted);
    assert s.threads[i].arrived == s.generation && !HoldsMutex(s.threads[i].pc);
  }
}
