/** Every event the loop can meet goes through and keeps the invariant. */
module SimulatorEvents {
  import opened Prelude
  import opened Sequences
  import opened PriQueueModel
  import opened SchedulerModel
  import opened SimulatorModel
  import opened SimulatorInvariants
  import opened SimulatorMoves

  // ---------- the moves keep Sound ----------

  /** Clocks and phase are no business of the records. */
  lemma SoundClock(s: State, clock: seq<int>, phase: Phase)
    requires Sound(s) && |clock| == |s.clock|
    ensures Sound(s.(clock := clock, phase := phase))
  {
    hide Compare, Units, FirstUnit;
    var t := s.(clock := clock, phase := phase);
    forall c | 0 <= c < |t.sched.cores| && t.sched.cores[c].Some?
      ensures RunningOk(t, t.sched.cores[c].value, t.jobs[t.sched.cores[c].value.number].run) {
      assert RunningOk(s, s.sched.cores[c].value, s.jobs[s.sched.cores[c].value.number].run);
    }
    forall k | 0 <= k < |t.sched.queue|
      ensures WaitingOk(t, t.sched.queue[k], t.jobs[t.sched.queue[k].number].run) {
      assert WaitingOk(s, s.sched.queue[k], s.jobs[s.sched.queue[k].number].run);
    }
  }

  lemma SoundDrop(s: State, id: int)
    requires Sound(s) && id in s.jobs && s.jobs[id].core != -1 && s.jobs[id].run == 0
    ensures OnCore(s, id) && Sound(Drop(s, id))
  {
    hide Recorded, Reported, Offer;
    var t := Drop(s, id);
    CountedDrop(s, id);
    AgreeDrop(s.jobs, s.sched.cores, s.sched.queue, id);
    LoyalMove(s, t);
    RecordedDrop(s, id);
    ReportedDrop(s, id);
    FairSame(s, t);
  }

  lemma SoundPoll(s: State, c: nat)
    requires Sound(s) && c < |s.sched.cores| && s.sched.cores[c].None?
    ensures Sound(Poll(s, c))
  {
    hide Reported, Loyal, Units, FirstUnit;
    var t := Poll(s, c);
    OrderedPoll(s.sched, c, s.time);
    if s.sched.queue == [] {
      assert t.sched.cores == s.sched.cores;
      assert t == s;
    } else {
      var h := s.sched.queue[0];
      var j := Dispatch(h, s.time);
      DispatchedOk(s, h, s.jobs[h.number].run);
      AgreePoll(s.jobs, s.sched.cores, s.sched.queue, c, j);
      CountedSame(s, t);
      LoyalMove(s, t);
      RecordedFill(s, t, c, j);
      ReportedSame(s, t);
      FairShift(s, t);
    }
  }

  lemma RoundRobinAppends(q: seq<Job>, x: Job)
    ensures Offer(Comparer(RR), q, x) == q + [x]
  {
    OfferAppends(Comparer(RR), q, x);
  }

  lemma SittingIsOnCore(s: State, id: int)
    requires Sound(s) && id in s.jobs && s.jobs[id].core != -1
    ensures OnCore(s, id)
  {
    hide Recorded, Reported, Fair, Ordered, Loyal;
  }

  lemma OfferInserts(compare: (Job, Job) -> int, q: seq<Job>, x: Job)
    ensures OfferIndex(compare, q, x) <= |q| && Offer(compare, q, x) == InsertAt(q, OfferIndex(compare, q, x), x)
  {
  }

  lemma ReleaseRecorded(s: State, id: int, j: Job)
    requires Sound(s) && id in s.jobs && OnCore(s, id)
    requires j.number == id && WaitingOk(s, j, s.jobs[id].run)
    ensures var t := Release(s, id, j); Agree(t.jobs, t.sched.cores, t.sched.queue) && Recorded(t)
  {
    hide Recorded, WaitingOk, Reported, Fair, Ordered, Counted, Loyal, Offer;
    var r := OfferIndex(Comparer(s.sched.scheme), s.sched.queue, j);
    OfferInserts(Comparer(s.sched.scheme), s.sched.queue, j);
    AgreeRelease(s, id, r, j);
    RecordedInsert(s, Release(s, id, j), r, j);
  }

  lemma ReleaseCounted(s: State, id: int, j: Job)
    requires Sound(s) && id in s.jobs && OnCore(s, id)
    ensures var t := Release(s, id, j); Counted(t) && Loyal(t) && Reported(t)
  {
    hide Recorded, Reported, Fair, Ordered, Offer;
    var t := Release(s, id, j);
    CountedSame(s, t);
    ReportedSame(s, t);
    hide Counted, Loyal;
    LoyalMove(s, t);
  }

  lemma ReleaseOrdered(s: State, id: int, j: Job)
    requires Sound(s) && id in s.jobs && OnCore(s, id) && s.sched.scheme != FCFS
    requires s.sched.scheme == RR ==> j.first != -1
    requires s.sched.scheme == PSJF ==> forall c :: 0 <= c < |s.sched.cores| && s.sched.cores[c].Some? ==>
      Compare(PSJF, Charged(s.sched.cores[c].value, s.time), j) <= 0
    ensures var t := Release(s, id, j); Ordered(t.sched, t.time) && Fair(t)
  {
    hide Recorded, Reported, Counted, Loyal, Offer, Fair, Compare, Sorted;
    var t := Release(s, id, j);
    OrderedInsert(s.sched.(cores := t.sched.cores), s.time, j);
    hide Ordered;
    RoundRobinAppends(s.sched.queue, j);
    FairRequeue(s, t, j);
  }

  lemma SoundRelease(s: State, id: int, j: Job)
    requires Sound(s) && id in s.jobs && s.jobs[id].core != -1 && s.sched.scheme != FCFS
    requires j.number == id && WaitingOk(s, j, s.jobs[id].run)
    requires s.sched.scheme == RR ==> j.first != -1
    requires s.sched.scheme == PSJF ==> forall c :: 0 <= c < |s.sched.cores| && s.sched.cores[c].Some? ==>
      Compare(PSJF, Charged(s.sched.cores[c].value, s.time), j) <= 0
    ensures OnCore(s, id) && Sound(Release(s, id, j))
  {
    hide Recorded, Reported, Fair, Ordered, Counted, Loyal, Offer, Compare;
    SittingIsOnCore(s, id);
    ReleaseRecorded(s, id, j);
    ReleaseCounted(s, id, j);
    ReleaseOrdered(s, id, j);
  }

  lemma AgreeRelease(s: State, id: int, r: nat, j: Job)
    requires Agree(s.jobs, s.sched.cores, s.sched.queue) && id in s.jobs && s.jobs[id].core != -1
    requires r <= |s.sched.queue| && j.number == id
    ensures Agree(s.jobs[id := s.jobs[id].(core := -1)], s.sched.cores[s.jobs[id].core := None],
                  InsertAt(s.sched.queue, r, j))
  {
    var m := s.jobs[id := s.jobs[id].(core := -1)];
    AgreeDrop(s.jobs, s.sched.cores, s.sched.queue, id);
    assert m - {id} == s.jobs - {id};
    AgreeInsert(m, s.sched.cores[s.jobs[id].core := None], s.sched.queue, r, j);
  }

  lemma PlaceRecorded(s: State, id: int, c: nat)
    requires Sound(s) && id in s.jobs && !s.jobs[id].arrived && s.jobs[id].arrival == s.time
    requires c < |s.sched.cores| && s.sched.cores[c].None?
    ensures var t := Place(s, id, c); Agree(t.jobs, t.sched.cores, t.sched.queue) && Recorded(t)
  {
    var x := Fresh(id, s.time, s.jobs[id].run, s.jobs[id].priority);
    FreshOk(s, id);
    hide Recorded, RunningOk, WaitingOk, Reported, Fair, Ordered, Counted, Loyal;
    AgreePlace(s.jobs, s.sched.cores, s.sched.queue, c, StartNow(x, s.time));
    RecordedFill(s, Place(s, id, c), c, StartNow(x, s.time));
  }

  lemma PlaceCounted(s: State, id: int, c: nat)
    requires Sound(s) && id in s.jobs && !s.jobs[id].arrived && s.jobs[id].arrival == s.time && c < |s.sched.cores|
    ensures var t := Place(s, id, c); Counted(t) && Loyal(t) && Reported(t)
  {
    hide Recorded, Reported, Fair, Ordered;
    var t := Place(s, id, c);
    ReportedSame(s, t);
    CountedArrival(s, t, id);
    hide Counted, Loyal;
    LoyalMove(s, t);
  }

  lemma PlaceOrdered(s: State, id: int, c: nat)
    requires Sound(s) && id in s.jobs && !s.jobs[id].arrived && s.jobs[id].arrival == s.time && c < |s.sched.cores|
    requires s.sched.scheme == FCFS || s.sched.scheme == RR ==> s.sched.queue == []
    requires s.sched.scheme == PSJF ==> forall k :: 0 <= k < |s.sched.queue| ==>
      Compare(PSJF, Fresh(id, s.time, s.jobs[id].run, s.jobs[id].priority), s.sched.queue[k]) <= 0
    ensures var t := Place(s, id, c); Ordered(t.sched, t.time) && Fair(t)
  {
    hide Recorded, Reported, Loyal, Fair, Sorted, Comparer;
    var x := Fresh(id, s.time, s.jobs[id].run, s.jobs[id].priority);
    OrderedFill(s.sched, c, StartNow(x, s.time), s.time);
    FreshOk(s, id);
    hide Ordered, Compare;
    FairArrival(s, Place(s, id, c), id, x);
  }

  lemma SoundPlace(s: State, id: int, c: nat)
    requires Sound(s) && id in s.jobs && !s.jobs[id].arrived && s.jobs[id].arrival == s.time
    requires c < |s.sched.cores| && s.sched.cores[c].None?
    requires s.sched.scheme == FCFS || s.sched.scheme == RR ==> s.sched.queue == []
    requires s.sched.scheme == PSJF ==> forall k :: 0 <= k < |s.sched.queue| ==>
      Compare(PSJF, Fresh(id, s.time, s.jobs[id].run, s.jobs[id].priority), s.sched.queue[k]) <= 0
    ensures Sound(Place(s, id, c))
  {
    hide Recorded, Reported, Fair, Ordered, Counted, Loyal, Agree, Compare, Place;
    PlaceRecorded(s, id, c);
    PlaceCounted(s, id, c);
    PlaceOrdered(s, id, c);
  }

  lemma EnqueueRecorded(s: State, id: int)
    requires Sound(s) && id in s.jobs && !s.jobs[id].arrived && s.jobs[id].arrival == s.time
    ensures var t := Enqueue(s, id); Agree(t.jobs, t.sched.cores, t.sched.queue) && Recorded(t)
  {
    var x := Fresh(id, s.time, s.jobs[id].run, s.jobs[id].priority);
    FreshOk(s, id);
    hide Recorded, RunningOk, WaitingOk, Reported, Fair, Ordered, Counted, Loyal, Offer;
    var r := OfferIndex(Comparer(s.sched.scheme), s.sched.queue, x);
    OfferInserts(Comparer(s.sched.scheme), s.sched.queue, x);
    AgreeEnqueue(s, id, r, x);
    RecordedInsert(s, Enqueue(s, id), r, x);
  }

  lemma EnqueueCounted(s: State, id: int)
    requires Sound(s) && id in s.jobs && !s.jobs[id].arrived && s.jobs[id].arrival == s.time
    ensures var t := Enqueue(s, id); Counted(t) && Loyal(t) && Reported(t)
  {
    hide Recorded, Reported, Fair, Ordered, Offer;
    var t := Enqueue(s, id);
    ReportedSame(s, t);
    CountedArrival(s, t, id);
    hide Counted, Loyal;
    LoyalMove(s, t);
  }

  lemma EnqueueOrdered(s: State, id: int)
    requires Sound(s) && id in s.jobs && !s.jobs[id].arrived && s.jobs[id].arrival == s.time
    requires s.sched.scheme == PSJF ==> forall c :: 0 <= c < |s.sched.cores| && s.sched.cores[c].Some? ==>
      Compare(PSJF, Charged(s.sched.cores[c].value, s.time),
              Fresh(id, s.time, s.jobs[id].run, s.jobs[id].priority)) <= 0
    ensures var t := Enqueue(s, id); Ordered(t.sched, t.time) && Fair(t)
  {
    hide Recorded, Reported, Fair, Sorted, Comparer, Compare, Offer, Units, FirstUnit;
    var x := Fresh(id, s.time, s.jobs[id].run, s.jobs[id].priority);
    OrderedInsert(s.sched, s.time, x);
    hide Ordered;
    NewcomerGoesLast(s, x);
    FreshOk(s, id);
    FairArrival(s, Enqueue(s, id), id, x);
  }

  lemma SoundEnqueue(s: State, id: int)
    requires Sound(s) && id in s.jobs && !s.jobs[id].arrived && s.jobs[id].arrival == s.time
    requires s.sched.scheme == PSJF ==> forall c :: 0 <= c < |s.sched.cores| && s.sched.cores[c].Some? ==>
      Compare(PSJF, Charged(s.sched.cores[c].value, s.time),
              Fresh(id, s.time, s.jobs[id].run, s.jobs[id].priority)) <= 0
    ensures Sound(Enqueue(s, id))
  {
    hide Recorded, Reported, Fair, Ordered, Counted, Loyal, Agree, Compare, Enqueue;
    EnqueueRecorded(s, id);
    EnqueueCounted(s, id);
    EnqueueOrdered(s, id);
  }

  lemma AgreeEnqueue(s: State, id: int, r: nat, x: Job)
    requires Sound(s) && id in s.jobs && !s.jobs[id].arrived && r <= |s.sched.queue| && x.number == id
    ensures Agree(Enqueue(s, id).jobs, s.sched.cores, InsertAt(s.sched.queue, r, x))
  {
    hide Fair, Ordered, Compare, Loyal, Units, FirstUnit, Offer, Sorted, Comparer;
    var m := Enqueue(s, id).jobs;
    assert m - {id} == s.jobs - {id};
    assert Agree(s.jobs - {id}, s.sched.cores, s.sched.queue);
    AgreeInsert(m, s.sched.cores, s.sched.queue, r, x);
  }

  /** Under FCFS and RR a job that arrives now is appended. */
  lemma NewcomerGoesLast(s: State, x: Job)
    requires Sound(s) && x.arrival == s.time
    ensures s.sched.scheme == FCFS || s.sched.scheme == RR ==>
      Offer(Comparer(s.sched.scheme), s.sched.queue, x) == s.sched.queue + [x]
  {
    if s.sched.scheme == FCFS || s.sched.scheme == RR {
      forall k | 0 <= k < |s.sched.queue| ensures Comparer(s.sched.scheme)(x, s.sched.queue[k]) >= 0 {
        assert WaitingOk(s, s.sched.queue[k], s.jobs[s.sched.queue[k].number].run);
      }
      OfferAppends(Comparer(s.sched.scheme), s.sched.queue, x);
    }
  }

  lemma SoundSettle(s: State)
    requires Sound(s)
    ensures Sound(Settle(s))
    ensures forall c :: 0 <= c < |s.sched.cores| && s.sched.cores[c].Some? ==>
              Settle(s).sched.cores[c].value.last == s.time
  {
    hide Recorded, Agree;
    var t := Settle(s);
    AgreeSame(s.jobs, t.jobs, s.sched.cores, t.sched.cores, s.sched.queue);
    RecordedSettle(s);
    FairSame(s, t);
  }

  lemma RecordedSettle(s: State)
    requires Agree(s.jobs, s.sched.cores, s.sched.queue) && Recorded(s)
    requires Agree(s.jobs, Settle(s).sched.cores, s.sched.queue)
    ensures Recorded(Settle(s))
  {
    var t := Settle(s);
    forall c | 0 <= c < |t.sched.cores| && t.sched.cores[c].Some?
      ensures RunningOk(t, t.sched.cores[c].value, t.jobs[t.sched.cores[c].value.number].run) {
      assert RunningOk(s, s.sched.cores[c].value, s.jobs[s.sched.cores[c].value.number].run);
    }
    forall k | 0 <= k < |t.sched.queue|
      ensures WaitingOk(t, t.sched.queue[k], t.jobs[t.sched.queue[k].number].run) {
      assert WaitingOk(s, s.sched.queue[k], s.jobs[s.sched.queue[k].number].run);
    }
  }

  // ---------- completion ----------

  lemma IdleHasWork(s: State, id: int)
    requires Sound(s) && id in s.jobs && s.jobs[id].core == -1
    ensures s.jobs[id].run != 0 && (id in s.input && s.input[id].run >= 1 ==> s.jobs[id].run >= 1)
  {
    if s.jobs[id].arrived {
      assert InQueue(s.sched.queue, id);
      var k :| 0 <= k < |s.sched.queue| && s.sched.queue[k].number == id;
      assert WaitingOk(s, s.sched.queue[k], s.jobs[s.sched.queue[k].number].run);
    }
  }

  /** Polling after a core was emptied is what the event's own poll does. */
  lemma PollIsActivate(s: State, d: Sched, c: nat)
    requires Sound(s) && c < |s.sched.cores| && s.sched.cores[c].None?
    requires |d.cores| == |s.sched.cores| && d.(cores := d.cores[c := None]) == s.sched
    ensures PollOnto(d, c, s.time).0 == Poll(s, c).sched
    ensures Activate(s.jobs, PollOnto(d, c, s.time).1, c) == Some(Poll(s, c).jobs)
  {
    assert s.sched.queue == d.queue;
    if d.queue != [] {
      var j := Some(Dispatch(d.queue[0], s.time));
      assert d.cores[c := j] == d.cores[c := None][c := j] == s.sched.cores[c := j];
    } else {
      assert s.sched.cores[c := None] == d.cores[c := None];
    }
  }

  ghost predicate Settled(s: State)
    requires |s.sched.cores| == |s.clock|
  {
    Conserving(s.sched) && Clocked(s) && InPhase(s)
  }

  /** How the rest of the invariant follows when only core `c` got a new occupant. */
  lemma SettledFrom(s: State, t: State, c: int)
    requires |s.sched.cores| == |s.clock| == |t.clock| == |t.sched.cores| && Settled(s)
    requires t.phase == s.phase && t.sched.scheme == s.sched.scheme && t.rows == s.rows && t.quantum == s.quantum
    requires t.time == s.time
    requires forall i :: i in t.jobs ==> i in s.jobs && t.jobs[i].run == s.jobs[i].run
    requires t.phase != Arriving ==> forall i :: i in t.jobs ==>
      t.jobs[i].arrived == s.jobs[i].arrived && t.jobs[i].arrival == s.jobs[i].arrival
    requires t.phase != Finishing ==> t.jobs != map[]
    requires Conserving(t.sched)
    requires forall b :: 0 <= b < |t.clock| && b != c ==>
      && t.clock[b] == s.clock[b]
      && (s.sched.scheme == RR && t.sched.cores[b].Some? ==>
            s.sched.cores[b].Some? && s.sched.cores[b].value.number == t.sched.cores[b].value.number)
    requires 0 <= c < |t.clock| && s.sched.scheme == RR ==> t.clock[c] == s.quantum >= 1
    ensures Settled(t)
  {
  }

  lemma SoundShape(s: State)
    requires Sound(s)
    ensures |s.sched.cores| == |s.clock| && (s.sched.scheme == RR ==> s.quantum >= 1)
  {
  }

  /** The state after a completion. */
  function FinishResult(s: State, id: int): State
    requires Sound(s) && id in s.jobs && s.jobs[id].core != -1
  {
    var c := s.jobs[id].core;
    Poll(Drop(s, id), c).(clock := if s.sched.scheme == RR then s.clock[c := s.quantum] else s.clock)
  }

  lemma FinishGoesThrough(s: State, id: int)
    requires Sound(s) && id in s.jobs && s.jobs[id].core != -1 && s.jobs[id].run == 0
    ensures FinishStep(s, id) == Some(FinishResult(s, id)) && Sound(FinishResult(s, id))
  {
    hide Compare, Sound, Offer, Sorted, Comparer;
    SoundDrop(s, id);
    var c := s.jobs[id].core;
    var d := Drop(s, id);
    SoundPoll(d, c);
    var j := s.sched.cores[c].value;
    PollIsActivate(d, s.sched.(done := Offer(AlwaysAfter(), s.sched.done, Finished(j, s.time))), c);
    SoundClock(Poll(d, c), FinishResult(s, id).clock, s.phase);
  }

  lemma FinishFacts(s: State, id: int)
    requires Sound(s) && Conserving(s.sched) && id in s.jobs && s.jobs[id].core != -1
    ensures var t, c := FinishResult(s, id), s.jobs[id].core;
      && t.phase == s.phase && t.sched.scheme == s.sched.scheme && t.rows == s.rows && t.quantum == s.quantum
      && t.time == s.time && t.input == s.input
      && (forall i :: i in t.jobs <==> i in s.jobs && i != id)
      && (forall i :: i in t.jobs ==> t.jobs[i].run == s.jobs[i].run)
      && (forall i :: i in t.jobs ==> t.jobs[i].arrived == s.jobs[i].arrived && t.jobs[i].arrival == s.jobs[i].arrival)
      && |t.sched.cores| == |s.sched.cores| && |t.clock| == |s.clock|
      && (forall b :: 0 <= b < |t.clock| && b != c ==> t.clock[b] == s.clock[b] && t.sched.cores[b] == s.sched.cores[b])
      && Conserving(t.sched)
      && (s.sched.scheme == RR ==> t.clock[c] == s.quantum)
  {
    hide Recorded, Reported, Fair, Ordered, Compare, Loyal;
  }

  lemma FinishKeeps(s: State, id: int)
    requires Inv(s) && Enabled(s, Finish(id))
    ensures FinishStep(s, id).Some? && Inv(FinishStep(s, id).value)
  {
    hide Sound, FinishStep, FinishResult;
    SoundShape(s);
    if s.jobs[id].core == -1 { IdleHasWork(s, id); }
    FinishGoesThrough(s, id);
    FinishFacts(s, id);
    SettledFrom(s, FinishResult(s, id), s.jobs[id].core);
  }

  // ---------- quantum expiry ----------

  /** A job whose slice is used up has run, and goes back as it is. */
  lemma ExpiredOk(s: State, id: int)
    requires Inv(s) && Enabled(s, Expire(id))
    ensures OnCore(s, id) && s.sched.cores[s.jobs[id].core].value.number == id
    ensures s.sched.cores[s.jobs[id].core].value.first != -1
    ensures WaitingOk(s, s.sched.cores[s.jobs[id].core].value, s.jobs[id].run)
  {
    var j := s.sched.cores[s.jobs[id].core].value;
    assert RunningOk(s, j, s.jobs[j.number].run);
    UnitsAndFirst(s.rows, id);
  }

  /** The state after a slice is used up. */
  function ExpireResult(s: State, id: int): State
    requires id in s.jobs && OnCore(s, id)
  {
    var c := s.jobs[id].core;
    var d := Release(s, id, s.sched.cores[c].value);
    if d.sched.queue != [] && d.sched.queue[0].number !in d.jobs then s
    else Poll(d, c).(clock := s.clock[c := s.quantum])
  }

  lemma ExpireGoesThrough(s: State, id: int)
    requires Inv(s) && Enabled(s, Expire(id))
    ensures OnCore(s, id) && ExpireStep(s, id) == Some(ExpireResult(s, id)) && Sound(ExpireResult(s, id))
  {
    ExpiredOk(s, id);
    var c := s.jobs[id].core;
    var j := s.sched.cores[c].value;
    SoundRelease(s, id, j);
    var d := Release(s, id, j);
    SoundPoll(d, c);
    PollIsActivate(d, s.sched.(queue := Offer(Comparer(RR), s.sched.queue, j)), c);
    SoundClock(Poll(d, c), s.clock[c := s.quantum], s.phase);
  }

  lemma ExpireFacts(s: State, id: int)
    requires id in s.jobs && OnCore(s, id) && s.sched.scheme == RR && Conserving(s.sched)
    ensures var t := ExpireResult(s, id);
      && t.phase == s.phase && t.sched.scheme == s.sched.scheme && t.rows == s.rows && t.quantum == s.quantum
      && t.time == s.time
      && (forall i :: i in t.jobs <==> i in s.jobs)
      && (forall i :: i in t.jobs ==> t.jobs[i].run == s.jobs[i].run)
      && (forall i :: i in t.jobs ==> t.jobs[i].arrived == s.jobs[i].arrived && t.jobs[i].arrival == s.jobs[i].arrival)
      && |t.sched.cores| == |s.sched.cores| && |t.clock| == |s.clock|
      && (forall b :: 0 <= b < |t.clock| && b < |s.sched.cores| && b != s.jobs[id].core ==>
            t.clock[b] == s.clock[b] && t.sched.cores[b] == s.sched.cores[b])
      && Conserving(t.sched)
      && (t == s || t.clock[s.jobs[id].core] == s.quantum)
  {
    OfferAppends(Comparer(RR), s.sched.queue, s.sched.cores[s.jobs[id].core].value);
  }

  lemma ExpireKeeps(s: State, id: int)
    requires Inv(s) && Enabled(s, Expire(id))
    ensures ExpireStep(s, id).Some? && Inv(ExpireStep(s, id).value)
  {
    hide Offer, Drop, Release, Poll, Place, Enqueue, Settle, Clocked, InPhase, Sound, ExpireStep;
    SoundShape(s);
    ExpireGoesThrough(s, id);
    ExpireFacts(s, id);
    var t := ExpireResult(s, id);
    assert id in t.jobs;
    SettledFrom(s, t, if t == s then -1 else s.jobs[id].core);
  }

  // ---------- arrival ----------

  lemma VacateNobody(m: Table, c: int)
    requires forall id :: id in m ==> m[id].core != c
    ensures Vacate(m, c) == m
  {
    var v := Vacate(m, c);
    assert v.Keys == m.Keys;
    assert forall id :: id in m ==> v[id] == m[id];
  }

  /** The newcomer takes an idle core. */
  function IdleResult(s: State, id: int, c: nat): State
    requires id in s.jobs && c < |s.sched.cores| && |s.clock| == |s.sched.cores|
  {
    Place(Settle(s), id, c).(clock := if s.sched.scheme == RR then s.clock[c := s.quantum] else s.clock)
  }

  lemma SoundIdle(s: State, id: int, c: nat)
    requires Sound(s) && Conserving(s.sched) && Enabled(s, Arrive(id)) && c < |s.sched.cores|
    requires s.sched.cores[c].None?
    ensures Sound(IdleResult(s, id, c))
  {
    var u := Settle(s);
    SoundSettle(s);
    assert u.sched.cores[c].None?;
    SoundPlace(u, id, c);
    SoundClock(Place(u, id, c), IdleResult(s, id, c).clock, s.phase);
  }

  lemma ArriveIdle(s: State, id: int, c: nat)
    requires Inv(s) && Enabled(s, Arrive(id)) && c < |s.sched.cores|
    requires s.sched.cores[c].None?
    ensures Inv(IdleResult(s, id, c))
  {
    hide Agree, Loyal, Drop, Release, Poll, Place, Enqueue, Settle, Clocked, InPhase;
    SoundIdle(s, id, c);
    IdleFacts(s, id, c);
    var t := IdleResult(s, id, c);
    assert id in t.jobs;
    SettledFrom(s, t, c);
  }

  lemma IdleFacts(s: State, id: int, c: nat)
    requires id in s.jobs && c < |s.sched.cores| == |s.clock| && s.sched.cores[c].None? && Conserving(s.sched)
    ensures var t := IdleResult(s, id, c);
      && t.phase == s.phase && t.sched.scheme == s.sched.scheme && t.rows == s.rows && t.quantum == s.quantum
      && t.time == s.time
      && (forall i :: i in t.jobs <==> i in s.jobs)
      && (forall i :: i in t.jobs ==> t.jobs[i].run == s.jobs[i].run)
      && |t.sched.cores| == |t.clock| == |s.clock|
      && (forall b :: 0 <= b < |t.clock| && b != c ==>
            t.clock[b] == s.clock[b] && t.sched.cores[b] == Charge(s.sched.cores[b], s.time))
      && Conserving(t.sched)
      && (s.sched.scheme == RR ==> t.clock[c] == s.quantum)
  {
  }

  lemma IdleIsPlaced(s: State, id: int, c: nat)
    requires Agree(s.jobs, s.sched.cores, s.sched.queue) && id in s.jobs && !s.jobs[id].arrived
    requires c < |s.sched.cores| == |s.clock|
    requires FirstIdle(ChargeAll(s.sched.cores, s.time), 0) == c
    ensures s.sched.cores[c].None? && ArriveStep(s, id) == Some(IdleResult(s, id, c))
  {
    assert ChargeAll(s.sched.cores, s.time)[c].None? && s.sched.cores[c].None?;
    var m := s.jobs[id := s.jobs[id].(arrived := true)];
    VacateNobody(m, c);
    assert m[id := m[id].(core := c)] == s.jobs[id := s.jobs[id].(arrived := true, core := c)];
  }

  lemma WaitIsEnqueued(s: State, id: int)
    requires id in s.jobs && s.jobs[id].id == id
    requires FirstIdle(ChargeAll(s.sched.cores, s.time), 0) == |s.sched.cores|
    requires s.sched.scheme == PSJF ==>
      WorstCore(PSJF, Running(ChargeAll(s.sched.cores, s.time)),
                Fresh(id, s.time, s.jobs[id].run, s.jobs[id].priority), 0, -1) == -1
    ensures ArriveStep(s, id) == Some(Enqueue(Settle(s), id))
  {
  }

  lemma SoundWaits(s: State, id: int)
    requires Sound(s) && Enabled(s, Arrive(id))
    requires forall c :: 0 <= c < |s.sched.cores| ==> s.sched.cores[c].Some?
    requires s.sched.scheme == PSJF ==> forall c :: 0 <= c < |s.sched.cores| ==>
      Compare(PSJF, Charged(s.sched.cores[c].value, s.time),
              Fresh(id, s.time, s.jobs[id].run, s.jobs[id].priority)) <= 0
    ensures Sound(Enqueue(Settle(s), id))
  {
    hide Compare, Sound, Offer, IsRow, RunUnit, Busy;
    SoundSettle(s);
    SoundEnqueue(Settle(s), id);
  }

  lemma ArriveWaits(s: State, id: int)
    requires Inv(s) && Enabled(s, Arrive(id))
    requires forall c :: 0 <= c < |s.sched.cores| ==> s.sched.cores[c].Some?
    requires s.sched.scheme == PSJF ==> forall c :: 0 <= c < |s.sched.cores| ==>
      Compare(PSJF, Charged(s.sched.cores[c].value, s.time),
              Fresh(id, s.time, s.jobs[id].run, s.jobs[id].priority)) <= 0
    ensures Inv(Enqueue(Settle(s), id))
  {
    hide Sound;
    SoundShape(s);
    SoundWaits(s, id);
    var t := Enqueue(Settle(s), id);
    assert id in t.jobs;
    SettledFrom(s, t, -1);
  }

  lemma ShortestAfterRelease(u: State, c: nat, w: Job, x: Job)
    requires Ordered(u.sched, u.time) && u.sched.scheme == PSJF
    requires c < |u.sched.cores| && u.sched.cores[c].Some?
    requires Compare(PSJF, w, Charged(u.sched.cores[c].value, u.time)) == 0
    requires Compare(PSJF, x, w) < 0
    ensures var o := Offer(Comparer(PSJF), u.sched.queue, w);
            forall k :: 0 <= k < |o| ==> Compare(PSJF, x, o[k]) <= 0
  {
    hide Sorted, Comparer;
    var q, o := u.sched.queue, Offer(Comparer(PSJF), u.sched.queue, w);
    var r := OfferIndex(Comparer(PSJF), q, w);
    forall k | 0 <= k < |o| ensures Compare(PSJF, x, o[k]) <= 0 {
      assert o[k] == if k < r then q[k] else if k == r then w else q[k - 1];
    }
  }

  /** The newcomer takes the core of the job that would finish last. */
  function PreemptResult(s: State, id: int, c: nat): State
    requires id in s.jobs && c < |s.sched.cores| && s.sched.cores[c].Some?
  {
    var u := Settle(s);
    var w := u.sched.cores[c].value;
    if w.number in s.jobs && OnCore(u, w.number) && id in Release(u, w.number, Unstart(w, s.time)).jobs
    then Place(Release(u, w.number, Unstart(w, s.time)), id, c) else s
  }

  lemma ReleaseWorst(s: State, id: int, c: nat)
    requires Inv(s) && Enabled(s, Arrive(id)) && s.sched.scheme == PSJF
    requires c < |s.sched.cores| && s.sched.cores[c].Some?
    requires forall b :: 0 <= b < |s.sched.cores| && s.sched.cores[b].Some? ==>
      Compare(PSJF, Charged(s.sched.cores[b].value, s.time), Charged(s.sched.cores[c].value, s.time)) <= 0
    ensures var u := Settle(s);
            var w := u.sched.cores[c].value;
            && Sound(u) && w.number in s.jobs && w.number != id && s.jobs[w.number].core == c && OnCore(u, w.number)
            && Sound(Release(u, w.number, Unstart(w, s.time)))
  {
    hide Reported, Fair, Loyal, IsRow, RunUnit, Busy;
    var u := Settle(s);
    SoundSettle(s);
    var w := u.sched.cores[c].value;
    assert RunningOk(u, w, u.jobs[w.number].run);
    UnstartedOk(u, w, u.jobs[w.number].run);
    SoundRelease(u, w.number, Unstart(w, s.time));
  }

  lemma ArrivePreempts(s: State, id: int, c: nat)
    requires Inv(s) && Enabled(s, Arrive(id)) && s.sched.scheme == PSJF
    requires forall b :: 0 <= b < |s.sched.cores| ==> s.sched.cores[b].Some?
    requires c < |s.sched.cores|
    requires var x := Fresh(id, s.time, s.jobs[id].run, s.jobs[id].priority);
             Compare(PSJF, x, Charged(s.sched.cores[c].value, s.time)) < 0
    requires forall b :: 0 <= b < |s.sched.cores| ==>
      Compare(PSJF, Charged(s.sched.cores[b].value, s.time), Charged(s.sched.cores[c].value, s.time)) <= 0
    ensures Inv(PreemptResult(s, id, c))
  {
    hide Recorded, Reported, Agree, Loyal, Offer, Clocked, InPhase;
    ReleaseWorst(s, id, c);
    var u := Settle(s);
    var w := u.sched.cores[c].value;
    var d := Release(u, w.number, Unstart(w, s.time));
    assert Sound(PreemptResult(s, id, c)) by {
      ShortestAfterRelease(u, c, Unstart(w, s.time), Fresh(id, s.time, s.jobs[id].run, s.jobs[id].priority));
      SoundPlace(d, id, c);
    }
    PreemptFacts(s, id, c);
    var t := PreemptResult(s, id, c);
    assert id in t.jobs;
    SettledFrom(s, t, -1);
  }

  lemma PreemptFacts(s: State, id: int, c: nat)
    requires id in s.jobs && c < |s.sched.cores| && s.sched.cores[c].Some? && s.sched.scheme == PSJF
    requires forall b :: 0 <= b < |s.sched.cores| ==> s.sched.cores[b].Some?
    requires var w := s.sched.cores[c].value.number; w in s.jobs && s.jobs[w].core == c
    ensures var t := PreemptResult(s, id, c);
      && t.phase == s.phase && t.sched.scheme == s.sched.scheme && t.rows == s.rows && t.quantum == s.quantum
      && t.time == s.time
      && (forall i :: i in t.jobs <==> i in s.jobs)
      && (forall i :: i in t.jobs ==> t.jobs[i].run == s.jobs[i].run)
      && |t.sched.cores| == |s.sched.cores| && t.clock == s.clock
      && (forall b :: 0 <= b < |s.sched.cores| ==> t.sched.cores[b].Some?)
  {
  }

  lemma PreemptIsPlaced(s: State, id: int, c: nat)
    requires Sound(s) && id in s.jobs && !s.jobs[id].arrived && s.sched.scheme == PSJF
    requires FirstIdle(ChargeAll(s.sched.cores, s.time), 0) == |s.sched.cores|
    requires c == WorstCore(PSJF, Running(ChargeAll(s.sched.cores, s.time)),
                            Fresh(id, s.time, s.jobs[id].run, s.jobs[id].priority), 0, -1)
    ensures s.sched.cores[c].Some? && ArriveStep(s, id) == Some(PreemptResult(s, id, c))
  {
    hide Reported, Fair, Offer, WorstCore, Running, FirstIdle, Vacate;
    var u := Settle(s);
    assert u.sched.cores[c].Some?;
    var w := u.sched.cores[c].value;
    assert s.sched.cores[c].Some? && s.sched.cores[c].value.number == w.number;
    PreemptSched(s, id, c);
    PreemptTable(s.jobs, id, c, w.number);
  }

  lemma PreemptSched(s: State, id: int, c: nat)
    requires Sound(s) && id in s.jobs && s.sched.scheme == PSJF
    requires FirstIdle(ChargeAll(s.sched.cores, s.time), 0) == |s.sched.cores|
    requires c == WorstCore(PSJF, Running(ChargeAll(s.sched.cores, s.time)),
                            Fresh(id, s.time, s.jobs[id].run, s.jobs[id].priority), 0, -1)
    requires s.sched.cores[c].Some? && id != s.sched.cores[c].value.number
    ensures NewJob(s.sched, id, s.time, s.jobs[id].run, s.jobs[id].priority) == (PreemptResult(s, id, c).sched, c)
  {
    hide Recorded, Ordered, Compare, Loyal, Units, FirstUnit, Offer, Sorted, Comparer, WorstCore, Running, FirstIdle;
    var u := Settle(s);
    var j := Some(StartNow(Fresh(id, s.time, s.jobs[id].run, s.jobs[id].priority), s.time));
    assert u.sched.cores[c := None][c := j] == u.sched.cores[c := j];
  }

  lemma PreemptTable(m: Table, id: int, c: int, w: int)
    requires id in m && w in m && id != w && m[w].core == c != m[id].core
    requires forall i :: i in m && m[i].core == c ==> i == w
    ensures var v := Vacate(m[id := m[id].(arrived := true)], c);
            v[id := v[id].(core := c)] == m[w := m[w].(core := -1)][id := m[id].(arrived := true, core := c)]
  {
    VacateOne(m[id := m[id].(arrived := true)], c, w);
  }

  lemma VacateOne(m: Table, c: int, w: int)
    requires w in m && m[w].core == c && forall id :: id in m && m[id].core == c ==> id == w
    ensures Vacate(m, c) == m[w := m[w].(core := -1)]
  {
    var v, u := Vacate(m, c), m[w := m[w].(core := -1)];
    assert v.Keys == u.Keys;
    assert forall id :: id in m ==> v[id] == u[id];
  }

  /** What the search over the charged cores says about the scheduler's own. */
  lemma SearchIsWorst(s: State, id: int)
    requires id in s.jobs && s.sched.scheme == PSJF
    requires FirstIdle(ChargeAll(s.sched.cores, s.time), 0) == |s.sched.cores|
    ensures forall b :: 0 <= b < |s.sched.cores| ==> s.sched.cores[b].Some?
    ensures var x := Fresh(id, s.time, s.jobs[id].run, s.jobs[id].priority);
            var c := WorstCore(PSJF, Running(ChargeAll(s.sched.cores, s.time)), x, 0, -1);
            && (c == -1 ==> forall b :: 0 <= b < |s.sched.cores| ==>
                  Compare(PSJF, Charged(s.sched.cores[b].value, s.time), x) <= 0)
            && (c != -1 ==>
                  && Compare(PSJF, x, Charged(s.sched.cores[c].value, s.time)) < 0
                  && (forall b :: 0 <= b < |s.sched.cores| ==>
                        Compare(PSJF, Charged(s.sched.cores[b].value, s.time),
                                Charged(s.sched.cores[c].value, s.time)) <= 0)
                  && (forall b :: 0 <= b < c ==>
                        Compare(PSJF, Charged(s.sched.cores[b].value, s.time),
                                Charged(s.sched.cores[c].value, s.time)) < 0))
  {
    var cores := ChargeAll(s.sched.cores, s.time);
    var x := Fresh(id, s.time, s.jobs[id].run, s.jobs[id].priority);
    assert forall b :: 0 <= b < |cores| ==> cores[b].Some?;
    assert forall b :: 0 <= b < |cores| ==> cores[b] == Charge(s.sched.cores[b], s.time);
    var all := Running(cores);
    WorstCoreIsLast(PSJF, all, x);
    assert forall b :: 0 <= b < |cores| ==> all[b] == Charged(s.sched.cores[b].value, s.time);
  }

  lemma ArriveKeeps(s: State, id: int)
    requires Inv(s) && Enabled(s, Arrive(id))
    ensures ArriveStep(s, id).Some? && Inv(ArriveStep(s, id).value)
  {
    var idle := FirstIdle(ChargeAll(s.sched.cores, s.time), 0);
    if idle < |s.sched.cores| {
      IdleIsPlaced(s, id, idle);
      ArriveIdle(s, id, idle);
    } else if s.sched.scheme != PSJF {
      NobodyIdle(s.sched.cores, s.time);
      ArriveWaits(s, id);
      WaitIsEnqueued(s, id);
    } else {
      ArriveKeepsWhenBusy(s, id);
    }
  }

  lemma NobodyIdle(cores: seq<Option<Job>>, time: int)
    requires FirstIdle(ChargeAll(cores, time), 0) == |cores|
    ensures forall b :: 0 <= b < |cores| ==> cores[b].Some?
  {
    assert forall b :: 0 <= b < |cores| ==> ChargeAll(cores, time)[b] == Charge(cores[b], time);
  }

  lemma ArriveKeepsWhenBusy(s: State, id: int)
    requires Inv(s) && Enabled(s, Arrive(id)) && s.sched.scheme == PSJF
    requires FirstIdle(ChargeAll(s.sched.cores, s.time), 0) == |s.sched.cores|
    ensures ArriveStep(s, id).Some? && Inv(ArriveStep(s, id).value)
  {
    hide Recorded, Clocked, InPhase, FinishResult, ExpireResult, IdleResult, PreemptResult, TickResult;
    SearchIsWorst(s, id);
    var x := Fresh(id, s.time, s.jobs[id].run, s.jobs[id].priority);
    var c := WorstCore(PSJF, Running(ChargeAll(s.sched.cores, s.time)), x, 0, -1);
    if c == -1 {
      ArriveWaits(s, id);
      WaitIsEnqueued(s, id);
    } else {
      ArrivePreempts(s, id, c);
      PreemptIsPlaced(s, id, c);
    }
  }

  // ---------- one unit of time ----------

  /** The row the scheduler's cores make is one the simulator's view allows, and the only one. */
  ghost function CoreRow(cores: seq<Option<Job>>): Row
  {
    seq(|cores|, c requires 0 <= c < |cores| => if cores[c].Some? then Some(cores[c].value.number) else None)
  }

  lemma CoreRowIsRow(m: Table, cores: seq<Option<Job>>, q: seq<Job>, row: Row)
    requires Agree(m, cores, q)
    ensures IsRow(m, |cores|, row) <==> row == CoreRow(cores)
  {
    var r := CoreRow(cores);
    if IsRow(m, |cores|, row) {
      forall c | 0 <= c < |cores| ensures row[c] == r[c] {
        if row[c].Some? {
          var id := row[c].value;
          assert id in m && m[id].core == c;
          assert cores[c].Some?;
        }
        if cores[c].Some? {
          var id := cores[c].value.number;
          assert m[id].core == c && row[m[id].core] == Some(id);
        }
      }
    }
  }

  /** A job is in the row exactly when it is on a core. */
  lemma RanIsOnCore(m: Table, n: nat, row: Row, id: int)
    requires IsRow(m, n, row)
    ensures Ran(row, id) <==> id in m && m[id].core != -1
  {
    if id in m && m[id].core != -1 {
      assert row[m[id].core] == Some(id);
    }
  }

  /** If a job has arrived, some core works: the exit of line 442 is dead code. */
  lemma AliveIsBusy(s: State, row: Row)
    requires Sound(s) && Conserving(s.sched) && IsRow(s.jobs, |s.clock|, row)
    ensures s.alive > 0 <==> Busy(row)
  {
    if s.alive > 0 {
      var id := Any(Arrived(s.jobs));
      if s.jobs[id].core != -1 {
        assert row[s.jobs[id].core].Some?;
      } else {
        assert InQueue(s.sched.queue, id) && s.sched.cores[0].Some?;
        assert row[0] == Some(s.sched.cores[0].value.number);
      }
    }
    if Busy(row) {
      var c :| 0 <= c < |row| && row[c].Some?;
      var id := row[c].value;
      assert id in s.jobs && s.jobs[id].core == c;
      assert id in Arrived(s.jobs);
    }
  }

  /** The state after the unit in which the cores ran what `row` says. */
  function TickResult(s: State, row: Row): State
    requires |row| == |s.clock|
  {
    s.(jobs := RunUnit(s.jobs),
       clock := seq(|s.clock|, c requires 0 <= c < |s.clock| => if row[c].Some? then s.clock[c] - 1 else s.clock[c]),
       time := s.time + 1, rows := s.rows + [row], phase := Finishing)
  }

  ghost predicate Ticking(s: State, row: Row)
  {
    Inv(s) && Enabled(s, Tick(row))
  }

  lemma TickLoyal(s: State, row: Row)
    requires Ticking(s, row)
    ensures Loyal(TickResult(s, row))
  {
    hide Recorded, Reported, Fair, Units, FirstUnit;
    var t := TickResult(s, row);
    forall id | id in t.jobs && !t.jobs[id].arrived ensures t.jobs[id] == s.jobs[id] && Units(t.rows, id) == 0 {
      RanIsOnCore(s.jobs, |s.clock|, row, id);
      UnitsAppend(s.rows, row, id);
    }
  }

  lemma RunningTick(s: State, row: Row, j: Job, run: int)
    requires RunningOk(s, j, run) && run != 0 && s.time == |s.rows| == j.last + (s.time - j.last) && j.arrival <= s.time
    requires |row| == |s.clock| && Ran(row, j.number)
    ensures RunningOk(TickResult(s, row), j, run - 1)
  {
    UnitsAppend(s.rows, row, j.number);
    var rows := s.rows + [row];
    forall t | 0 <= t < |rows| && Ran(rows[t], j.number) ensures j.arrival <= t {
      if t < |s.rows| { assert rows[t] == s.rows[t]; }
    }
  }

  lemma WaitingTick(s: State, row: Row, j: Job, run: int)
    requires WaitingOk(s, j, run) && s.time == |s.rows|
    requires |row| == |s.clock| && !Ran(row, j.number)
    ensures WaitingOk(TickResult(s, row), j, run)
  {
    UnitsAppend(s.rows, row, j.number);
    var rows := s.rows + [row];
    forall t | 0 <= t < |rows| && Ran(rows[t], j.number) ensures j.arrival <= t {
      if t < |s.rows| { assert rows[t] == s.rows[t]; }
    }
  }

  lemma TickAgree(s: State, row: Row)
    requires Ticking(s, row)
    ensures Agree(TickResult(s, row).jobs, s.sched.cores, s.sched.queue)
    ensures Counted(TickResult(s, row))
  {
    hide Recorded, Fair, Agree, Loyal, Units, FirstUnit, Sorted, Comparer, Clocked, InPhase;
    var t := TickResult(s, row);
    assert forall id :: id in t.jobs <==> id in s.jobs;
    AgreeSame(s.jobs, t.jobs, s.sched.cores, s.sched.cores, s.sched.queue);
    forall id ensures id in Arrived(t.jobs) <==> id in Arrived(s.jobs) {
    }
    assert Arrived(t.jobs) == Arrived(s.jobs);
  }

  lemma TickRecorded(s: State, row: Row)
    requires Ticking(s, row)
    requires Agree(TickResult(s, row).jobs, s.sched.cores, s.sched.queue)
    ensures Recorded(TickResult(s, row))
  {
    hide Reported, Fair, Ordered, Compare, Units, FirstUnit;
    var t := TickResult(s, row);
    forall c | 0 <= c < |s.sched.cores| && s.sched.cores[c].Some?
      ensures RunningOk(t, t.sched.cores[c].value, t.jobs[t.sched.cores[c].value.number].run) {
      var j := s.sched.cores[c].value;
      RanIsOnCore(s.jobs, |s.clock|, row, j.number);
      RunningTick(s, row, j, s.jobs[j.number].run);
    }
    forall k | 0 <= k < |s.sched.queue|
      ensures WaitingOk(t, t.sched.queue[k], t.jobs[t.sched.queue[k].number].run) {
      var j := s.sched.queue[k];
      RanIsOnCore(s.jobs, |s.clock|, row, j.number);
      WaitingTick(s, row, j, s.jobs[j.number].run);
    }
  }

  lemma ReportTick(input: Table, rows: seq<Row>, row: Row, r: Report)
    requires ReportOk(input, rows, r) && !Ran(row, r.job.number)
    ensures ReportOk(input, rows + [row], r)
  {
    UnitsAppend(rows, row, r.job.number);
    UnitsAndFirst(rows, r.job.number);
    var rows' := rows + [row];
    var left := r.job.arrival + r.turnaround;
    assert rows'[left - 1] == rows[left - 1];
    forall t | 0 <= t < |rows'| && Ran(rows'[t], r.job.number) ensures r.job.arrival <= t < left {
      if t < |rows| { assert rows'[t] == rows[t]; }
    }
  }

  lemma TickReported(s: State, row: Row)
    requires Ticking(s, row)
    ensures Reported(TickResult(s, row))
  {
    hide Recorded, Fair, Ordered, Compare, Agree, Counted, Loyal, Clocked, InPhase;
    var t := TickResult(s, row);
    assert forall id :: id in t.jobs <==> id in s.jobs;
    forall k | 0 <= k < |t.sched.done|
      ensures t.sched.done[k].job.number !in t.jobs && ReportOk(t.input, t.rows, t.sched.done[k]) {
      var id := s.sched.done[k].job.number;
      RanIsOnCore(s.jobs, |s.clock|, row, id);
      ReportTick(s.input, s.rows, row, s.sched.done[k]);
    }
  }

  /** A job that starts in this unit leaves no earlier arrival unstarted. */
  lemma TickFair(s: State, row: Row)
    requires Ticking(s, row)
    ensures Fair(TickResult(s, row))
  {
    hide Recorded, Ordered, Compare, Agree, Counted;
    var t := TickResult(s, row);
    assert forall id :: id in t.jobs <==> id in s.jobs;
    assert forall id :: id in t.jobs ==>
             t.jobs[id].arrived == s.jobs[id].arrived && t.jobs[id].arrival == s.jobs[id].arrival;
    if s.sched.scheme == FCFS || s.sched.scheme == RR {
      forall a, b | Present(t, a) && Present(t, b) && t.input[a].arrival < t.input[b].arrival
        ensures FirstUnit(t.rows, a) <= FirstUnit(t.rows, b) {
        FairPair(s, row, a, b);
      }
    }
  }

  lemma FairPair(s: State, row: Row, a: int, b: int)
    requires Ticking(s, row) && (s.sched.scheme == FCFS || s.sched.scheme == RR)
    requires Present(s, a) && Present(s, b) && s.input[a].arrival < s.input[b].arrival
    ensures FirstUnit(s.rows + [row], a) <= FirstUnit(s.rows + [row], b)
  {
    UnitsAppend(s.rows, row, a);
    UnitsAppend(s.rows, row, b);
    assert FirstUnit(s.rows, a) <= FirstUnit(s.rows, b);
    if FirstUnit(s.rows, a) == |s.rows| && !Ran(row, a) {
      NeverRunWaits(s, row, a, b);
    }
  }

  lemma NeverRunWaits(s: State, row: Row, a: int, b: int)
    requires Ticking(s, row) && (s.sched.scheme == FCFS || s.sched.scheme == RR)
    requires Present(s, a) && Present(s, b) && s.input[a].arrival < s.input[b].arrival
    requires FirstUnit(s.rows, a) == |s.rows| && !Ran(row, a)
    ensures FirstUnit(s.rows, b) == |s.rows| && !Ran(row, b)
  {
    hide Reported, Ordered, Compare, Counted, Units, FirstUnit, Sorted, Comparer, Clocked, InPhase;
    if a !in s.jobs { DoneHasRun(s, a); }
    if b !in s.jobs { DoneHasRun(s, b); }
    assert FirstUnit(s.rows, a) <= FirstUnit(s.rows, b);
    RanIsOnCore(s.jobs, |s.clock|, row, a);
    RanIsOnCore(s.jobs, |s.clock|, row, b);
    assert InQueue(s.sched.queue, a);
    var k :| 0 <= k < |s.sched.queue| && s.sched.queue[k].number == a;
    assert WaitingOk(s, s.sched.queue[k], s.jobs[a].run);
    assert StillBehind(s.sched.queue, k, b);
  }

  lemma DoneHasRun(s: State, id: int)
    requires Sound(s) && id in s.input && id !in s.jobs
    ensures FirstUnit(s.rows, id) < |s.rows|
  {
    assert InDone(s.sched.done, id);
    var k :| 0 <= k < |s.sched.done| && s.sched.done[k].job.number == id;
    assert ReportOk(s.input, s.rows, s.sched.done[k]);
    UnitsAndFirst(s.rows, id);
  }

  lemma TickClocked(s: State, row: Row)
    requires Ticking(s, row)
    ensures Clocked(TickResult(s, row))
  {
    hide Recorded, Reported;
    var t := TickResult(s, row);
    CoreRowIsRow(s.jobs, s.sched.cores, s.sched.queue, row);
    forall c | 0 <= c < |t.clock| && t.sched.cores[c].Some?
      ensures Units(t.rows, t.sched.cores[c].value.number) > 0 {
      var id := s.sched.cores[c].value.number;
      RanIsOnCore(s.jobs, |s.clock|, row, id);
      UnitsAppend(s.rows, row, id);
    }
  }

  lemma SoundTick(s: State, row: Row)
    requires Ticking(s, row)
    ensures Sound(TickResult(s, row))
  {
    hide Recorded, Reported, Fair, Ordered, Compare, Agree, Loyal, Units, FirstUnit, Sorted, Comparer,
         IsRow, RunUnit, Busy, Enabled, Clocked, InPhase;
    TickAgree(s, row);
    TickLoyal(s, row);
    TickRecorded(s, row);
    TickReported(s, row);
    TickFair(s, row);
    OrderedTick(s.sched, s.time);
  }

  /** Time passes for the running jobs only. */
  lemma OrderedTick(d: Sched, time: int)
    requires Ordered(d, time)
    ensures Ordered(d, time + 1)
  {
    if d.scheme == PSJF {
      forall c, k | 0 <= c < |d.cores| && d.cores[c].Some? && 0 <= k < |d.queue|
        ensures Compare(PSJF, Charged(d.cores[c].value, time + 1), d.queue[k]) <= 0 {
        assert Compare(PSJF, Charged(d.cores[c].value, time), d.queue[k]) <= 0;
      }
    }
  }

  lemma TickSettled(s: State, row: Row)
    requires Ticking(s, row)
    ensures Settled(TickResult(s, row))
  {
    TickClocked(s, row);
  }

  lemma TickKeeps(s: State, row: Row)
    requires Inv(s) && Enabled(s, Tick(row))
    ensures TickStep(s, row).Some? && Inv(TickStep(s, row).value)
  {
    AliveIsBusy(s, row);
    SoundTick(s, row);
    TickSettled(s, row);
  }
}
