/** Round robin by the clock: how long a job keeps its core, read off the timing diagram. */
module SimulatorSlices {
  import opened Prelude
  import opened SchedulerModel
  import opened SimulatorModel
  import opened SimulatorInvariants
  import opened SimulatorTheorems
  import opened SimulatorPlacement

  /** The event gives job `id` a core, or gives it its own core again when its slice is over. */
  ghost predicate PutsOnCore(s: State, e: Event, id: int)
    requires Enabled(s, e) && Step(s, e).Some?
  {
    var u := Step(s, e).value;
    Runs(u, id) && (!Runs(s, id) || s.jobs[id].core != u.jobs[id].core || e == Expire(id))
  }

  /** Job `id` has had core `c` in every unit from `start` on, and its clock has run down by as much. */
  ghost predicate InSlice(t: State, id: int, c: nat, start: nat)
  {
    && Runs(t, id) && t.jobs[id].core == c < |t.clock| && start <= |t.rows|
    && t.clock[c] == t.quantum - (|t.rows| - start)
    && forall r :: start <= r < |t.rows| ==> c < |t.rows[r]| && t.rows[r][c] == Some(id)
  }

  lemma OthersElsewhere(s: State, i: int, id: int)
    requires Inv(s) && Runs(s, i) && Runs(s, id) && i != id
    ensures s.jobs[i].core != s.jobs[id].core
  {
    RunsIsOnCore(s, i);
    RunsIsOnCore(s, id);
  }

  /** A slice starts with the whole quantum on the clock. */
  lemma SliceStarts(s: State, e: Event, id: int)
    requires Inv(s) && s.sched.scheme == RR && Enabled(s, e) && Step(s, e).Some? && PutsOnCore(s, e, id)
    ensures var u := Step(s, e).value; u.jobs[id].core >= 0 && InSlice(u, id, u.jobs[id].core, |s.rows|)
  {
    hide Inv, FinishStep, ExpireStep, ArriveStep;
    EveryEventGoesThrough(s, e);
    StepConstants(s, e);
    RunsIsOnCore(Step(s, e).value, id);
    match e
    case Finish(i) => FinishHandsOver(s, i); RunsIsOnCore(s, i);
    case Expire(i) => ExpireHandsOver(s, i); RunsIsOnCore(s, i);
    case Arrive(i) => ArriveStarts(s, i, id);
    case _ =>
  }

  lemma ArriveStarts(s: State, i: int, id: int)
    requires Inv(s) && s.sched.scheme == RR && Enabled(s, Arrive(i)) && ArriveStep(s, i).Some?
    requires Runs(ArriveStep(s, i).value, id)
    requires !Runs(s, id) || s.jobs[id].core != ArriveStep(s, i).value.jobs[id].core
    ensures var u, c := ArriveStep(s, i).value, ArriveStep(s, i).value.jobs[id].core;
            u.rows == s.rows && 0 <= c < |u.clock| && u.clock[c] == s.quantum
  {
    hide Inv, ArriveStep, Idle;
    NotYetRunning(s, i);
    var c := FirstIdleOf(s, |s.sched.cores|);
    if c < |s.sched.cores| {
      ArriveTakesIdle(s, i, c);
    } else {
      ArriveMustWait(s, i);
    }
  }

  /** Whatever else happens, the slice goes on, a unit at a time. */
  lemma SliceStep(s: State, e: Event, id: int, c: nat, start: nat)
    requires Inv(s) && s.sched.scheme == RR && Enabled(s, e) && Step(s, e).Some? && InSlice(s, id, c, start)
    requires e != Finish(id) && e != Expire(id)
    ensures InSlice(Step(s, e).value, id, c, start)
  {
    hide Inv, FinishStep, ExpireStep, ArriveStep;
    StaysOnCore(s, e, id);
    StepConstants(s, e);
    match e
    case Finish(i) => FinishHandsOver(s, i); OthersElsewhere(s, i, id); RunsIsOnCore(s, i);
    case Expire(i) => ExpireHandsOver(s, i); OthersElsewhere(s, i, id); RunsIsOnCore(s, i);
    case Arrive(i) => ArriveSparesSlice(s, i, id);
    case Tick(row) =>
      assert row[c] == Some(id);
    case _ =>
  }

  lemma ArriveSparesSlice(s: State, i: int, id: int)
    requires Inv(s) && s.sched.scheme == RR && Enabled(s, Arrive(i)) && ArriveStep(s, i).Some? && Runs(s, id)
    ensures var u, c := ArriveStep(s, i).value, s.jobs[id].core;
            u.rows == s.rows && 0 <= c < |s.clock| == |u.clock| && u.clock[c] == s.clock[c]
  {
    RunsIsOnCore(s, id);
    hide Inv, ArriveStep, Idle;
    var c := FirstIdleOf(s, |s.sched.cores|);
    if c < |s.sched.cores| {
      IdleIsNotHis(s, c, id);
      ArriveTakesIdle(s, i, c);
    } else {
      ArriveMustWait(s, i);
    }
  }

  lemma IdleIsNotHis(s: State, c: int, id: int)
    requires Idle(s, c) && Runs(s, id)
    ensures s.jobs[id].core != c
  {
  }

  lemma {:induction false} SliceGoesOn(s: State, events: seq<Event>, t: State, id: int, c: nat, start: nat)
    requires Inv(s) && s.sched.scheme == RR && IsRun(s, events, t) && InSlice(s, id, c, start)
    requires Finish(id) !in events && Expire(id) !in events
    ensures InSlice(t, id, c, start) && Inv(t) && t.sched.scheme == RR && t.quantum == s.quantum
    decreases |events|
  {
    if events == [] {
    } else {
      hide Inv, Step, InSlice;
      EveryEventGoesThrough(s, events[0]);
      SliceStep(s, events[0], id, c, start);
      StepConstants(s, events[0]);
      SliceGoesOn(Step(s, events[0]).value, events[1..], t, id, c, start);
    }
  }

  /** When a slice is over: the clock says it, and no unit can pass before the job has been offered back. */
  lemma SliceIsOver(t: State, id: int, c: nat, start: nat)
    requires Inv(t) && t.sched.scheme == RR && InSlice(t, id, c, start)
    ensures |t.rows| <= start + t.quantum
    ensures Enabled(t, Expire(id)) <==> t.phase == Expiring && |t.rows| == start + t.quantum
    ensures t.phase == Arriving ==> |t.rows| < start + t.quantum
  {
    RunsIsOnCore(t, id);
    hide Sound, Conserving;
  }

  lemma NobodyWaits(s: State)
    requires Inv(s)
    ensures s.sched.queue == [] <==> forall i :: !Waits(s, i)
  {
    if s.sched.queue != [] { QueuedWaits(s, 0); }
    hide Inv;
    if i :| Waits(s, i) {
      var k := WaitsIsQueued(s, i);
    }
  }

  lemma ExpiredGoesBack(t: State, id: int)
    requires Inv(t) && Enabled(t, Expire(id))
    ensures Step(t, Expire(id)).Some?
    ensures var u := Step(t, Expire(id)).value;
            if t.sched.queue == [] then PutsOnCore(t, Expire(id), id) && u.jobs == t.jobs
            else Waits(u, id) && u.sched.queue != [] && u.sched.queue[|u.sched.queue| - 1].number == id
  {
    ExpireHandsOver(t, id);
    RunsIsOnCore(t, id);
    hide Inv, ExpireStep;
  }

  /** And then it is at the end of the queue, or has its core again if nobody waits. */
  lemma OfferedBack(m: Table, cores: nat, quantum: int, events: seq<Event>, t: State, id: int)
    requires Reached(m, cores, RR, quantum, events, t) && Enabled(t, Expire(id))
    ensures Step(t, Expire(id)).Some?
    ensures var u := Step(t, Expire(id)).value;
            if forall i :: !Waits(t, i) then PutsOnCore(t, Expire(id), id) && u.jobs == t.jobs
            else Waits(u, id) && u.sched.queue != [] && u.sched.queue[|u.sched.queue| - 1].number == id
  {
    hide Inv, Enabled, Step, Waits, Runs, Reached, PutsOnCore;
    ReachedFacts(m, cores, RR, quantum, events, t);
    EveryEventGoesThrough(t, Expire(id));
    NobodyWaits(t);
    ExpiredGoesBack(t, id);
  }

  /**
    A time slice is the quantum: from the unit in which a job is put on a core it
    has that core in every row of the timing diagram, unless it completes, until it
    has had it for exactly `quantum` rows; just then it can be offered back, and
    time does not go on before it is.
   */
  lemma SliceIsQuantum(m: Table, cores: nat, quantum: int, before: seq<Event>, s: State, e: Event, id: int,
                       events: seq<Event>, t: State)
    requires Reached(m, cores, RR, quantum, before, s) && Enabled(s, e) && Step(s, e).Some? && PutsOnCore(s, e, id)
    requires IsRun(Step(s, e).value, events, t) && Finish(id) !in events && Expire(id) !in events
    ensures var c, start := Step(s, e).value.jobs[id].core, |s.rows|;
            && id in t.jobs && t.jobs[id].core == c && 0 <= c < cores && start <= |t.rows| <= start + quantum
            && (forall r :: start <= r < |t.rows| ==> c < |t.rows[r]| && t.rows[r][c] == Some(id))
            && (Enabled(t, Expire(id)) <==> t.phase == Expiring && |t.rows| == start + quantum)
            && (t.phase == Arriving ==> |t.rows| < start + quantum)
  {
    ReachedFacts(m, cores, RR, quantum, before, s);
    hide Inv, Step, Enabled, IsRun;
    SliceStarts(s, e, id);
    EveryEventGoesThrough(s, e);
    StepConstants(s, e);
    var u := Step(s, e).value;
    SliceGoesOn(u, events, t, id, u.jobs[id].core, |s.rows|);
    SliceIsOver(t, id, u.jobs[id].core, |s.rows|);
    RunsIsOnCore(u, id);
  }
}
