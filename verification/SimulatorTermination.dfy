/** The simulation ends exactly when every job can finish, and what its reports add up to. */
module SimulatorTermination {
  import opened Prelude
  import opened SchedulerModel
  import opened SimulatorModel
  import opened SimulatorInvariants
  import opened SimulatorEvents
  import opened SimulatorTheorems

  // ---------- the work that is left ----------

  ghost function AnyId(m: Table): (id: int)
    requires |m| > 0
    ensures id in m
  {
    assert |m.Keys| == |m|;
    Any(m.Keys)
  }

  ghost function Work(m: Table): int
    decreases |m|
  {
    if |m| == 0 then 0
    else
      var id := AnyId(m);
      assert |m - {id}| < |m| by { Smaller(m, id); }
      m[id].run + Work(m - {id})
  }

  lemma Smaller(m: Table, id: int)
    requires id in m
    ensures |m - {id}| == |m| - 1
  {
    assert (m - {id}).Keys == m.Keys - {id};
    assert |(m - {id}).Keys| == |m - {id}| && |m.Keys| == |m|;
  }

  lemma {:induction false} WorkWithout(m: Table, id: int)
    requires id in m
    ensures Work(m) == m[id].run + Work(m - {id})
    decreases |m|
  {
    Smaller(m, id);
    var x := AnyId(m);
    if x == id {
    } else {
      Smaller(m, x);
      WorkWithout(m - {x}, id);
      WorkWithout(m - {id}, x);
      assert m - {x} - {id} == m - {id} - {x};
    }
  }

  ghost predicate Shrinks(m: Table, m': Table)
  {
    && (forall id :: id in m ==> m[id].run >= 0)
    && (forall id :: id in m' ==> id in m && m'[id].run <= m[id].run)
  }

  lemma ShrinksWithout(m: Table, m': Table, id: int)
    requires Shrinks(m, m')
    ensures Shrinks(m - {id}, m' - {id})
  {
  }

  lemma {:induction false} WorkIsNatural(m: Table)
    requires forall id :: id in m ==> m[id].run >= 0
    ensures Work(m) >= 0
    decreases |m|
  {
    if |m| == 0 {
    } else {
      Smaller(m, AnyId(m));
      WorkIsNatural(m - {AnyId(m)});
    }
  }

  /** Fewer jobs, each with no more to do, and there is no more work. */
  lemma {:induction false} WorkShrinks(m: Table, m': Table)
    requires Shrinks(m, m')
    ensures Work(m') <= Work(m)
    decreases |m'|
  {
    if |m'| == 0 {
      WorkIsNatural(m);
    } else {
      var id := AnyId(m');
      Smaller(m', id);
      ShrinksWithout(m, m', id);
      WorkShrinks(m - {id}, m' - {id});
      WorkWithout(m, id);
    }
  }

  /** Strictly less work if one of them has less to do. */
  lemma WorkDrops(m: Table, m': Table, id: int)
    requires forall i :: i in m ==> m[i].run >= 0
    requires forall i :: i in m' ==> i in m && m'[i].run <= m[i].run
    requires id in m' && m'[id].run < m[id].run
    ensures Work(m') < Work(m)
  {
    WorkWithout(m, id);
    WorkWithout(m', id);
    WorkShrinks(m - {id}, m' - {id});
  }

  lemma UnitOfWork(m: Table, n: nat, row: Row)
    requires IsRow(m, n, row) && forall id :: id in m ==> m[id].run >= 0
    ensures Work(RunUnit(m)) <= Work(m)
    ensures Busy(row) ==> Work(RunUnit(m)) < Work(m)
  {
    WorkShrinks(m, RunUnit(m));
    if Busy(row) {
      var c :| 0 <= c < |row| && row[c].Some?;
      WorkDrops(m, RunUnit(m), row[c].value);
    }
  }

  ghost function Latest(m: Table): (r: int)
    ensures r >= 0
    ensures forall id :: id in m ==> m[id].arrival <= r
    decreases |m|
  {
    if |m| == 0 then 0
    else
      var id := AnyId(m);
      assert |m - {id}| < |m| by { Smaller(m, id); }
      var rest := Latest(m - {id});
      assert forall i :: i in m && i != id ==> i in m - {id};
      if m[id].arrival <= rest then rest else m[id].arrival
  }

  /** The units of work left, and the time to the latest arrival. */
  ghost function Measure(s: State): int
  {
    Work(s.jobs) + if s.time < Latest(s.input) then Latest(s.input) - s.time else 0
  }

  /** Every job has work, and no arrival is negative: what it takes for a run to end. */
  ghost predicate CanAllFinish(m: Table)
  {
    forall id :: id in m ==> m[id].arrival >= 0 && m[id].run >= 1
  }

  lemma MeasureIsNatural(s: State)
    requires Inv(s) && CanAllFinish(s.input)
    ensures Measure(s) >= 0 && forall id :: id in s.jobs ==> s.jobs[id].run >= 0
  {
    forall id | id in s.jobs ensures s.jobs[id].run >= 0 {
      if s.jobs[id].core == -1 {
        IdleHasWork(s, id);
      } else {
        assert RunningOk(s, s.sched.cores[s.jobs[id].core].value, s.jobs[id].run);
      }
    }
    WorkShrinks(s.jobs, map[]);
  }

  /** Every unit of time costs some of the measure: some core works, or the last arrival is nearer. */
  lemma TickDecreases(s: State, row: Row)
    requires Inv(s) && Enabled(s, Tick(row)) && CanAllFinish(s.input)
    ensures Measure(TickResult(s, row)) < Measure(s)
  {
    hide Recorded, Reported, IsRow, RunUnit, Busy, Work, Latest;
    MeasureIsNatural(s);
    AliveIsBusy(s, row);
    UnitOfWork(s.jobs, |s.clock|, row);
    if !Busy(row) {
      assert |s.jobs| > 0;
      NobodyAlive(s, AnyId(s.jobs));
    }
  }

  lemma NobodyAlive(s: State, id: int)
    requires Inv(s) && id in s.jobs
    ensures s.alive == 0 ==> !s.jobs[id].arrived
    ensures !s.jobs[id].arrived && 0 <= s.jobs[id].arrival != s.time ==> s.time < Latest(s.input)
  {
    if s.jobs[id].arrived {
      assert id in Arrived(s.jobs);
    }
  }

  // ---------- every event costs something ----------

  ghost function Expired(s: State): set<int>
  {
    set c | 0 <= c < |s.sched.cores| && c < |s.clock| && s.sched.cores[c].Some? && s.clock[c] == 0
  }

  ghost function Due(s: State): set<int>
  {
    set id | id in s.jobs && !s.jobs[id].arrived && s.jobs[id].arrival == s.time
  }

  ghost function PhasesLeft(s: State): nat
  {
    match s.phase case Finishing => 2 case Expiring => 1 case Arriving => 0
  }

  /** What is left to do in the phase. */
  ghost function Pending(s: State): nat
  {
    match s.phase
    case Finishing => |s.jobs|
    case Expiring => |Expired(s)|
    case Arriving => |Due(s)|
  }

  ghost predicate Below(t: State, s: State)
  {
    || Measure(t) < Measure(s)
    || (Measure(t) == Measure(s) && PhasesLeft(t) < PhasesLeft(s))
    || (Measure(t) == Measure(s) && PhasesLeft(t) == PhasesLeft(s) && Pending(t) < Pending(s))
  }

  lemma FinishTable(s: State, id: int)
    requires Inv(s) && Enabled(s, Finish(id))
    ensures s.jobs[id].core != -1 && FinishStep(s, id) == Some(FinishResult(s, id))
    ensures var t := FinishResult(s, id);
      && (forall i :: i in t.jobs <==> i in s.jobs && i != id)
      && (forall i :: i in t.jobs ==> t.jobs[i].run == s.jobs[i].run)
      && t.phase == s.phase && t.time == s.time && t.input == s.input
  {
    if s.jobs[id].core == -1 { IdleHasWork(s, id); }
    FinishGoesThrough(s, id);
    FinishFacts(s, id);
  }

  /** With no more work and as much time, only what is pending in the phase can tell. */
  lemma SamePhase(s: State, t: State)
    requires Shrinks(s.jobs, t.jobs)
    requires t.phase == s.phase && t.time == s.time && t.input == s.input
    requires Pending(t) < Pending(s)
    ensures Below(t, s)
  {
    WorkShrinks(s.jobs, t.jobs);
  }

  lemma FewerJobs(m: Table, m': Table, id: int)
    requires id in m && forall i :: i in m' <==> i in m && i != id
    ensures |m'| < |m|
  {
    forall i ensures i in m'.Keys <==> i in m.Keys - {id} {
    }
    assert m'.Keys == m.Keys - {id};
    assert |m'.Keys| == |m'| && |m.Keys| == |m|;
  }

  lemma FinishCosts(s: State, id: int)
    requires Inv(s) && Enabled(s, Finish(id)) && CanAllFinish(s.input)
    ensures FinishStep(s, id).Some? && Below(FinishStep(s, id).value, s)
  {
    FinishTable(s, id);
    MeasureIsNatural(s);
    FewerJobs(s.jobs, FinishResult(s, id).jobs, id);
    SamePhase(s, FinishResult(s, id));
  }

  lemma ExpireTable(s: State, id: int)
    requires Inv(s) && Enabled(s, Expire(id))
    ensures OnCore(s, id) && ExpireStep(s, id) == Some(ExpireResult(s, id))
    ensures var t := ExpireResult(s, id);
      && (forall i :: i in t.jobs <==> i in s.jobs)
      && (forall i :: i in t.jobs ==> t.jobs[i].run == s.jobs[i].run)
      && t.phase == s.phase && t.time == s.time && t.input == s.input
      && |t.sched.cores| == |s.sched.cores| == |s.clock|
      && (forall c :: 0 <= c < |s.sched.cores| && c != s.jobs[id].core ==> t.sched.cores[c] == s.sched.cores[c])
      && t.clock == s.clock[s.jobs[id].core := s.quantum] && s.quantum >= 1
  {
    hide Recorded, Reported, Fair, Ordered, Compare, Agree, FinishResult, ExpireResult, TickResult;
    ExpireGoesThrough(s, id);
    ExpireFacts(s, id);
  }

  lemma FewerExpired(s: State, t: State, c: nat)
    requires c < |s.sched.cores| == |t.sched.cores| == |s.clock| && c in Expired(s)
    requires t.clock == s.clock[c := s.quantum] && s.quantum >= 1
    requires forall b :: 0 <= b < |s.sched.cores| && b != c ==> t.sched.cores[b] == s.sched.cores[b]
    ensures |Expired(t)| < |Expired(s)|
  {
    forall b ensures b in Expired(t) <==> b in Expired(s) && b != c {
    }
    assert Expired(t) == Expired(s) - {c};
  }

  lemma ExpireCosts(s: State, id: int)
    requires Inv(s) && Enabled(s, Expire(id)) && CanAllFinish(s.input)
    ensures ExpireStep(s, id).Some? && Below(ExpireStep(s, id).value, s)
  {
    hide Recorded, Agree, Clocked, InPhase, Work, Inv;
    ExpireTable(s, id);
    MeasureIsNatural(s);
    FewerExpired(s, ExpireResult(s, id), s.jobs[id].core);
    SamePhase(s, ExpireResult(s, id));
  }

  lemma ArriveTable(s: State, id: int)
    requires id in s.jobs && ArriveStep(s, id).Some?
    ensures var t := ArriveStep(s, id).value;
      && (forall i :: i in t.jobs <==> i in s.jobs)
      && (forall i :: i in t.jobs ==> t.jobs[i].run == s.jobs[i].run && t.jobs[i].arrival == s.jobs[i].arrival)
      && (forall i :: i in t.jobs && i != id ==> t.jobs[i].arrived == s.jobs[i].arrived)
      && t.jobs[id].arrived
      && t.phase == s.phase && t.time == s.time && t.input == s.input
  {
  }

  lemma FewerDue(s: State, t: State, id: int)
    requires id in Due(s) && t.time == s.time
    requires forall i :: i in t.jobs <==> i in s.jobs
    requires forall i :: i in t.jobs ==> t.jobs[i].arrival == s.jobs[i].arrival
    requires forall i :: i in t.jobs ==> t.jobs[i].arrived == (i == id || s.jobs[i].arrived)
    ensures |Due(t)| < |Due(s)|
  {
    forall i ensures i in Due(t) <==> i in Due(s) && i != id {
    }
    assert Due(t) == Due(s) - {id};
  }

  lemma ArriveCosts(s: State, id: int)
    requires Inv(s) && Enabled(s, Arrive(id)) && CanAllFinish(s.input)
    ensures ArriveStep(s, id).Some? && Below(ArriveStep(s, id).value, s)
  {
    hide Sound, Measure, ArriveStep;
    ArriveKeeps(s, id);
    ArriveTable(s, id);
    MeasureIsNatural(s);
    var t := ArriveStep(s, id).value;
    FewerDue(s, t, id);
    SamePhase(s, t);
  }

  /** Each event lowers the work left, the phases left or what is pending in the phase, in that order. */
  lemma EveryEventCosts(s: State, e: Event)
    requires Inv(s) && Enabled(s, e) && CanAllFinish(s.input)
    ensures Step(s, e).Some? && Below(Step(s, e).value, s)
  {
    hide Recorded, Reported, Fair, Ordered, Compare, Agree, Counted, Loyal, Conserving, Clocked, InPhase;
    EveryEventGoesThrough(s, e);
    match e
    case Finish(id) => FinishCosts(s, id);
    case FinishingDone =>
    case Expire(id) => ExpireCosts(s, id);
    case ExpiringDone =>
    case Arrive(id) => ArriveCosts(s, id);
    case Tick(row) => TickDecreases(s, row);
  }

  /** No event adds to the measure. */
  lemma NoEventAdds(s: State, e: Event)
    requires Inv(s) && Enabled(s, e) && CanAllFinish(s.input)
    ensures Step(s, e).Some? && Measure(Step(s, e).value) <= Measure(s)
  {
    hide Units, FirstUnit, Sound, Clocked, InPhase, Latest;
    EveryEventGoesThrough(s, e);
    match e
    case Finish(id) => FinishCosts(s, id);
    case FinishingDone =>
    case Expire(id) => ExpireCosts(s, id);
    case ExpiringDone =>
    case Arrive(id) => ArriveCosts(s, id);
    case Tick(row) =>
      MeasureIsNatural(s);
      UnitOfWork(s.jobs, |s.clock|, row);
  }

  /** From `s` to `t` no unit has passed, and there is no more left to do. */
  ghost predicate SameUnit(t: State, s: State)
  {
    t.input == s.input && t.time == s.time && (CanAllFinish(s.input) ==> Measure(t) <= Measure(s))
  }

  /** One unit has passed, and there is less left to do, unless there are jobs that cannot finish. */
  ghost predicate NextUnit(t: State, s: State)
  {
    t.input == s.input && t.time == s.time + 1 && (CanAllFinish(s.input) ==> Measure(t) < Measure(s))
  }

  lemma EventInUnit(s: State, e: Event)
    requires Inv(s) && Enabled(s, e)
    ensures Step(s, e).Some?
    ensures var t := Step(s, e).value; if e.Tick? then NextUnit(t, s) else SameUnit(t, s)
  {
    EveryEventGoesThrough(s, e);
    StepConstants(s, e);
    StepTime(s, e);
    hide Inv, Enabled, Step, Measure;
    if CanAllFinish(s.input) {
      if e.Tick? {
        TickMeasure(s, e.row);
      } else {
        NoEventAdds(s, e);
      }
    }
  }

  lemma TickMeasure(s: State, row: Row)
    requires Inv(s) && Enabled(s, Tick(row)) && CanAllFinish(s.input)
    ensures Step(s, Tick(row)).Some? && Measure(Step(s, Tick(row)).value) < Measure(s)
  {
    hide Inv, Measure;
    EveryEventGoesThrough(s, Tick(row));
    TickDecreases(s, row);
  }

  lemma StepTime(s: State, e: Event)
    requires Enabled(s, e) && Step(s, e).Some?
    ensures Step(s, e).value.time == s.time + if e.Tick? then 1 else 0
  {
  }

  lemma ArrivalsStay(s: State, e: Event)
    requires Inv(s) && Enabled(s, e)
    ensures Step(s, e).Some? && Step(s, e).value.input == s.input
    ensures forall id :: id in Step(s, e).value.jobs ==>
              id in s.jobs && Step(s, e).value.jobs[id].arrival == s.input[id].arrival
  {
    hide Recorded, Fair, Agree, Units, FirstUnit, IsRow, RunUnit, Busy;
    EveryEventGoesThrough(s, e);
    RunConstants(s, [e], Step(s, e).value);
    var t := Step(s, e).value;
    assert Loyal(t);
    match e
    case Finish(id) => FinishTable(s, id);
    case Expire(id) => ExpireTable(s, id);
    case Arrive(id) => ArriveTable(s, id);
    case _ =>
  }

  /** From every state the invariant allows, the events lead to the end. */
  lemma {:induction false} Completes(s: State) returns (events: seq<Event>, t: State)
    requires Inv(s) && CanAllFinish(s.input)
    ensures IsRun(s, events, t) && Over(t)
    decreases Measure(s), PhasesLeft(s), Pending(s)
  {
    hide Recorded, Reported, Fair, Agree, FinishStep, ExpireStep, ArriveStep, TickStep, Enabled,
         IsRow, RunUnit, Busy, Clocked, InPhase, Measure, PhasesLeft, Pending, Over;
    MeasureIsNatural(s);
    if Over(s) {
      return [], s;
    }
    var e := AlwaysEnabled(s);
    EveryEventGoesThrough(s, e);
    EveryEventCosts(s, e);
    ArrivalsStay(s, e);
    var u := Step(s, e).value;
    MeasureIsNatural(u);
    var rest, v := Completes(u);
    assert ([e] + rest)[1..] == rest;
    return [e] + rest, v;
  }

  /** A job with negative run time has it for ever. */
  lemma WorkIsNeverDone(s: State, id: int)
    requires Inv(s) && id in s.jobs && s.input[id].run < 0
    ensures s.jobs[id].run < 0
  {
    if s.jobs[id].arrived {
      if s.jobs[id].core == -1 {
        assert InQueue(s.sched.queue, id);
        var k :| 0 <= k < |s.sched.queue| && s.sched.queue[k].number == id;
        assert WaitingOk(s, s.sched.queue[k], s.jobs[id].run);
      } else {
        assert RunningOk(s, s.sched.cores[s.jobs[id].core].value, s.jobs[id].run);
      }
    }
  }

  /** A job with a negative arrival time never arrives, and one with a negative run time is never done. */
  lemma {:induction false} NeverLeaves(s: State, events: seq<Event>, t: State, id: int)
    requires Inv(s) && IsRun(s, events, t) && id in s.jobs && (s.jobs[id].arrival < 0 || s.input[id].run < 0)
    ensures id in t.jobs
    decreases |events|
  {
    if events == [] {
    } else {
      var e := events[0];
      EveryEventGoesThrough(s, e);
      var u := Step(s, e).value;
      StaysOne(s, e, id);
      NeverLeaves(u, events[1..], t, id);
    }
  }

  lemma StaysOne(s: State, e: Event, id: int)
    requires Inv(s) && Enabled(s, e) && Step(s, e).Some? && Inv(Step(s, e).value)
    requires id in s.jobs && (s.jobs[id].arrival < 0 || s.input[id].run < 0)
    ensures var u := Step(s, e).value;
            id in u.jobs && u.jobs[id].arrival == s.jobs[id].arrival && u.input == s.input
  {
    hide Recorded, Reported, Fair, Ordered, Agree, Counted, Clocked, InPhase, FinishResult, ExpireResult, TickResult;
    StepConstants(s, e);
    if s.input[id].run < 0 { WorkIsNeverDone(s, id); }
    match e {
      case Finish(i) =>
        FinishTable(s, i);
        DoneHasArrived(s, i);
      case Expire(i) => ExpireTable(s, i);
      case Arrive(i) => ArriveTable(s, i);
      case _ =>
    }
    assert Loyal(Step(s, e).value);
  }

  lemma DoneHasArrived(s: State, id: int)
    requires Inv(s) && Enabled(s, Finish(id))
    ensures s.jobs[id].arrived && s.jobs[id].arrival >= 0
  {
    hide Recorded, Reported, Fair, Ordered, Clocked, InPhase;
    if s.jobs[id].core == -1 { IdleHasWork(s, id); }
  }

  ghost predicate CanEnd(s: State)
  {
    exists events, t :: IsRun(s, events, t) && Over(t)
  }

  lemma NeverEnds(s: State, id: int)
    requires Inv(s) && id in s.jobs && (s.jobs[id].arrival < 0 || s.input[id].run < 0)
    ensures !CanEnd(s)
  {
    forall events, t | IsRun(s, events, t) ensures !Over(t) {
      NeverLeaves(s, events, t, id);
    }
  }

  /** A job without work when it is read is completed while on no core: the first event accesses `cores[-1]`. */
  lemma DiesAtOnce(m: Table, cores: nat, scheme: Scheme, quantum: int, id: int)
    requires Given(m, cores, scheme, quantum) && id in m && m[id].run == 0
    ensures var s := Init(m, cores, scheme, quantum);
            && Enabled(s, Finish(id)) && (forall e :: Enabled(s, e) ==> Step(s, e) == None) && !CanEnd(s)
  {
    var s := Init(m, cores, scheme, quantum);
    forall e | Enabled(s, e) ensures Step(s, e) == None {
      assert e.Finish? && s.jobs[e.id].core == -1;
    }
    forall events, t | IsRun(s, events, t) ensures !Over(t) {
      assert events == [] && id in t.jobs;
    }
  }

  ghost predicate CanDie(s: State)
  {
    exists events, t, e :: IsRun(s, events, t) && Enabled(t, e) && Step(t, e) == None
  }

  /** A run can die exactly when some job has no work when it is read. */
  lemma DiesIffNoWork(m: Table, cores: nat, scheme: Scheme, quantum: int)
    requires Given(m, cores, scheme, quantum)
    ensures CanDie(Init(m, cores, scheme, quantum)) <==> exists id :: id in m && m[id].run == 0
  {
    var s := Init(m, cores, scheme, quantum);
    if id :| id in m && m[id].run == 0 {
      DiesAtOnce(m, cores, scheme, quantum, id);
      var events: seq<Event> := [];
      assert IsRun(s, events, s) && Enabled(s, Finish(id)) && Step(s, Finish(id)) == None;
    } else {
      InitHolds(m, cores, scheme, quantum);
      forall events, t, e | IsRun(s, events, t) && Enabled(t, e) ensures Step(t, e) != None {
        RunKeeps(s, events, t);
        EveryEventGoesThrough(t, e);
      }
    }
  }

  /** The simulation can end exactly when every job has work and no arrival time is negative. */
  lemma EndsIffEveryJobCan(m: Table, cores: nat, scheme: Scheme, quantum: int)
    requires Given(m, cores, scheme, quantum)
    ensures CanEnd(Init(m, cores, scheme, quantum)) <==> CanAllFinish(m)
  {
    var s := Init(m, cores, scheme, quantum);
    if CanAllFinish(m) {
      InitHolds(m, cores, scheme, quantum);
      var events, t := Completes(s);
      assert IsRun(s, events, t) && Over(t);
    } else if id :| id in m && m[id].run == 0 {
      DiesAtOnce(m, cores, scheme, quantum, id);
    } else {
      InitHolds(m, cores, scheme, quantum);
      var id :| id in m && (m[id].arrival < 0 || m[id].run < 1);
      NeverEnds(s, id);
    }
  }

  /** And then it must: whatever comes next as long as jobs are left, at some point there are none. */
  lemma {:induction false} EveryRunEnds(states: nat -> State, events: nat -> Event, i: nat)
    requires Inv(states(i)) && CanAllFinish(states(i).input)
    requires forall k: nat :: !Over(states(k)) ==>
               Enabled(states(k), events(k)) && Step(states(k), events(k)) == Some(states(k + 1))
    ensures exists k: nat :: i <= k && Over(states(k))
    decreases Measure(states(i)), PhasesLeft(states(i)), Pending(states(i))
  {
    hide Inv, Enabled, Step, Measure, PhasesLeft, Pending, Over;
    if Over(states(i)) {
    } else {
      EveryEventGoesThrough(states(i), events(i));
      EveryEventCosts(states(i), events(i));
      StepConstants(states(i), events(i));
      NaturalBelow(states(i), states(i + 1));
      EveryRunEnds(states, events, i + 1);
    }
  }

  lemma NaturalBelow(s: State, t: State)
    requires Inv(s) && Inv(t) && CanAllFinish(s.input) && t.input == s.input
    ensures Measure(s) >= 0 && Measure(t) >= 0
  {
    MeasureIsNatural(s);
    MeasureIsNatural(t);
  }

  /** One job, due before the clock starts. */
  lemma NegativeArrivalNeverEnds()
    ensures var m := map[0 := SimJob(0, -1, 1, 0, -1, false)];
            Configured(m, 1, FCFS, 0) && !CanEnd(Init(m, 1, FCFS, 0))
  {
    var m := map[0 := SimJob(0, -1, 1, 0, -1, false)];
    EndsIffEveryJobCan(m, 1, FCFS, 0);
    assert m[0].arrival < 0;
  }

  /** One job, with nothing to do. */
  lemma NoWorkDies()
    ensures var m := map[0 := SimJob(0, 0, 0, 0, -1, false)];
            Given(m, 1, FCFS, 0) && CanDie(Init(m, 1, FCFS, 0)) && !CanEnd(Init(m, 1, FCFS, 0))
  {
    var m := map[0 := SimJob(0, 0, 0, 0, -1, false)];
    assert m[0].run == 0;
    DiesIffNoWork(m, 1, FCFS, 0);
    EndsIffEveryJobCan(m, 1, FCFS, 0);
  }

  // ---------- the totals ----------

  lemma TrueTotals(m: Table, rows: seq<Row>, r: Report)
    requires TrueReport(m, rows, r)
    ensures r.job.number in m && r.turnaround == r.waiting + m[r.job.number].run && 0 <= r.response <= r.waiting
  {
  }

  lemma TrueWithout(m: Table, id: int, rows: seq<Row>, r: Report)
    requires TrueReport(m, rows, r) && r.job.number != id
    ensures TrueReport(m - {id}, rows, r)
  {
  }

  lemma {:induction false} TotalsOf(done: seq<Report>, m: Table, rows: seq<Row>)
    requires forall k :: 0 <= k < |done| ==> TrueReport(m, rows, done[k])
    requires forall k, l :: 0 <= k < l < |done| ==> done[k].job.number != done[l].job.number
    requires forall id :: id in m <==> InDone(done, id)
    ensures SumTurnaround(done) == SumWaiting(done) + Work(m)
    ensures 0 <= SumResponse(done) <= SumWaiting(done)
    decreases |done|
  {
    hide TrueReport;
    if done == [] {
      if |m| > 0 {
        var id := AnyId(m);
        assert false;
      }
    } else {
      hide TrueReport, InDone, Work;
      var last := |done| - 1;
      var id, rest := done[last].job.number, done[..last];
      TrueTotals(m, rows, done[last]);
      WorkWithout(m, id);
      forall i ensures i in m - {id} <==> InDone(rest, i) {
        InDoneButLast(done, i);
      }
      forall k | 0 <= k < |rest| ensures TrueReport(m - {id}, rows, rest[k]) {
        TrueWithout(m, id, rows, done[k]);
      }
      TotalsOf(rest, m - {id}, rows);
    }
  }

  lemma InDoneButLast(done: seq<Report>, id: int)
    requires done != []
    ensures InDone(done, id) <==> InDone(done[..|done| - 1], id) || id == done[|done| - 1].job.number
  {
    var rest := done[..|done| - 1];
    if InDone(done, id) && id != done[|done| - 1].job.number {
      var k :| 0 <= k < |done| && done[k].job.number == id;
      assert rest[k].job.number == id;
    }
    if InDone(rest, id) {
      var k :| 0 <= k < |rest| && rest[k].job.number == id;
      assert done[k].job.number == id;
    }
  }

  /** When all is over, the time the jobs spent in the system is the time they waited and the work they brought. */
  lemma TimeIsConserved(m: Table, cores: nat, scheme: Scheme, quantum: int, events: seq<Event>, t: State)
    requires Reached(m, cores, scheme, quantum, events, t) && Over(t)
    ensures SumTurnaround(t.sched.done) == SumWaiting(t.sched.done) + Work(m)
    ensures 0 <= SumResponse(t.sched.done) <= SumWaiting(t.sched.done)
    ensures t.sched.count == |m|
  {
    ReportsAreTrue(m, cores, scheme, quantum, events, t);
    EveryJobIsReported(m, cores, scheme, quantum, events, t);
    forall id ensures id in m <==> InDone(t.sched.done, id) {
      if InDone(t.sched.done, id) {
        var k :| 0 <= k < |t.sched.done| && t.sched.done[k].job.number == id;
        assert TrueReport(m, t.rows, t.sched.done[k]);
      }
    }
    TotalsOf(t.sched.done, m, t.rows);
  }
}
