/** What holds of every run of the simulator, from the first state on. */
module SimulatorTheorems {
  import opened Prelude
  import opened PriQueueModel
  import opened SchedulerModel
  import opened SimulatorModel
  import opened SimulatorInvariants
  import opened SimulatorMoves
  import opened SimulatorEvents

  // ---------- safety of every run ----------

  lemma InitHolds(m: Table, cores: nat, scheme: Scheme, quantum: int)
    requires Configured(m, cores, scheme, quantum)
    ensures Inv(Init(m, cores, scheme, quantum))
  {
    var s := Init(m, cores, scheme, quantum);
    NobodyArrived(m);
  }

  lemma NobodyArrived(m: Table)
    ensures (forall id :: id in m ==> !m[id].arrived) ==> |Arrived(m)| == 0
  {
    if |Arrived(m)| > 0 {
      var id := Any(Arrived(m));
      assert m[id].arrived;
    }
  }

  /** No event kills the run: the exits with status 3 and the assertion of line 379 are dead code. */
  lemma EveryEventGoesThrough(s: State, e: Event)
    requires Inv(s) && Enabled(s, e)
    ensures Step(s, e).Some? && Inv(Step(s, e).value)
  {
    hide Sound, Conserving, FinishStep, ExpireStep, ArriveStep, TickStep;
    match e
    case Finish(id) => FinishKeeps(s, id);
    case FinishingDone => SoundClock(s, s.clock, Expiring);
    case Expire(id) => ExpireKeeps(s, id);
    case ExpiringDone =>
      SoundClock(s, s.clock, Arriving);
      ExpiringDoneSettled(s);
    case Arrive(id) => ArriveKeeps(s, id);
    case Tick(row) => TickKeeps(s, row);
  }

  lemma ExpiringDoneSettled(s: State)
    requires Inv(s) && Enabled(s, ExpiringDone)
    ensures Settled(s.(phase := Arriving))
  {
    if s.sched.scheme == RR {
      forall c | 0 <= c < |s.clock| && s.sched.cores[c].Some? ensures s.clock[c] >= 1 {
        assert s.jobs[s.sched.cores[c].value.number].core == c;
      }
    }
  }

  /** The invariant holds after any number of events. */
  lemma {:induction false} RunKeeps(s: State, events: seq<Event>, t: State)
    requires Inv(s) && IsRun(s, events, t)
    ensures Inv(t)
    decreases |events|
  {
    if events == [] {
    } else {
      EveryEventGoesThrough(s, events[0]);
      RunKeeps(Step(s, events[0]).value, events[1..], t);
    }
  }

  /** As long as jobs are left, something can happen. */
  lemma AlwaysEnabled(s: State) returns (e: Event)
    requires Inv(s) && !Over(s)
    ensures Enabled(s, e)
  {
    match s.phase
    case Finishing =>
      if id :| id in s.jobs && s.jobs[id].run == 0 {
        e := Finish(id);
      } else {
        e := FinishingDone;
      }
    case Expiring =>
      if id :| && id in s.jobs && s.sched.scheme == RR
               && 0 <= s.jobs[id].core < |s.clock| && s.clock[s.jobs[id].core] == 0 {
        e := Expire(id);
      } else {
        e := ExpiringDone;
      }
    case Arriving =>
      if id :| id in s.jobs && !s.jobs[id].arrived && s.jobs[id].arrival == s.time {
        e := Arrive(id);
      } else {
        CoreRowIsRow(s.jobs, s.sched.cores, s.sched.queue, CoreRow(s.sched.cores));
        e := Tick(CoreRow(s.sched.cores));
      }
  }

  ghost predicate Reached(m: Table, cores: nat, scheme: Scheme, quantum: int, events: seq<Event>, t: State)
  {
    Configured(m, cores, scheme, quantum) && IsRun(Init(m, cores, scheme, quantum), events, t)
  }

  lemma ReachedInv(m: Table, cores: nat, scheme: Scheme, quantum: int, events: seq<Event>, t: State)
    requires Reached(m, cores, scheme, quantum, events, t)
    ensures Inv(t)
  {
    InitHolds(m, cores, scheme, quantum);
    RunKeeps(Init(m, cores, scheme, quantum), events, t);
  }

  /** Nothing but the first state decides these. */
  lemma StepConstants(s: State, e: Event)
    requires Inv(s) && Enabled(s, e) && Step(s, e).Some?
    ensures var t := Step(s, e).value;
            && t.input == s.input && t.sched.scheme == s.sched.scheme && t.quantum == s.quantum
            && |t.sched.cores| == |s.sched.cores|
  {
    hide Sound;
  }

  lemma {:induction false} RunConstants(s: State, events: seq<Event>, t: State)
    requires Inv(s) && IsRun(s, events, t)
    ensures t.input == s.input && t.sched.scheme == s.sched.scheme && t.quantum == s.quantum
    ensures |t.sched.cores| == |s.sched.cores|
    decreases |events|
  {
    if events == [] {
    } else {
      hide Inv, Step, Enabled;
      EveryEventGoesThrough(s, events[0]);
      StepConstants(s, events[0]);
      RunConstants(Step(s, events[0]).value, events[1..], t);
    }
  }

  /**
    The simulator and the scheduler never disagree: an active job has core c
    exactly when cores[c] holds it, an arrived one has core -1 exactly when it
    is queued, so no job is on two cores or both running and waiting; and no
    event that can come next kills the run.
   */
  lemma ViewsAgree(m: Table, cores: nat, scheme: Scheme, quantum: int, events: seq<Event>, t: State)
    requires Reached(m, cores, scheme, quantum, events, t)
    ensures |t.sched.cores| == cores
    ensures forall id, c :: id in t.jobs && 0 <= c < cores ==>
      (t.jobs[id].core == c <==> t.sched.cores[c].Some? && t.sched.cores[c].value.number == id)
    ensures forall id :: id in t.jobs ==>
      (t.jobs[id].arrived && t.jobs[id].core == -1 <==> InQueue(t.sched.queue, id))
    ensures forall c :: 0 <= c < cores && t.sched.cores[c].Some? ==> t.sched.cores[c].value.number in t.jobs
    ensures forall k :: 0 <= k < |t.sched.queue| ==> t.sched.queue[k].number in t.jobs
    ensures forall a, b :: a in t.jobs && b in t.jobs && t.jobs[a].core == t.jobs[b].core != -1 ==> a == b
    ensures Distinct(t.sched.queue)
    ensures forall e :: Enabled(t, e) ==> Step(t, e).Some?
  {
    ReachedInv(m, cores, scheme, quantum, events, t);
    InitHolds(m, cores, scheme, quantum);
    RunConstants(Init(m, cores, scheme, quantum), events, t);
    forall e | Enabled(t, e) ensures Step(t, e).Some? {
      EveryEventGoesThrough(t, e);
    }
  }

  /** No core idles while a job waits, and no job waits while a core idles. */
  lemma WorkConserving(m: Table, cores: nat, scheme: Scheme, quantum: int, events: seq<Event>, t: State)
    requires Reached(m, cores, scheme, quantum, events, t)
    ensures (exists c :: 0 <= c < |t.sched.cores| && t.sched.cores[c].None?) ==>
      t.sched.queue == [] && forall id :: id in t.jobs && t.jobs[id].arrived ==> t.jobs[id].core != -1
  {
    ReachedInv(m, cores, scheme, quantum, events, t);
  }

  /**
    Under PSJF the running jobs are the shortest in the system at every moment:
    each has no more time left than any queued job, by the simulator's own
    count, and an equal one has not arrived later.
   */
  lemma ShortestRun(m: Table, cores: nat, quantum: int, events: seq<Event>, t: State, a: int, b: int)
    requires Reached(m, cores, PSJF, quantum, events, t)
    requires a in t.jobs && b in t.jobs && t.jobs[a].arrived && t.jobs[b].arrived
    requires t.jobs[a].core != -1 && t.jobs[b].core == -1
    ensures t.jobs[a].run <= t.jobs[b].run
    ensures t.jobs[a].run == t.jobs[b].run ==> t.jobs[a].arrival <= t.jobs[b].arrival
  {
    hide Reported, Fair, Counted, Step, IsRun;
    ReachedInv(m, cores, PSJF, quantum, events, t);
    InitHolds(m, cores, PSJF, quantum);
    RunConstants(Init(m, cores, PSJF, quantum), events, t);
    assert InQueue(t.sched.queue, b);
    var k :| 0 <= k < |t.sched.queue| && t.sched.queue[k].number == b;
    var j := t.sched.cores[t.jobs[a].core].value;
    assert WaitingOk(t, t.sched.queue[k], t.jobs[b].run);
    assert RunningOk(t, j, t.jobs[a].run);
    assert Compare(PSJF, Charged(j, t.time), t.sched.queue[k]) <= 0;
  }

  /**
    Except under round robin, the remaining time the scheduler keeps is exact:
    charged up to now for a running job, as it stands for a queued one. And the
    queue never leaves the scheme's order, though the keys in it are mutable.
   */
  lemma RemainingTimeIsExact(m: Table, cores: nat, scheme: Scheme, quantum: int, events: seq<Event>, t: State)
    requires Reached(m, cores, scheme, quantum, events, t) && scheme != RR
    ensures forall c :: 0 <= c < |t.sched.cores| && t.sched.cores[c].Some? ==>
      var j := t.sched.cores[c].value;
      j.number in t.jobs && j.remaining - (t.time - j.last) == t.jobs[j.number].run
    ensures forall k :: 0 <= k < |t.sched.queue| ==>
      var j := t.sched.queue[k];
      j.number in t.jobs && j.remaining == t.jobs[j.number].run
    ensures Sorted(Comparer(scheme), t.sched.queue)
  {
    ReachedInv(m, cores, scheme, quantum, events, t);
    InitHolds(m, cores, scheme, quantum);
    RunConstants(Init(m, cores, scheme, quantum), events, t);
    forall c | 0 <= c < |t.sched.cores| && t.sched.cores[c].Some?
      ensures t.sched.cores[c].value.number in t.jobs
      ensures Effective(t.sched.cores[c].value, t.time) == t.jobs[t.sched.cores[c].value.number].run {
      assert RunningOk(t, t.sched.cores[c].value, t.jobs[t.sched.cores[c].value.number].run);
    }
    forall k | 0 <= k < |t.sched.queue|
      ensures t.sched.queue[k].number in t.jobs
      ensures t.sched.queue[k].remaining == t.jobs[t.sched.queue[k].number].run {
      assert WaitingOk(t, t.sched.queue[k], t.jobs[t.sched.queue[k].number].run);
    }
  }

  /** Under FCFS and RR nobody first runs before a job that arrived earlier. */
  lemma FirstComeFirstStarted(m: Table, cores: nat, scheme: Scheme, quantum: int, events: seq<Event>, t: State,
                              a: int, b: int, u: nat)
    requires Reached(m, cores, scheme, quantum, events, t) && (scheme == FCFS || scheme == RR)
    requires a in m && b in m && 0 <= m[a].arrival < m[b].arrival
    requires u < |t.rows| && Ran(t.rows[u], b)
    ensures exists v :: 0 <= v <= u && Ran(t.rows[v], a)
  {
    hide Reported, Agree, Units, FirstUnit, FinishStep, ExpireStep, ArriveStep, TickStep, Clocked, InPhase, IsRun;
    ReachedInv(m, cores, scheme, quantum, events, t);
    InitHolds(m, cores, scheme, quantum);
    RunConstants(Init(m, cores, scheme, quantum), events, t);
    UnitsAndFirst(t.rows, b);
    assert Present(t, b);
    PresentArrivedByNow(t, b);
    assert Present(t, a);
    assert FirstUnit(t.rows, a) <= FirstUnit(t.rows, b) <= u;
    assert Ran(t.rows[FirstUnit(t.rows, a)], a);
  }

  // ---------- the reported statistics ----------

  /** The number of units from `lo` to `hi` in which the job did not run. */
  ghost function Waited(rows: seq<Row>, id: int, lo: nat, hi: nat): nat
    requires lo <= hi <= |rows|
    decreases hi
  {
    if lo == hi then 0 else Waited(rows, id, lo, hi - 1) + if Ran(rows[hi - 1], id) then 0 else 1
  }

  lemma {:induction false} WaitedIsTheRest(rows: seq<Row>, id: int, lo: nat, hi: nat)
    requires lo <= hi <= |rows|
    requires forall t :: 0 <= t < lo ==> !Ran(rows[t], id)
    ensures Units(rows[..hi], id) + Waited(rows, id, lo, hi) == hi - lo
    decreases hi
  {
    if lo < hi {
      WaitedIsTheRest(rows, id, lo, hi - 1);
      assert rows[..hi] == rows[..hi - 1] + [rows[hi - 1]];
      UnitsAppend(rows[..hi - 1], rows[hi - 1], id);
    } else {
      UnitsAndFirst(rows[..hi], id);
    }
  }

  lemma {:induction false} UnitsAfter(rows: seq<Row>, id: int, hi: nat)
    requires hi <= |rows|
    requires forall t :: hi <= t < |rows| ==> !Ran(rows[t], id)
    ensures Units(rows[..hi], id) == Units(rows, id)
    decreases |rows|
  {
    if hi < |rows| {
      var r := rows[..|rows| - 1];
      UnitsAfter(r, id, hi);
      assert r[..hi] == rows[..hi];
    } else {
      assert rows[..hi] == rows;
    }
  }

  /**
    What a report means: the job ran for its running time, all of it between its
    arrival and the moment it left, its waiting time is the number of units in
    between in which it was on no core, its response time the time from its
    arrival to the first unit it really ran in, and its turnaround time ends
    with the last one.
   */
  ghost predicate TrueReport(m: Table, rows: seq<Row>, r: Report)
  {
    var id := r.job.number;
    && id in m && 0 <= m[id].arrival
    && m[id].arrival <= m[id].arrival + r.turnaround <= |rows|
    && (forall t :: 0 <= t < |rows| && Ran(rows[t], id) ==> m[id].arrival <= t < m[id].arrival + r.turnaround)
    && r.turnaround >= 1 && Ran(rows[m[id].arrival + r.turnaround - 1], id)
    && Units(rows, id) == m[id].run
    && r.waiting == Waited(rows, id, m[id].arrival, m[id].arrival + r.turnaround)
    && r.turnaround == r.waiting + m[id].run
    && r.response == FirstUnit(rows, id) - m[id].arrival
    && 0 <= r.response <= r.waiting
  }

  lemma ReportIsTrue(m: Table, rows: seq<Row>, r: Report)
    requires ReportOk(m, rows, r)
    ensures TrueReport(m, rows, r)
  {
    var id := r.job.number;
    var lo := m[id].arrival;
    var hi := lo + r.turnaround;
    var f := FirstUnit(rows, id);
    UnitsAndFirst(rows, id);
    assert Ran(rows[f], id) && lo <= f < hi;
    WaitedIsTheRest(rows, id, lo, hi);
    UnitsAfter(rows, id, hi);
    WaitedIsTheRest(rows, id, lo, f);
    UnitsAndFirst(rows[..f], id);
    WaitedGrows(rows, id, lo, f, hi);
  }

  lemma {:induction false} WaitedGrows(rows: seq<Row>, id: int, lo: nat, mid: nat, hi: nat)
    requires lo <= mid <= hi <= |rows|
    ensures Waited(rows, id, lo, mid) <= Waited(rows, id, lo, hi)
    decreases hi
  {
    if mid == hi {
    } else {
      WaitedGrows(rows, id, lo, mid, hi - 1);
    }
  }

  /** Every report made so far is true of the timing diagram, and stays so. */
  lemma ReportsAreTrue(m: Table, cores: nat, scheme: Scheme, quantum: int, events: seq<Event>, t: State)
    requires Reached(m, cores, scheme, quantum, events, t)
    ensures forall k :: 0 <= k < |t.sched.done| ==> TrueReport(m, t.rows, t.sched.done[k])
    ensures forall k, l :: 0 <= k < l < |t.sched.done| ==> t.sched.done[k].job.number != t.sched.done[l].job.number
    ensures forall id :: id in m ==> (InDone(t.sched.done, id) <==> id !in t.jobs)
  {
    ReachedInv(m, cores, scheme, quantum, events, t);
    InitHolds(m, cores, scheme, quantum);
    RunConstants(Init(m, cores, scheme, quantum), events, t);
    forall k | 0 <= k < |t.sched.done| ensures TrueReport(m, t.rows, t.sched.done[k]) {
      assert ReportOk(m, t.rows, t.sched.done[k]);
      ReportIsTrue(m, t.rows, t.sched.done[k]);
    }
  }

  lemma NobodyLeft(m: Table, cores: seq<Option<Job>>, q: seq<Job>)
    requires Agree(m, cores, q)
    ensures m == map[] ==> q == [] && forall c :: 0 <= c < |cores| ==> cores[c].None?
  {
    if q != [] {
      assert q[0].number in m;
    }
  }

  /** When the simulation is over every job has exactly one report, and `job_count` divides the sums rightly. */
  lemma EveryJobIsReported(m: Table, cores: nat, scheme: Scheme, quantum: int, events: seq<Event>, t: State)
    requires Reached(m, cores, scheme, quantum, events, t) && Over(t)
    ensures forall id :: id in m ==> InDone(t.sched.done, id)
    ensures t.sched.count == |t.sched.done| == |m|
    ensures t.sched.queue == [] && forall c :: 0 <= c < |t.sched.cores| ==> t.sched.cores[c].None?
  {
    hide Recorded, Fair, Ordered, Compare, Agree, Loyal, FinishStep, ExpireStep, ArriveStep, TickStep, IsRun;
    ReachedInv(m, cores, scheme, quantum, events, t);
    InitHolds(m, cores, scheme, quantum);
    RunConstants(Init(m, cores, scheme, quantum), events, t);
    NobodyArrived(t.jobs);
    NobodyLeft(t.jobs, t.sched.cores, t.sched.queue);
    forall k | 0 <= k < |t.sched.done| ensures t.sched.done[k].job.number in m {
      assert ReportOk(t.input, t.rows, t.sched.done[k]);
    }
    assert forall id :: id in m ==> InDone(t.sched.done, id);
    ReportsCover(t.sched.done, m.Keys);
    assert |m.Keys| == |m|;
  }

  lemma {:induction false} ReportsCover(done: seq<Report>, ids: set<int>)
    requires forall k :: 0 <= k < |done| ==> done[k].job.number in ids
    requires forall k, l :: 0 <= k < l < |done| ==> done[k].job.number != done[l].job.number
    requires forall id :: id in ids ==> InDone(done, id)
    ensures |done| == |ids|
    decreases |done|
  {
    if done == [] {
      if |ids| > 0 {
        var id := Any(ids);
        assert false;
      }
    } else {
      var last := |done| - 1;
      var id, rest := done[last].job.number, done[..last];
      forall i | i in ids - {id} ensures InDone(rest, i) {
        assert InDone(done, i);
        var k :| 0 <= k < |done| && done[k].job.number == i;
        assert rest[k].job.number == i;
      }
      ReportsCover(rest, ids - {id});
    }
  }
}