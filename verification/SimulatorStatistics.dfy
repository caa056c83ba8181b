/** The three sums that are reported, read off the timing diagram and the job file. */
module SimulatorStatistics {
  import opened Prelude
  import opened SchedulerModel
  import opened SimulatorModel
  import opened SimulatorInvariants
  import opened SimulatorTheorems
  import opened SimulatorTermination

  // ---------- sums over ids ----------

  ghost function Sum(ids: set<int>, value: int -> int): int
    decreases |ids|
  {
    if |ids| == 0 then 0 else var id := Any(ids); value(id) + Sum(ids - {id}, value)
  }

  lemma {:induction false} SumWithout(ids: set<int>, value: int -> int, id: int)
    requires id in ids
    ensures Sum(ids, value) == value(id) + Sum(ids - {id}, value)
    decreases |ids|
  {
    var x := Any(ids);
    if x == id {
    } else {
      SumWithout(ids - {x}, value, id);
      SumWithout(ids - {id}, value, x);
      assert ids - {x} - {id} == ids - {id} - {x};
    }
  }

  // ---------- what the diagram says of one job ----------

  /** The number of units until the job has run for the last time. */
  ghost function Ended(rows: seq<Row>, id: int): (r: nat)
    ensures r <= |rows|
    ensures r > 0 ==> Ran(rows[r - 1], id)
    ensures forall t :: r <= t < |rows| ==> !Ran(rows[t], id)
  {
    if rows == [] || Ran(rows[|rows| - 1], id) then |rows| else Ended(rows[..|rows| - 1], id)
  }

  ghost function Turnarounds(m: Table, rows: seq<Row>): int -> int
  {
    id => if id in m then Ended(rows, id) - m[id].arrival else 0
  }

  ghost function Responses(m: Table, rows: seq<Row>): int -> int
  {
    id => if id in m then FirstUnit(rows, id) - m[id].arrival else 0
  }

  /** Units that are over, from its arrival on, and in which it was on no core. */
  ghost function Waitings(m: Table, rows: seq<Row>): int -> int
  {
    id =>
      if id in m && 0 <= m[id].arrival <= Ended(rows, id) then Waited(rows, id, m[id].arrival, Ended(rows, id)) else 0
  }

  lemma ReportSays(m: Table, rows: seq<Row>, r: Report)
    requires TrueReport(m, rows, r)
    ensures r.turnaround == Turnarounds(m, rows)(r.job.number)
    ensures r.response == Responses(m, rows)(r.job.number)
    ensures r.waiting == Waitings(m, rows)(r.job.number)
  {
    var id := r.job.number;
    var end := m[id].arrival + r.turnaround;
    assert Ended(rows, id) == end by {
      assert Ran(rows[end - 1], id);
      assert Ended(rows, id) > 0 ==> Ran(rows[Ended(rows, id) - 1], id);
    }
  }

  // ---------- the sums ----------

  lemma {:induction false} SumsOf(done: seq<Report>, ids: set<int>, m: Table, rows: seq<Row>)
    requires forall k :: 0 <= k < |done| ==> TrueReport(m, rows, done[k])
    requires forall k, l :: 0 <= k < l < |done| ==> done[k].job.number != done[l].job.number
    requires forall id :: id in ids <==> InDone(done, id)
    ensures SumTurnaround(done) == Sum(ids, Turnarounds(m, rows))
    ensures SumResponse(done) == Sum(ids, Responses(m, rows))
    ensures SumWaiting(done) == Sum(ids, Waitings(m, rows))
    decreases |done|
  {
    hide TrueReport, Turnarounds, Responses, Waitings;
    if done == [] {
      if |ids| > 0 {
        var id := Any(ids);
        assert false;
      }
    } else {
      var last := |done| - 1;
      var id, rest := done[last].job.number, done[..last];
      InDoneButLast(done, id);
      forall i ensures i in ids - {id} <==> InDone(rest, i) {
        InDoneButLast(done, i);
        OnlyOnce(done, i);
      }
      hide InDone, Sum;
      SumsOf(rest, ids - {id}, m, rows);
      ReportSays(m, rows, done[last]);
      SumWithout(ids, Turnarounds(m, rows), id);
      SumWithout(ids, Responses(m, rows), id);
      SumWithout(ids, Waitings(m, rows), id);
    }
  }

  lemma OnlyOnce(done: seq<Report>, i: int)
    requires done != [] && forall k, l :: 0 <= k < l < |done| ==> done[k].job.number != done[l].job.number
    ensures InDone(done[..|done| - 1], i) ==> i != done[|done| - 1].job.number
  {
  }

  /**
    The totals that the averages are made of: at the end of every run each is the
    sum over the jobs of the file of what the timing diagram shows.
   */
  lemma TotalsAreTrue(m: Table, cores: nat, scheme: Scheme, quantum: int, events: seq<Event>, t: State)
    requires Reached(m, cores, scheme, quantum, events, t) && Over(t)
    ensures SumTurnaround(t.sched.done) == Sum(m.Keys, Turnarounds(m, t.rows))
    ensures SumResponse(t.sched.done) == Sum(m.Keys, Responses(m, t.rows))
    ensures SumWaiting(t.sched.done) == Sum(m.Keys, Waitings(m, t.rows))
    ensures t.sched.count == |m|
  {
    ReportsAreTrue(m, cores, scheme, quantum, events, t);
    EveryJobIsReported(m, cores, scheme, quantum, events, t);
    hide Reached, TrueReport, Over;
    forall id ensures id in m.Keys <==> InDone(t.sched.done, id) {
      ReportIsOfJob(m, t.rows, t.sched.done, id);
    }
    SumsOf(t.sched.done, m.Keys, m, t.rows);
  }

  lemma ReportIsOfJob(m: Table, rows: seq<Row>, done: seq<Report>, id: int)
    requires forall k :: 0 <= k < |done| ==> TrueReport(m, rows, done[k])
    ensures InDone(done, id) ==> id in m
  {
    if InDone(done, id) {
      var k :| 0 <= k < |done| && done[k].job.number == id;
      assert TrueReport(m, rows, done[k]);
    }
  }
}
