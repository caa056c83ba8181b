/** What every reachable state of the simulator satisfies. */
module SimulatorInvariants {
  import opened Prelude
  import opened PriQueueModel
  import opened SchedulerModel
  import opened SimulatorModel

  // ---------- reading the timing diagram ----------

  ghost predicate Ran(row: Row, id: int)
  {
    exists c :: 0 <= c < |row| && row[c] == Some(id)
  }

  /** The number of units in which the job ran. */
  ghost function Units(rows: seq<Row>, id: int): (r: nat)
    ensures r <= |rows|
  {
    if rows == [] then 0
    else Units(rows[..|rows| - 1], id) + if Ran(rows[|rows| - 1], id) then 1 else 0
  }

  /** The first unit in which the job ran, or the number of units if there is none. */
  ghost function FirstUnit(rows: seq<Row>, id: int): (r: nat)
    ensures r <= |rows|
    ensures r < |rows| ==> Ran(rows[r], id)
    ensures forall t :: 0 <= t < r ==> !Ran(rows[t], id)
  {
    if rows == [] then 0
    else
      var f := FirstUnit(rows[..|rows| - 1], id);
      if f < |rows| - 1 then f else if Ran(rows[f], id) then f else |rows|
  }

  lemma UnitsAppend(rows: seq<Row>, row: Row, id: int)
    ensures Units(rows + [row], id) == Units(rows, id) + if Ran(row, id) then 1 else 0
    ensures FirstUnit(rows + [row], id) ==
            if FirstUnit(rows, id) < |rows| then FirstUnit(rows, id)
            else if Ran(row, id) then |rows| else |rows| + 1
  {
    assert (rows + [row])[..|rows|] == rows;
  }

  lemma {:induction false} UnitsAndFirst(rows: seq<Row>, id: int)
    ensures Units(rows, id) == 0 <==> FirstUnit(rows, id) == |rows|
  {
    if rows == [] {
    } else {
      UnitsAndFirst(rows[..|rows| - 1], id);
    }
  }

  // ---------- the two views of who is where ----------

  ghost predicate InQueue(q: seq<Job>, id: int)
  {
    exists k :: 0 <= k < |q| && q[k].number == id
  }

  ghost predicate Distinct(q: seq<Job>)
  {
    forall k, l :: 0 <= k < l < |q| ==> q[k].number != q[l].number
  }

  /**
    The simulator's table and the scheduler's cores and queue tell the same
    story: a job has core c exactly when cores[c] holds it, and an arrived job
    has core -1 exactly when it is queued.
   */
  ghost predicate Agree(m: Table, cores: seq<Option<Job>>, q: seq<Job>)
  {
    && (forall id :: id in m ==> id >= 0 && m[id].id == id && -1 <= m[id].core < |cores|)
    && (forall id :: id in m && m[id].core != -1 ==>
          m[id].arrived && cores[m[id].core].Some? && cores[m[id].core].value.number == id)
    && (forall c :: 0 <= c < |cores| && cores[c].Some? ==>
          cores[c].value.number in m && m[cores[c].value.number].core == c)
    && (forall k :: 0 <= k < |q| ==> q[k].number in m && m[q[k].number].arrived && m[q[k].number].core == -1)
    && (forall id :: id in m && m[id].arrived && m[id].core == -1 ==> InQueue(q, id))
    && Distinct(q)
  }

  // ---------- what each record says ----------

  /** The fields that never change are those that were read. */
  ghost predicate Loyal(s: State)
  {
    && s.jobs.Keys <= s.input.Keys
    && forall id :: id in s.jobs ==>
         && s.jobs[id].arrival == s.input[id].arrival && s.jobs[id].priority == s.input[id].priority
         && (s.jobs[id].arrived ==> 0 <= s.jobs[id].arrival <= s.time)
         && (!s.jobs[id].arrived ==>
               && s.jobs[id] == s.input[id] && s.jobs[id].run != 0
               && (s.jobs[id].arrival < 0 || s.time <= s.jobs[id].arrival)
               && Units(s.rows, id) == 0)
  }

  ghost predicate NeverBefore(rows: seq<Row>, id: int, arrival: int)
  {
    forall t :: 0 <= t < |rows| && Ran(rows[t], id) ==> arrival <= t
  }

  /** What is true of a job wherever it is; `run` is the simulator's count of the units left. */
  ghost predicate Told(s: State, j: Job, run: int)
  {
    && j.number in s.input
    && j.arrival == s.input[j.number].arrival && j.priority == s.input[j.number].priority
    && j.running == s.input[j.number].run
    && Units(s.rows, j.number) + run == j.running
    && NeverBefore(s.rows, j.number, j.arrival)
  }

  /** The remaining time of a running job once it is charged up to now. */
  function Effective(j: Job, time: int): int
  {
    j.remaining - (time - j.last)
  }

  ghost predicate RunningOk(s: State, j: Job, run: int)
  {
    && Told(s, j, run)
    && (j.running >= 1 ==> run >= 0)
    && (run == 0 ==> s.rows != [] && Ran(s.rows[|s.rows| - 1], j.number))
    && (s.sched.scheme != RR ==> Effective(j, s.time) == run)
    && j.first == FirstUnit(s.rows, j.number)
  }

  ghost predicate WaitingOk(s: State, j: Job, run: int)
  {
    && Told(s, j, run)
    && run != 0 && (j.running >= 1 ==> run >= 1)
    && (s.sched.scheme != RR ==> j.remaining == run)
    && j.first == if FirstUnit(s.rows, j.number) == |s.rows| then -1 else FirstUnit(s.rows, j.number)
  }

  ghost predicate Recorded(s: State)
    requires Agree(s.jobs, s.sched.cores, s.sched.queue)
  {
    && (forall c :: 0 <= c < |s.sched.cores| && s.sched.cores[c].Some? ==>
          RunningOk(s, s.sched.cores[c].value, s.jobs[s.sched.cores[c].value.number].run))
    && (forall k :: 0 <= k < |s.sched.queue| ==>
          WaitingOk(s, s.sched.queue[k], s.jobs[s.sched.queue[k].number].run))
  }

  // ---------- the completed jobs ----------

  /** A completed job left when it had run all its units, the last of them just before it left. */
  ghost predicate ReportOk(input: Table, rows: seq<Row>, r: Report)
  {
    var id := r.job.number;
    var left := r.job.arrival + r.turnaround;
    && id in input && r.job.arrival == input[id].arrival && r.job.running == input[id].run
    && 0 <= r.job.arrival && 1 <= left <= |rows|
    && Units(rows, id) == r.job.running >= 1
    && Ran(rows[left - 1], id)
    && (forall t :: 0 <= t < |rows| && Ran(rows[t], id) ==> r.job.arrival <= t < left)
    && r.job.first == FirstUnit(rows, id)
    && r.response == r.job.first - r.job.arrival
    && r.waiting == r.turnaround - r.job.running
  }

  ghost predicate InDone(done: seq<Report>, id: int)
  {
    exists k :: 0 <= k < |done| && done[k].job.number == id
  }

  ghost predicate Reported(s: State)
  {
    && (forall k :: 0 <= k < |s.sched.done| ==>
          s.sched.done[k].job.number !in s.jobs && ReportOk(s.input, s.rows, s.sched.done[k]))
    && (forall k, l :: 0 <= k < l < |s.sched.done| ==> s.sched.done[k].job.number != s.sched.done[l].job.number)
    && (forall id :: id in s.input && id !in s.jobs ==> InDone(s.sched.done, id))
  }

  // ---------- the order of service ----------

  /** No core idles while a job waits. */
  ghost predicate Conserving(d: Sched)
  {
    forall c :: 0 <= c < |d.cores| && d.cores[c].None? ==> d.queue == []
  }

  /**
    The queue is in the scheme's order, and under PSJF no queued job comes
    before a running one, by the time each still needs and then by arrival.
   */
  ghost predicate Ordered(d: Sched, time: int)
  {
    && (d.scheme != RR ==> Sorted(Comparer(d.scheme), d.queue))
    && (d.scheme == PSJF ==>
          forall c, k :: 0 <= c < |d.cores| && d.cores[c].Some? && 0 <= k < |d.queue| ==>
            Compare(PSJF, Charged(d.cores[c].value, time), d.queue[k]) <= 0)
  }

  ghost predicate Present(s: State, id: int)
  {
    id in s.input && (id in s.jobs ==> s.jobs[id].arrived)
  }

  /** `id` waits behind position `k` and has never run. */
  ghost predicate StillBehind(q: seq<Job>, k: int, id: int)
  {
    exists l :: 0 <= k < l < |q| && q[l].number == id && q[l].first == -1
  }

  /**
    First come, first started: nobody started before an earlier arrival, and
    behind a queued job that has never run wait all the later arrivals, none of
    which has run either.
   */
  ghost predicate Fair(s: State)
  {
    s.sched.scheme == FCFS || s.sched.scheme == RR ==>
      && (forall a, b :: Present(s, a) && Present(s, b) && s.input[a].arrival < s.input[b].arrival ==>
            FirstUnit(s.rows, a) <= FirstUnit(s.rows, b))
      && (forall k, b :: 0 <= k < |s.sched.queue| && s.sched.queue[k].first == -1
                         && b in s.jobs && s.jobs[b].arrived && s.sched.queue[k].arrival < s.jobs[b].arrival ==>
            StillBehind(s.sched.queue, k, b))
  }

  // ---------- counters, clocks and phases ----------

  ghost function Arrived(m: Table): set<int>
  {
    set id | id in m && m[id].arrived
  }

  ghost predicate Counted(s: State)
  {
    && 1 <= |s.sched.cores| == |s.clock|
    && s.time == |s.rows|
    && (s.sched.scheme == RR ==> s.quantum >= 1)
    && s.alive == |Arrived(s.jobs)|
    && s.sched.count == s.alive + |s.sched.done|
  }

  /** Under RR a busy core has part of its slice left, and has used some of it only if its job ran. */
  ghost predicate Clocked(s: State)
    requires |s.sched.cores| == |s.clock|
  {
    s.sched.scheme == RR ==> forall c :: 0 <= c < |s.clock| && s.sched.cores[c].Some? ==>
      && 0 <= s.clock[c] <= s.quantum
      && (s.clock[c] < s.quantum ==> Units(s.rows, s.sched.cores[c].value.number) > 0)
  }

  ghost predicate InPhase(s: State)
    requires |s.sched.cores| == |s.clock|
  {
    && (s.phase != Finishing ==> s.jobs != map[] && forall id :: id in s.jobs ==> s.jobs[id].run != 0)
    && (s.phase != Arriving ==> forall id :: id in s.jobs && s.jobs[id].arrived ==> s.jobs[id].arrival < s.time)
    && (s.phase == Arriving && s.sched.scheme == RR ==>
          forall c :: 0 <= c < |s.clock| && s.sched.cores[c].Some? ==> s.clock[c] >= 1)
  }

  /** All that the moves of single jobs keep. */
  ghost predicate Sound(s: State)
  {
    && Counted(s)
    && Agree(s.jobs, s.sched.cores, s.sched.queue)
    && Loyal(s)
    && Recorded(s)
    && Reported(s)
    && Ordered(s.sched, s.time)
    && Fair(s)
  }

  ghost predicate Inv(s: State)
  {
    && Sound(s)
    && Conserving(s.sched)
    && Clocked(s)
    && InPhase(s)
  }
}
