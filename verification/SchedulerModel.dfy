/**
  The scheduler library as functions on values: what each entry point of
  libscheduler.c does to the cores, the waiting queue and the completed list.
  Class `Scheduler` in SchedulerClass.dfy is proved to do exactly this.
 */
module SchedulerModel {
  import opened Prelude
  import opened PriQueueModel

  datatype Scheme = FCFS | PRI | RR | PSJF

  /** The bookkeeping a job carries while it is on a core or in the queue. */
  datatype Job = Job(
    number: int, priority: int, arrival: int, running: int,
    remaining: int, first: int, last: int)

  /** A completed job with the statistics recorded for it. */
  datatype Report = Report(job: Job, waiting: int, turnaround: int, response: int)

  datatype Sched = Sched(
    scheme: Scheme, cores: seq<Option<Job>>, queue: seq<Job>, done: seq<Report>, count: nat)

  // ---------- comparers ----------

  function Compare(s: Scheme, a: Job, b: Job): int
  {
    match s
    case FCFS => a.arrival - b.arrival
    case PRI => if a.priority - b.priority != 0 then a.priority - b.priority else a.arrival - b.arrival
    case PSJF => if a.remaining - b.remaining != 0 then a.remaining - b.remaining else a.arrival - b.arrival
    case RR => 1
  }

  function Comparer(s: Scheme): (Job, Job) -> int
  {
    (a: Job, b: Job) => Compare(s, a, b)
  }

  lemma ComparersAreTotalPreorders(s: Scheme)
    ensures TotalPreorder(Comparer(s)) <==> s != RR
  {
    if s == RR {
      var j := Job(0, 0, 0, 0, 0, 0, 0);
      assert Comparer(s)(j, j) == 1;
    }
  }

  // ---------- scheduler_start_up ----------

  function StartUp(cores: nat, scheme: Scheme): Sched
  {
    Sched(scheme, seq(cores, _ => None), [], [], 0)
  }

  // ---------- scheduler_new_job ----------

  /** A running job charged for the time since it was last looked at. */
  function Charged(j: Job, time: int): Job
  {
    j.(remaining := j.remaining - (time - j.last), last := time)
  }

  function Charge(c: Option<Job>, time: int): Option<Job>
  {
    match c
    case None => None
    case Some(j) => Some(Charged(j, time))
  }

  function ChargeAll(cores: seq<Option<Job>>, time: int): (r: seq<Option<Job>>)
    ensures |r| == |cores|
  {
    seq(|cores|, i requires 0 <= i < |cores| => Charge(cores[i], time))
  }

  /** The lowest idle core from `i` on, or `|cores|`. */
  function FirstIdle(cores: seq<Option<Job>>, i: nat): (r: nat)
    requires i <= |cores|
    ensures i <= r <= |cores|
    ensures r < |cores| ==> cores[r].None?
    ensures forall k :: i <= k < r ==> cores[k].Some?
    decreases |cores| - i
  {
    if i == |cores| || cores[i].None? then i else FirstIdle(cores, i + 1)
  }

  /** One iteration of the search for the running job to preempt. */
  function WorseOf(s: Scheme, cores: seq<Job>, x: Job, i: nat, worst: int): (r: int)
    requires i < |cores| && -1 <= worst < i
    ensures -1 <= r <= i
  {
    if worst != -1 then
      if Compare(s, cores[worst], cores[i]) < 0 then i else worst
    else
      if Compare(s, x, cores[i]) < 0 then i else -1
  }

  function WorstCore(s: Scheme, cores: seq<Job>, x: Job, i: nat, worst: int): (r: int)
    requires i <= |cores| && -1 <= worst < i
    ensures -1 <= r < |cores|
    decreases |cores| - i
  {
    if i == |cores| then worst
    else WorstCore(s, cores, x, i + 1, WorseOf(s, cores, x, i, worst))
  }

  function Running(cores: seq<Option<Job>>): (r: seq<Job>)
    requires forall c :: 0 <= c < |cores| ==> cores[c].Some?
    ensures |r| == |cores|
  {
    seq(|cores|, c requires 0 <= c < |cores| => cores[c].value)
  }

  function Fresh(number: int, time: int, running: int, priority: int): Job
  {
    Job(number, priority, time, running, running, -1, -1)
  }

  /** A job leaving its core at `time` forgets that it was started there and then. */
  function Unstart(j: Job, time: int): Job
  {
    j.(first := if j.first == time then -1 else j.first,
       last := if j.last == time then -1 else j.last)
  }

  /** A new job that starts at once. */
  function StartNow(j: Job, time: int): Job
  {
    j.(first := time, last := time)
  }

  /** Where the newcomer goes once the running jobs are charged. */
  function Admit(s: Sched, x: Job, time: int): (r: (Sched, int))
  {
    var idle := FirstIdle(s.cores, 0);
    if idle < |s.cores| then
      (s.(cores := s.cores[idle := Some(StartNow(x, time))]), idle)
    else if s.scheme != PSJF then
      (s.(queue := Offer(Comparer(s.scheme), s.queue, x)), -1)
    else
      var worst := WorstCore(s.scheme, Running(s.cores), x, 0, -1);
      if worst == -1 then
        (s.(queue := Offer(Comparer(s.scheme), s.queue, x)), -1)
      else
        var w := Unstart(s.cores[worst].value, time);
        (s.(cores := s.cores[worst := Some(StartNow(x, time))],
            queue := Offer(Comparer(s.scheme), s.queue, w)), worst)
  }

  function NewJob(s: Sched, number: int, time: int, running: int, priority: int): (r: (Sched, int))
  {
    Admit(s.(cores := ChargeAll(s.cores, time), count := s.count + 1), Fresh(number, time, running, priority), time)
  }

  // ---------- scheduler_job_finished, scheduler_quantum_expired ----------

  function Dispatch(j: Job, time: int): Job
  {
    j.(first := if j.first == -1 then time else j.first, last := time)
  }

  /** Puts the head of the queue, if any, on core `c`. */
  function PollOnto(s: Sched, c: nat, time: int): (r: (Sched, int))
    requires c < |s.cores|
  {
    if s.queue == [] then
      (s.(cores := s.cores[c := None]), -1)
    else
      (s.(cores := s.cores[c := Some(Dispatch(s.queue[0], time))], queue := s.queue[1..]), s.queue[0].number)
  }

  function Finished(j: Job, time: int): Report
  {
    Report(j, time - j.arrival - j.running, time - j.arrival, j.first - j.arrival)
  }

  function AlwaysAfter(): (Report, Report) -> int
  {
    (a: Report, b: Report) => 1
  }

  function JobFinished(s: Sched, c: nat, time: int): (r: (Sched, int))
    requires c < |s.cores| && s.cores[c].Some?
  {
    PollOnto(s.(done := Offer(AlwaysAfter(), s.done, Finished(s.cores[c].value, time))), c, time)
  }

  function QuantumExpired(s: Sched, c: nat, time: int): (r: (Sched, int))
    requires c < |s.cores| && s.cores[c].Some?
  {
    PollOnto(s.(queue := Offer(Comparer(s.scheme), s.queue, s.cores[c].value)), c, time)
  }

  // ---------- the sums behind the averages ----------

  function SumWaiting(done: seq<Report>): int
  {
    if done == [] then 0 else SumWaiting(done[..|done| - 1]) + done[|done| - 1].waiting
  }

  function SumTurnaround(done: seq<Report>): int
  {
    if done == [] then 0 else SumTurnaround(done[..|done| - 1]) + done[|done| - 1].turnaround
  }

  function SumResponse(done: seq<Report>): int
  {
    if done == [] then 0 else SumResponse(done[..|done| - 1]) + done[|done| - 1].response
  }

  // ---------- the search for the job to preempt ----------

  /** Among the newcomer and the first `i` running jobs, `worst` is the lowest core with a last one, or -1. */
  ghost predicate WorstSoFar(s: Scheme, cores: seq<Job>, x: Job, i: nat, worst: int)
    requires i <= |cores| && -1 <= worst < i
  {
    && (forall k :: 0 <= k < i ==> Compare(s, cores[k], if worst == -1 then x else cores[worst]) <= 0)
    && (worst != -1 ==> Compare(s, x, cores[worst]) < 0)
    && (forall k :: 0 <= k < worst ==> Compare(s, cores[k], cores[worst]) < 0)
  }

  lemma WorseOfKeeps(s: Scheme, cores: seq<Job>, x: Job, i: nat, worst: int)
    requires s != RR && i < |cores| && -1 <= worst < i && WorstSoFar(s, cores, x, i, worst)
    ensures WorstSoFar(s, cores, x, i + 1, WorseOf(s, cores, x, i, worst))
  {
    var w := if worst == -1 then x else cores[worst];
    forall k | 0 <= k < i ensures Compare(s, w, cores[i]) < 0 ==> Compare(s, cores[k], cores[i]) < 0 {
      BeforeThose(s, cores[k], w, cores[i]);
    }
    BeforeThose(s, x, w, cores[i]);
    TurnsAround(s, w, cores[i]);
    hide Compare;
  }

  lemma BeforeThose(s: Scheme, a: Job, b: Job, c: Job)
    requires s != RR
    ensures Compare(s, a, b) <= 0 && Compare(s, b, c) < 0 ==> Compare(s, a, c) < 0
  {
  }

  lemma TurnsAround(s: Scheme, a: Job, b: Job)
    requires s != RR
    ensures Compare(s, a, b) >= 0 <==> Compare(s, b, a) <= 0
  {
  }

  /**
    The scan finds the last job in the scheme's order among the running ones
    and the newcomer, on the lowest core if there are several: -1 when no running
    job comes after the newcomer.
   */
  lemma {:induction false} WorstCoreFromIsLast(s: Scheme, cores: seq<Job>, x: Job, i: nat, worst: int)
    requires s != RR && i <= |cores| && -1 <= worst < i && WorstSoFar(s, cores, x, i, worst)
    ensures WorstSoFar(s, cores, x, |cores|, WorstCore(s, cores, x, i, worst))
    decreases |cores| - i
  {
    hide WorstSoFar, WorseOf;
    if i == |cores| {
    } else {
      WorseOfKeeps(s, cores, x, i, worst);
      WorstCoreFromIsLast(s, cores, x, i + 1, WorseOf(s, cores, x, i, worst));
    }
  }

  lemma WorstCoreIsLast(s: Scheme, cores: seq<Job>, x: Job)
    requires s != RR
    ensures var r := WorstCore(s, cores, x, 0, -1);
            && (r == -1 <==> forall k :: 0 <= k < |cores| ==> Compare(s, cores[k], x) <= 0)
            && (r != -1 ==> Compare(s, x, cores[r]) < 0
                            && (forall k :: 0 <= k < |cores| ==> Compare(s, cores[k], cores[r]) <= 0)
                            && forall k :: 0 <= k < r ==> Compare(s, cores[k], cores[r]) < 0)
  {
    WorstCoreFromIsLast(s, cores, x, 0, -1);
    var r := WorstCore(s, cores, x, 0, -1);
    if r != -1 { TurnsAround(s, cores[r], x); }
    hide Compare;
  }
}
