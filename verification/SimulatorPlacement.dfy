/**
  Who gets which core: what each event does to the table of the jobs, said by
  priorities, arrivals and units left and not by the scheduler's own comparers.
 */
module SimulatorPlacement {
  import opened PriQueueModel
  import opened SchedulerModel
  import opened SimulatorModel
  import opened SimulatorInvariants
  import opened SimulatorEvents
  import opened SimulatorTheorems

  /** Arrived, and on no core. */
  predicate Waits(s: State, i: int)
  {
    i in s.jobs && s.jobs[i].arrived && s.jobs[i].core == -1
  }

  predicate Runs(s: State, i: int)
  {
    i in s.jobs && s.jobs[i].core != -1
  }

  /** Nobody has the core, by the simulator's table. */
  ghost predicate Idle(s: State, c: int)
  {
    forall i :: i in s.jobs ==> s.jobs[i].core != c
  }

  // ---------- queue and cores read through the table ----------

  lemma QueuedWaits(s: State, k: nat)
    requires Inv(s) && k < |s.sched.queue|
    ensures var j := s.sched.queue[k];
            && j.number >= 0 && Waits(s, j.number) && j.number in s.input
            && j.priority == s.input[j.number].priority && j.arrival == s.input[j.number].arrival
            && (s.sched.scheme != RR ==> j.remaining == s.jobs[j.number].run)
  {
    hide Reported, Fair, Ordered, Counted, Loyal, Units, FirstUnit;
    assert WaitingOk(s, s.sched.queue[k], s.jobs[s.sched.queue[k].number].run);
  }

  lemma WaitsIsQueued(s: State, i: int) returns (k: nat)
    requires Inv(s) && Waits(s, i)
    ensures k < |s.sched.queue| && s.sched.queue[k].number == i
  {
    hide Recorded, Reported, Fair, Ordered, Counted, Loyal;
    assert InQueue(s.sched.queue, i);
    k :| 0 <= k < |s.sched.queue| && s.sched.queue[k].number == i;
  }

  lemma CoreRuns(s: State, c: nat)
    requires Inv(s) && c < |s.sched.cores| && s.sched.cores[c].Some?
    ensures var j := s.sched.cores[c].value;
            && Runs(s, j.number) && s.jobs[j.number].core == c && j.number in s.input
            && j.arrival == s.input[j.number].arrival
            && (s.sched.scheme != RR ==> Charged(j, s.time).remaining == s.jobs[j.number].run)
  {
    hide Reported, Fair, Ordered, Counted, Loyal, Units, FirstUnit;
    assert RunningOk(s, s.sched.cores[c].value, s.jobs[s.sched.cores[c].value.number].run);
  }

  lemma RunsIsOnCore(s: State, i: int)
    requires Inv(s) && Runs(s, i)
    ensures var c := s.jobs[i].core;
            && 0 <= c < |s.sched.cores| == |s.clock| && s.jobs[i].arrived
            && s.sched.cores[c].Some? && s.sched.cores[c].value.number == i
  {
    hide Recorded, Reported, Fair, Ordered, Loyal;
  }

  lemma IdleIsNone(s: State, c: nat)
    requires Inv(s) && c < |s.sched.cores|
    ensures Idle(s, c) <==> s.sched.cores[c].None?
  {
    hide Recorded, Reported, Fair, Ordered, Loyal, Counted;
    if s.sched.cores[c].Some? {
      assert s.jobs[s.sched.cores[c].value.number].core == c;
    }
  }

  // ---------- one event ----------

  /** A completed job's core goes to the head of the queue, and nobody else is moved. */
  lemma FinishHandsOver(s: State, id: int)
    requires Inv(s) && Enabled(s, Finish(id))
    ensures Runs(s, id) && FinishStep(s, id).Some?
    ensures var u, q, c := FinishStep(s, id).value, s.sched.queue, s.jobs[id].core;
            if q == [] then u.jobs == s.jobs - {id}
            else
              && Waits(s, q[0].number) && q[0].number != id
              && u.jobs == (s.jobs - {id})[q[0].number := s.jobs[q[0].number].(core := c)]
    ensures var u, c := FinishStep(s, id).value, s.jobs[id].core;
            u.rows == s.rows && u.clock == if s.sched.scheme == RR then s.clock[c := s.quantum] else s.clock
  {
    hide Recorded, Reported, Fair, Ordered, Counted, Loyal, Agree, Clocked, InPhase, Offer, FinishStep;
    if s.jobs[id].core == -1 { IdleHasWork(s, id); }
    RunsIsOnCore(s, id);
    FinishGoesThrough(s, id);
    if s.sched.queue != [] { QueuedWaits(s, 0); }
  }

  /** A job whose slice is over goes to the end of the queue, and its core to the head, which may be itself. */
  lemma ExpireHandsOver(s: State, id: int)
    requires Inv(s) && Enabled(s, Expire(id))
    ensures Runs(s, id) && ExpireStep(s, id).Some?
    ensures var u, q, c := ExpireStep(s, id).value, s.sched.queue, s.jobs[id].core;
            if q == [] then u.jobs == s.jobs && u.sched.queue == []
            else
              && Waits(s, q[0].number) && q[0].number != id
              && u.jobs == s.jobs[id := s.jobs[id].(core := -1)][q[0].number := s.jobs[q[0].number].(core := c)]
              && |u.sched.queue| == |q| && u.sched.queue[|q| - 1].number == id
    ensures var u := ExpireStep(s, id).value; u.rows == s.rows && u.clock == s.clock[s.jobs[id].core := s.quantum]
  {
    hide Recorded, Reported, Fair, Ordered, Counted, Loyal, Agree, Clocked, InPhase, Offer, ExpireStep;
    RunsIsOnCore(s, id);
    ExpireGoesThrough(s, id);
    RoundRobinAppends(s.sched.queue, s.sched.cores[s.jobs[id].core].value);
    if s.sched.queue != [] { QueuedWaits(s, 0); }
  }

  /** `a` has less left to do than `b`, or as much and did not arrive later. */
  predicate Shorter(s: State, a: int, b: int)
    requires a in s.jobs && b in s.jobs
  {
    s.jobs[a].run < s.jobs[b].run || (s.jobs[a].run == s.jobs[b].run && s.jobs[a].arrival <= s.jobs[b].arrival)
  }

  lemma ShorterIsCompare(s: State, c: nat, id: int)
    requires Inv(s) && s.sched.scheme == PSJF && c < |s.sched.cores| && s.sched.cores[c].Some?
    requires id in s.jobs && s.jobs[id].arrival == s.time
    ensures var w := s.sched.cores[c].value;
            && Runs(s, w.number) && s.jobs[w.number].core == c
            && (Shorter(s, w.number, id) <==>
                  Compare(PSJF, Charged(w, s.time), Fresh(id, s.time, s.jobs[id].run, s.jobs[id].priority)) <= 0)
  {
    CoreRuns(s, c);
    ArrivalIsRead(s, s.sched.cores[c].value.number);
    hide Inv;
  }

  lemma ShorterOfTwo(s: State, b: nat, c: nat)
    requires Inv(s) && s.sched.scheme == PSJF && b < |s.sched.cores| && s.sched.cores[b].Some?
    requires c < |s.sched.cores| && s.sched.cores[c].Some?
    ensures var v, w := s.sched.cores[b].value, s.sched.cores[c].value;
            && Runs(s, v.number) && Runs(s, w.number)
            && (Shorter(s, v.number, w.number) <==> Compare(PSJF, Charged(v, s.time), Charged(w, s.time)) <= 0)
            && (!Shorter(s, w.number, v.number) <==> Compare(PSJF, Charged(v, s.time), Charged(w, s.time)) < 0)
  {
    CoreRuns(s, b);
    CoreRuns(s, c);
    ArrivalIsRead(s, s.sched.cores[b].value.number);
    ArrivalIsRead(s, s.sched.cores[c].value.number);
    hide Inv;
  }

  lemma ArrivalIsRead(s: State, i: int)
    requires Inv(s) && i in s.jobs
    ensures i in s.input && s.jobs[i].id == i
    ensures s.jobs[i].arrival == s.input[i].arrival && s.jobs[i].priority == s.input[i].priority
  {
    hide Recorded, Reported, Fair, Ordered, Counted, Units, FirstUnit;
  }

  lemma LowestIdle(s: State, c: nat)
    requires Inv(s) && c <= |s.sched.cores| && (c < |s.sched.cores| ==> Idle(s, c))
    requires forall b :: 0 <= b < c ==> !Idle(s, b)
    ensures FirstIdle(ChargeAll(s.sched.cores, s.time), 0) == c
  {
    var all := ChargeAll(s.sched.cores, s.time);
    forall b | 0 <= b < |all| ensures all[b].None? <==> Idle(s, b) {
      IdleIsNone(s, b);
    }
    hide Inv, Idle, ChargeAll;
    var r := FirstIdle(all, 0);
  }

  /** An arriving job takes the lowest idle core, and nobody is moved. */
  lemma ArriveTakesIdle(s: State, id: int, c: nat)
    requires Inv(s) && Enabled(s, Arrive(id)) && c < |s.sched.cores|
    requires Idle(s, c) && forall b :: 0 <= b < c ==> !Idle(s, b)
    ensures ArriveStep(s, id).Some?
    ensures ArriveStep(s, id).value.jobs == s.jobs[id := s.jobs[id].(arrived := true, core := c)]
    ensures ArriveStep(s, id).value.rows == s.rows && c < |s.clock|
    ensures ArriveStep(s, id).value.clock == if s.sched.scheme == RR then s.clock[c := s.quantum] else s.clock
  {
    LowestIdle(s, c);
    hide Recorded, Reported, Fair, Ordered, Loyal, Clocked, InPhase, ArriveStep, FirstIdle, ChargeAll, Idle;
    IdleIsPlaced(s, id, c);
  }

  /** With no idle core it waits, unless it can preempt. */
  lemma ArriveMustWait(s: State, id: int)
    requires Inv(s) && Enabled(s, Arrive(id)) && forall b :: 0 <= b < |s.sched.cores| ==> !Idle(s, b)
    requires s.sched.scheme == PSJF ==> forall i :: Runs(s, i) ==> Shorter(s, i, id)
    ensures ArriveStep(s, id).Some?
    ensures ArriveStep(s, id).value.jobs == s.jobs[id := s.jobs[id].(arrived := true)]
    ensures ArriveStep(s, id).value.rows == s.rows && ArriveStep(s, id).value.clock == s.clock
  {
    LowestIdle(s, |s.sched.cores|);
    ArrivalIsRead(s, id);
    if s.sched.scheme == PSJF {
      SearchIsWorst(s, id);
      var c := WorstCore(PSJF, Running(ChargeAll(s.sched.cores, s.time)),
                         Fresh(id, s.time, s.jobs[id].run, s.jobs[id].priority), 0, -1);
      if c != -1 {
        ShorterIsCompare(s, c, id);
        CompareTurnsAround(Charged(s.sched.cores[c].value, s.time),
                           Fresh(id, s.time, s.jobs[id].run, s.jobs[id].priority));
      }
    }
    hide Inv, ArriveStep, FirstIdle, ChargeAll, Idle, Compare;
    WaitIsEnqueued(s, id);
  }

  lemma CompareTurnsAround(a: Job, b: Job)
    ensures Compare(PSJF, a, b) <= 0 <==> !(Compare(PSJF, b, a) < 0)
  {
  }

  /**
    Under PSJF a job that has less to do than somebody on a core takes the core of
    the one with the most to do, the last to arrive among those, on the lowest core
    if there are several.
   */
  lemma ArriveTakesOver(s: State, id: int) returns (w: int)
    requires Inv(s) && Enabled(s, Arrive(id)) && s.sched.scheme == PSJF
    requires forall b :: 0 <= b < |s.sched.cores| ==> !Idle(s, b)
    requires exists i :: Runs(s, i) && !Shorter(s, i, id)
    ensures Runs(s, w) && w != id && !Shorter(s, w, id)
    ensures forall i :: Runs(s, i) ==> Shorter(s, i, w) && (s.jobs[i].core < s.jobs[w].core ==> !Shorter(s, w, i))
    ensures ArriveStep(s, id).Some?
    ensures ArriveStep(s, id).value.jobs ==
            s.jobs[w := s.jobs[w].(core := -1)][id := s.jobs[id].(arrived := true, core := s.jobs[w].core)]
  {
    hide Recorded, Reported, Fair, Ordered, Counted, Loyal, Agree, Clocked, InPhase, ArriveStep, Shorter, Idle,
         Compare, Charged, WorstCore, Running, ChargeAll, PreemptResult;
    LowestIdle(s, |s.sched.cores|);
    ArrivalIsRead(s, id);
    SearchIsWorst(s, id);
    var x := Fresh(id, s.time, s.jobs[id].run, s.jobs[id].priority);
    var c := WorstCore(PSJF, Running(ChargeAll(s.sched.cores, s.time)), x, 0, -1);
    var a :| Runs(s, a) && !Shorter(s, a, id);
    RunsIsOnCore(s, a);
    ShorterIsCompare(s, s.jobs[a].core, id);
    assert c != -1;
    w := s.sched.cores[c].value.number;
    ShorterIsCompare(s, c, id);
    CompareTurnsAround(Charged(s.sched.cores[c].value, s.time), x);
    LongestOnCore(s, c);
    PreemptIsPlaced(s, id, c);
    PreemptedTable(s, id, c);
  }

  lemma LongestOnCore(s: State, c: nat)
    requires Inv(s) && s.sched.scheme == PSJF && c < |s.sched.cores|
    requires forall b :: 0 <= b < |s.sched.cores| ==> s.sched.cores[b].Some?
    requires forall b :: 0 <= b < |s.sched.cores| ==>
               Compare(PSJF, Charged(s.sched.cores[b].value, s.time), Charged(s.sched.cores[c].value, s.time)) <= 0
    requires forall b :: 0 <= b < c ==>
               Compare(PSJF, Charged(s.sched.cores[b].value, s.time), Charged(s.sched.cores[c].value, s.time)) < 0
    ensures var w := s.sched.cores[c].value.number;
            && Runs(s, w) && s.jobs[w].core == c
            && forall i :: Runs(s, i) ==> Shorter(s, i, w) && (s.jobs[i].core < s.jobs[w].core ==> !Shorter(s, w, i))
  {
    CoreRuns(s, c);
    var w := s.sched.cores[c].value.number;
    hide Inv, Shorter, Compare;
    forall i | Runs(s, i) ensures Shorter(s, i, w) && (s.jobs[i].core < s.jobs[w].core ==> !Shorter(s, w, i)) {
      RunsIsOnCore(s, i);
      ShorterOfTwo(s, s.jobs[i].core, c);
    }
  }

  lemma PreemptedTable(s: State, id: int, c: nat)
    requires Inv(s) && Enabled(s, Arrive(id)) && c < |s.sched.cores| && s.sched.cores[c].Some?
    ensures var w := s.sched.cores[c].value.number;
            && w in s.jobs && w != id
            && PreemptResult(s, id, c).jobs ==
               s.jobs[w := s.jobs[w].(core := -1)][id := s.jobs[id].(arrived := true, core := c)]
  {
    CoreRuns(s, c);
    RunsIsOnCore(s, s.sched.cores[c].value.number);
    hide Inv, Offer;
  }

  /** The head of the queue comes before every waiting job, by the fields of the job file and the units left. */
  lemma HeadIsFirst(s: State, i: int)
    requires Inv(s) && s.sched.scheme != RR && Waits(s, i)
    ensures s.sched.queue != []
    ensures var a := s.sched.queue[0].number;
            && Waits(s, a) && a in s.input && i in s.input
            && match s.sched.scheme
               case FCFS => s.input[a].arrival <= s.input[i].arrival
               case PRI =>
                 || s.input[a].priority < s.input[i].priority
                 || (s.input[a].priority == s.input[i].priority && s.input[a].arrival <= s.input[i].arrival)
               case PSJF =>
                 || s.jobs[a].run < s.jobs[i].run
                 || (s.jobs[a].run == s.jobs[i].run && s.input[a].arrival <= s.input[i].arrival)
               case RR => true
  {
    var k := WaitsIsQueued(s, i);
    QueuedWaits(s, 0);
    QueuedWaits(s, k);
    hide Recorded, Reported, Fair, Counted, Loyal, Agree, Clocked, InPhase;
    if k > 0 {
      assert Comparer(s.sched.scheme)(s.sched.queue[0], s.sched.queue[k]) <= 0;
    }
  }

  /**
    What a completion does to the table: nothing but that the completed job is
    gone and job `a`, if somebody waits, has its core.
   */
  ghost predicate HandedOver(t: State, id: int, a: int, u: State)
    requires id in t.jobs
  {
    if a == -1 then (forall i :: !Waits(t, i)) && u.jobs == t.jobs - {id}
    else Waits(t, a) && u.jobs == (t.jobs - {id})[a := t.jobs[a].(core := t.jobs[id].core)]
  }

  lemma CompletionServes(s: State, id: int) returns (a: int)
    requires Inv(s) && Enabled(s, Finish(id))
    ensures Step(s, Finish(id)).Some? && HandedOver(s, id, a, Step(s, Finish(id)).value)
    ensures a != -1 ==> s.sched.queue != [] && a == s.sched.queue[0].number
  {
    FinishHandsOver(s, id);
    if i :| Waits(s, i) {
      var k := WaitsIsQueued(s, i);
    }
    if s.sched.queue != [] { QueuedWaits(s, 0); }
    hide Inv, FinishStep;
    a := if s.sched.queue == [] then -1 else s.sched.queue[0].number;
  }

  // ---------- over every run ----------

  lemma ReachedFacts(m: Table, cores: nat, scheme: Scheme, quantum: int, events: seq<Event>, t: State)
    requires Reached(m, cores, scheme, quantum, events, t)
    ensures Inv(t) && t.input == m && t.sched.scheme == scheme && t.quantum == quantum
    ensures |t.sched.cores| == |t.clock| == cores
  {
    ReachedInv(m, cores, scheme, quantum, events, t);
    InitHolds(m, cores, scheme, quantum);
    RunConstants(Init(m, cores, scheme, quantum), events, t);
    SoundShape(t);
  }

  /** Under PRI a free core goes to a waiting job of the least priority value, the first to arrive among those. */
  lemma LeastPriorityNext(m: Table, cores: nat, quantum: int, events: seq<Event>, t: State, id: int) returns (a: int)
    requires Reached(m, cores, PRI, quantum, events, t) && Enabled(t, Finish(id))
    ensures Step(t, Finish(id)).Some? && HandedOver(t, id, a, Step(t, Finish(id)).value)
    ensures a != -1 ==> a in m && forall b :: Waits(t, b) ==>
              && b in m && m[a].priority <= m[b].priority
              && (m[a].priority == m[b].priority ==> m[a].arrival <= m[b].arrival)
  {
    ReachedFacts(m, cores, PRI, quantum, events, t);
    a := CompletionServes(t, id);
    hide Inv, Step, Enabled, HandedOver, Waits;
    if a != -1 {
      TableHas(t, id, a);
      forall b | Waits(t, b) ensures && b in m && m[a].priority <= m[b].priority
                                     && (m[a].priority == m[b].priority ==> m[a].arrival <= m[b].arrival) {
        HeadIsFirst(t, b);
      }
    }
  }

  lemma TableHas(t: State, id: int, a: int)
    requires Inv(t) && Enabled(t, Finish(id)) && Step(t, Finish(id)).Some?
    requires a != -1 && HandedOver(t, id, a, Step(t, Finish(id)).value)
    ensures Waits(t, a) && a in t.input
  {
    hide Step, Recorded, Reported, Fair, Ordered, Counted, Agree, Units, FirstUnit;
  }

  /** Under PSJF it goes to one with the least left to do, the first to arrive among those. */
  lemma ShortestNext(m: Table, cores: nat, quantum: int, events: seq<Event>, t: State, id: int) returns (a: int)
    requires Reached(m, cores, PSJF, quantum, events, t) && Enabled(t, Finish(id))
    ensures Step(t, Finish(id)).Some? && HandedOver(t, id, a, Step(t, Finish(id)).value)
    ensures a != -1 ==> Waits(t, a) && a in m && forall b :: Waits(t, b) ==>
              && b in m && t.jobs[a].run <= t.jobs[b].run
              && (t.jobs[a].run == t.jobs[b].run ==> m[a].arrival <= m[b].arrival)
  {
    ReachedFacts(m, cores, PSJF, quantum, events, t);
    a := CompletionServes(t, id);
    hide Inv, Step, Enabled, HandedOver;
    if a != -1 {
      TableHas(t, id, a);
      forall b | Waits(t, b) ensures && b in m && t.jobs[a].run <= t.jobs[b].run
                                     && (t.jobs[a].run == t.jobs[b].run ==> m[a].arrival <= m[b].arrival) {
        HeadIsFirst(t, b);
      }
    }
  }

  /** Under FCFS it goes to one that arrived first. */
  lemma EarliestNext(m: Table, cores: nat, quantum: int, events: seq<Event>, t: State, id: int) returns (a: int)
    requires Reached(m, cores, FCFS, quantum, events, t) && Enabled(t, Finish(id))
    ensures Step(t, Finish(id)).Some? && HandedOver(t, id, a, Step(t, Finish(id)).value)
    ensures a != -1 ==> a in m && forall b :: Waits(t, b) ==> b in m && m[a].arrival <= m[b].arrival
  {
    ReachedFacts(m, cores, FCFS, quantum, events, t);
    a := CompletionServes(t, id);
    hide Inv, Step, Enabled, HandedOver, Waits;
    if a != -1 {
      TableHas(t, id, a);
      forall b | Waits(t, b) ensures b in m && m[a].arrival <= m[b].arrival {
        HeadIsFirst(t, b);
      }
    }
  }

  /**
    What an arrival does, at every reachable state: the lowest idle core if there
    is one; if not, under PSJF, the core of the running job with the most left to
    do if that is more than its own; and else it waits. Nobody else is moved.
   */
  lemma ArrivalIsPlaced(m: Table, cores: nat, scheme: Scheme, quantum: int, events: seq<Event>, t: State, id: int)
    returns (c: int, w: int)
    requires Reached(m, cores, scheme, quantum, events, t) && Enabled(t, Arrive(id))
    ensures Step(t, Arrive(id)).Some?
    ensures var u, j := Step(t, Arrive(id)).value, t.jobs[id].(arrived := true);
            if 0 <= c < cores then
              Idle(t, c) && (forall b :: 0 <= b < c ==> !Idle(t, b)) && u.jobs == t.jobs[id := j.(core := c)]
            else
              && (forall b :: 0 <= b < cores ==> !Idle(t, b))
              && if Runs(t, w) then
                   && scheme == PSJF && w != id && !Shorter(t, w, id)
                   && (forall i :: Runs(t, i) ==>
                         Shorter(t, i, w) && (t.jobs[i].core < t.jobs[w].core ==> !Shorter(t, w, i)))
                   && u.jobs == t.jobs[w := t.jobs[w].(core := -1)][id := j.(core := t.jobs[w].core)]
                 else
                   && (scheme == PSJF ==> forall i :: Runs(t, i) ==> Shorter(t, i, id))
                   && u.jobs == t.jobs[id := j]
  {
    ReachedFacts(m, cores, scheme, quantum, events, t);
    hide Inv, ArriveStep, Idle, IsRun, Shorter;
    c := FirstIdleOf(t, cores);
    w := -2;
    if c < cores {
      ArriveTakesIdle(t, id, c);
    } else if scheme == PSJF && exists i :: Runs(t, i) && !Shorter(t, i, id) {
      w := ArriveTakesOver(t, id);
    } else {
      ArriveMustWait(t, id);
      w := id;
      NotYetRunning(t, id);
    }
  }

  lemma NotYetRunning(s: State, id: int)
    requires Inv(s) && Enabled(s, Arrive(id))
    ensures !Runs(s, id)
  {
    hide Recorded, Reported, Fair, Ordered, Counted, Loyal;
  }

  lemma FirstIdleOf(s: State, n: nat) returns (c: nat)
    ensures c <= n && (c < n ==> Idle(s, c)) && forall b :: 0 <= b < c ==> !Idle(s, b)
  {
    c := 0;
    while c < n && !Idle(s, c)
      invariant c <= n && forall b :: 0 <= b < c ==> !Idle(s, b)
    {
      c := c + 1;
    }
  }

  /** Except under PSJF nothing takes a core from a job but its completion and the end of its slice. */
  lemma StaysOnCore(s: State, e: Event, id: int)
    requires Inv(s) && Enabled(s, e) && Runs(s, id) && s.sched.scheme != PSJF
    requires e != Finish(id) && e != Expire(id)
    ensures Step(s, e).Some?
    ensures var u := Step(s, e).value; Runs(u, id) && u.jobs[id].core == s.jobs[id].core
  {
    hide Inv, FinishStep, ExpireStep, ArriveStep;
    EveryEventGoesThrough(s, e);
    match e
    case Finish(i) => FinishHandsOver(s, i);
    case Expire(i) => ExpireHandsOver(s, i);
    case Arrive(i) =>
      NotYetRunning(s, i);
      ArriveLeaves(s, i, id);
    case _ =>
  }

  lemma ArriveLeaves(s: State, i: int, id: int)
    requires Inv(s) && Enabled(s, Arrive(i)) && Runs(s, id) && s.sched.scheme != PSJF
    ensures ArriveStep(s, i).Some?
    ensures var u := ArriveStep(s, i).value; Runs(u, id) && u.jobs[id].core == s.jobs[id].core
  {
    NotYetRunning(s, i);
    hide Inv, Idle, ArriveStep;
    var c := FirstIdleOf(s, |s.sched.cores|);
    if c < |s.sched.cores| {
      ArriveTakesIdle(s, i, c);
    } else {
      ArriveMustWait(s, i);
    }
  }

  /** Under FCFS and PRI a job that is on a core stays there until it is finished. */
  lemma {:induction false} NobodyIsPreempted(s: State, events: seq<Event>, t: State, id: int)
    requires Inv(s) && IsRun(s, events, t) && s.sched.scheme in {FCFS, PRI} && Runs(s, id)
    requires Finish(id) !in events
    ensures Runs(t, id) && t.jobs[id].core == s.jobs[id].core
    decreases |events|
  {
    if events == [] {
    } else {
      hide Inv, Step, Runs;
      NoSlices(s, events[0]);
      StaysOnCore(s, events[0], id);
      EveryEventGoesThrough(s, events[0]);
      StepConstants(s, events[0]);
      NobodyIsPreempted(Step(s, events[0]).value, events[1..], t, id);
    }
  }

  lemma NoSlices(s: State, e: Event)
    requires Enabled(s, e) && s.sched.scheme != RR
    ensures !e.Expire?
  {
  }

  lemma RunsToTheEnd(m: Table, cores: nat, scheme: Scheme, quantum: int, before: seq<Event>, s: State,
                     events: seq<Event>, t: State, id: int)
    requires Reached(m, cores, scheme, quantum, before, s) && IsRun(s, events, t) && scheme in {FCFS, PRI}
    requires id in s.jobs && s.jobs[id].core != -1 && Finish(id) !in events
    ensures id in t.jobs && t.jobs[id].core == s.jobs[id].core
  {
    ReachedFacts(m, cores, scheme, quantum, before, s);
    NobodyIsPreempted(s, events, t, id);
  }
}
