/**
  The main loop of simulator.c on its arrays, with a scheduler object. Each
  thing the loop does is proved to be the event of the same name, so every
  execution is a run of the state machine, and it is proved to end.
 */
module SimulatorClass {
  import opened Prelude
  import opened SchedulerModel
  import opened SchedulerClass
  import opened SimulatorModel
  import opened SimulatorInvariants
  import opened SimulatorEvents
  import opened SimulatorTheorems
  import opened SimulatorTermination
  import opened SimulatorStatistics

  // ---------- the jobs array as a table ----------

  ghost predicate Holds(js: seq<SimJob>, id: int)
  {
    exists i :: 0 <= i < |js| && js[i].id == id
  }

  /** The array slice lists exactly the entries of the table, each once. */
  ghost predicate Lists(js: seq<SimJob>, m: Table)
  {
    && (forall i :: 0 <= i < |js| ==> js[i].id in m && m[js[i].id] == js[i])
    && (forall i, j :: 0 <= i < j < |js| ==> js[i].id != js[j].id)
    && (forall id :: id in m ==> Holds(js, id))
  }

  lemma ListsUpdate(js: seq<SimJob>, m: Table, i: nat, j: SimJob)
    requires Lists(js, m) && i < |js| && j.id == js[i].id
    ensures Lists(js[i := j], m[j.id := j])
  {
    var o := js[i := j];
    forall id | id in m ensures Holds(o, id) {
      var k :| 0 <= k < |js| && js[k].id == id;
      assert o[k].id == id;
    }
  }

  /** The swap with the last entry that deletes entry `i`. */
  lemma ListsDelete(js: seq<SimJob>, m: Table, i: nat)
    requires Lists(js, m) && i < |js|
    ensures Lists(js[i := js[|js| - 1]][..|js| - 1], m - {js[i].id})
  {
    var last := |js| - 1;
    var o := js[i := js[last]][..last];
    assert forall k :: 0 <= k < |o| ==> o[k] == if k == i then js[last] else js[k];
    forall id | id in m - {js[i].id} ensures Holds(o, id) {
      var k :| 0 <= k < |js| && js[k].id == id;
      assert o[if k == last then i else k].id == id;
    }
  }

  lemma ListsMapped(js: seq<SimJob>, m: Table, js': seq<SimJob>, m': Table)
    requires Lists(js, m) && |js'| == |js|
    requires forall id :: id in m' <==> id in m
    requires forall i :: 0 <= i < |js| ==> js'[i].id == js[i].id && m'[js[i].id] == js'[i]
    ensures Lists(js', m')
  {
    forall id | id in m' ensures Holds(js', id) {
      var k :| 0 <= k < |js| && js[k].id == id;
      assert js'[k].id == id;
    }
  }

  /** No two entries claim the same core. */
  ghost predicate OneEach(js: seq<SimJob>, n: nat)
  {
    && (forall k :: 0 <= k < |js| ==> -1 <= js[k].core < n)
    && (forall k, l :: 0 <= k < l < |js| && js[k].core != -1 ==> js[k].core != js[l].core)
  }

  function RunEntry(j: SimJob): SimJob
  {
    if j.core != -1 then j.(run := j.run - 1) else j
  }

  /** The entries when the first `i` of them have run their unit. */
  function RunTo(js: seq<SimJob>, i: nat): (r: seq<SimJob>)
    ensures |r| == |js|
  {
    seq(|js|, k requires 0 <= k < |js| => if k < i then RunEntry(js[k]) else js[k])
  }

  lemma RunNone(js: seq<SimJob>)
    ensures RunTo(js, 0) == js
  {
  }

  lemma RunNext(js: seq<SimJob>, i: nat)
    requires i < |js|
    ensures RunTo(js, i)[i] == js[i] && RunTo(js, i)[i := RunEntry(js[i])] == RunTo(js, i + 1)
  {
  }

  /** The slots and clocks when the first `i` entries have run; `who` is the entry that took the slot. */
  ghost predicate PartRow(js: seq<SimJob>, i: nat, slots: Row, who: seq<int>,
                          was: seq<int>, clock: seq<int>, working: nat)
  {
    && i <= |js| && |slots| == |who| == |was| == |clock|
    && (forall k :: 0 <= k < i && js[k].core != -1 ==> 0 <= js[k].core < |slots| && slots[js[k].core] == Some(js[k].id))
    && (forall c :: 0 <= c < |slots| && slots[c].Some? ==>
          0 <= who[c] < i && js[who[c]].core == c && slots[c] == Some(js[who[c]].id))
    && (forall c :: 0 <= c < |slots| ==> clock[c] == if slots[c].Some? then was[c] - 1 else was[c])
    && (working > 0 <==> Busy(slots))
  }

  lemma PartRowNext(js: seq<SimJob>, i: nat, slots: Row, who: seq<int>, was: seq<int>, clock: seq<int>, working: nat)
    requires i < |js| && OneEach(js, |slots|) && js[i].core != -1
    requires PartRow(js, i, slots, who, was, clock, working)
    ensures var c := js[i].core;
            && 0 <= c < |slots| == |who| == |clock| && slots[c].None?
            && PartRow(js, i + 1, slots[c := Some(js[i].id)], who[c := i], was, clock[c := clock[c] - 1], working + 1)
  {
    var c := js[i].core;
    var slots' := slots[c := Some(js[i].id)];
    assert slots'[c].Some?;
  }

  lemma PartRowSkip(js: seq<SimJob>, i: nat, slots: Row, who: seq<int>, was: seq<int>, clock: seq<int>, working: nat)
    requires i < |js| && js[i].core == -1 && PartRow(js, i, slots, who, was, clock, working)
    ensures PartRow(js, i + 1, slots, who, was, clock, working)
  {
  }

  /** All entries have run: the slots are a row of the table, and the clocks those of the next state. */
  lemma RowDone(js: seq<SimJob>, s: State, row: Row, who: seq<int>, clock: seq<int>, working: nat)
    requires Lists(js, s.jobs) && OneEach(js, |row|) && PartRow(js, |js|, row, who, s.clock, clock, working)
    ensures IsRow(s.jobs, |row|, row) && (working > 0 <==> Busy(row))
    ensures |row| == |s.clock| && clock == TickResult(s, row).clock
  {
    hide Lists, IsRow;
    RowOfTable(js, s.jobs, row, who);
  }

  lemma ListsRun(js: seq<SimJob>, m: Table)
    requires Lists(js, m)
    ensures Lists(RunTo(js, |js|), RunUnit(m))
  {
    ListsMapped(js, m, RunTo(js, |js|), RunUnit(m));
  }

  /** The slots filled from the entries are the row of the table. */
  lemma RowOfTable(js: seq<SimJob>, m: Table, row: Row, who: seq<int>)
    requires Lists(js, m) && |who| == |row|
    requires forall k :: 0 <= k < |js| ==> -1 <= js[k].core < |row|
    requires forall k :: 0 <= k < |js| && js[k].core != -1 ==> row[js[k].core] == Some(js[k].id)
    requires forall c :: 0 <= c < |row| && row[c].Some? ==>
      0 <= who[c] < |js| && js[who[c]].core == c && row[c] == Some(js[who[c]].id)
    ensures IsRow(m, |row|, row)
  {
    forall id | id in m && m[id].core != -1 ensures 0 <= m[id].core < |row| && row[m[id].core] == Some(id) {
      var k :| 0 <= k < |js| && js[k].id == id;
    }
  }

  lemma ListsEmpty(js: seq<SimJob>, m: Table)
    requires Lists(js, m)
    ensures js == [] <==> m == map[]
  {
    if m != map[] {
      assert |m| > 0;
      assert Holds(js, AnyId(m));
    }
    if js != [] {
      assert js[0].id in m;
    }
  }

  lemma {:induction false} RunExtends(s: State, events: seq<Event>, t: State, e: Event)
    requires IsRun(s, events, t) && Enabled(t, e) && Step(t, e).Some?
    ensures IsRun(s, events + [e], Step(t, e).value)
    decreases |events|
  {
    hide Enabled, Step;
    if events == [] {
      assert [e][1..] == [];
    } else {
      RunExtends(Step(s, events[0]).value, events[1..], t, e);
      assert (events + [e])[1..] == events[1..] + [e];
    }
  }

  ghost predicate Begun(s: State)
  {
    && Configured(s.input, |s.clock|, s.sched.scheme, s.quantum)
    && s == Init(s.input, |s.clock|, s.sched.scheme, s.quantum)
  }

  class Simulator {
    const scheme: Scheme
    const quantum: int
    const jobs: array<SimJob>
    const quantumClock: array<int>
    const sched: Scheduler
    var activeJobs: nat
    var jobsAlive: int
    var time: int
    var diagram: seq<Row>
    ghost var state: State
    ghost var log: seq<Event>
    ghost const first: State

    ghost predicate Apart()
      reads this, sched
    {
      this !in sched.Repr && jobs !in sched.Repr && quantumClock !in sched.Repr
    }

    /** The variables of the loop say what `state` says. */
    ghost predicate Mirrors()
      reads this, jobs, quantumClock
    {
      && activeJobs <= jobs.Length
      && Lists(jobs[..activeJobs], state.jobs)
      && state.clock == quantumClock[..] && state.quantum == quantum && state.sched.scheme == scheme
      && state.alive == jobsAlive && state.time == time && state.rows == diagram
    }

    /** The events logged so far are a run from the first state to this one. */
    ghost predicate Logged()
      reads this`log, this`state
    {
      Begun(first) && IsRun(first, log, state)
    }

    ghost predicate Valid()
      reads this, jobs, quantumClock, sched, sched.Repr
    {
      Apart() && sched.Valid() && sched.model == state.sched && Mirrors() && Logged()
    }

    lemma Sane()
      requires Logged()
      ensures Inv(state)
    {
      InitHolds(first.input, |first.clock|, first.sched.scheme, first.quantum);
      RunKeeps(first, log, state);
      RunConstants(first, log, state);
    }

    /** The event `e` has been carried out. */
    ghost method Record(e: Event)
      requires Logged() && Enabled(state, e)
      modifies this`state, this`log
      ensures Logged() && Step(old(state), e) == Some(state)
      ensures if e.Tick? then NextUnit(state, old(state)) else SameUnit(state, old(state))
    {
      hide Inv, Enabled, Step, SameUnit, NextUnit;
      Sane();
      EventInUnit(state, e);
      RunExtends(first, log, state, e);
      log := log + [e];
      state := Step(state, e).value;
    }

    constructor (file: seq<SimJob>, cores: nat, scheme: Scheme, quantum: int, ghost m: Table)
      requires Lists(file, m) && Configured(m, cores, scheme, quantum)
      ensures Valid() && fresh(sched) && fresh(sched.Repr) && fresh(jobs) && fresh(quantumClock)
      ensures first == Init(m, cores, scheme, quantum) == state
    {
      this.scheme, this.quantum := scheme, quantum;
      hide Scheduler.Valid, Lists;
      jobs := new SimJob[|file|](i requires 0 <= i < |file| => file[i]);
      quantumClock := new int[cores](_ => -1);
      sched := new Scheduler(cores, scheme);
      activeJobs, jobsAlive, time, diagram := |file|, 0, 0, [];
      first, state, log := Init(m, cores, scheme, quantum), Init(m, cores, scheme, quantum), [];
      new;
      assert jobs[..activeJobs] == file;
      assert quantumClock[..] == state.clock;
    }

    /** `set_active_job` */
    method SetActiveJob(id: int, core: int, ghost m: Table) returns (ok: bool)
      requires activeJobs <= jobs.Length && Lists(jobs[..activeJobs], m)
      modifies jobs
      ensures ok == SetActive(m, id, core).Some?
      ensures Lists(jobs[..activeJobs], if ok then SetActive(m, id, core).value else m)
      ensures forall k :: 0 <= k < jobs.Length ==>
        jobs[k].run == old(jobs[k].run) && jobs[k].core in {old(jobs[k].core), core}
    {
      for i := 0 to activeJobs
        invariant jobs[..] == old(jobs[..])
        invariant forall k :: 0 <= k < i ==> !(jobs[k].id == id && jobs[k].arrived)
      {
        if jobs[i].id == id && jobs[i].arrived {
          ListsUpdate(jobs[..activeJobs], m, i, jobs[i].(core := core));
          ghost var was := jobs[..activeJobs];
          jobs[i] := jobs[i].(core := core);
          assert jobs[..activeJobs] == was[i := was[i].(core := core)];
          return true;
        }
      }
      if id in m {
        assert Holds(jobs[..activeJobs], id);
      }
      return false;
    }

    /** `next == -1 || set_active_job(next, core)` */
    method ActivateJob(next: int, core: int, ghost m: Table) returns (ok: bool)
      requires activeJobs <= jobs.Length && Lists(jobs[..activeJobs], m)
      modifies jobs
      ensures ok == Activate(m, next, core).Some?
      ensures ok ==> Lists(jobs[..activeJobs], Activate(m, next, core).value)
      ensures forall k :: 0 <= k < jobs.Length ==>
        jobs[k].run == old(jobs[k].run) && jobs[k].core in {old(jobs[k].core), core}
    {
      ok := true;
      if next != -1 {
        ok := SetActiveJob(next, core, m);
      }
    }

    /** Deletes entry `i` by moving the last one there: lines 243-246. */
    method RemoveEntry(i: nat, ghost m: Table)
      requires i < activeJobs <= jobs.Length && Lists(jobs[..activeJobs], m)
      modifies jobs, this`activeJobs
      ensures activeJobs == old(activeJobs) - 1 && Lists(jobs[..activeJobs], m - {old(jobs[i].id)})
      ensures forall k :: 0 <= k < i ==> jobs[k] == old(jobs[k])
    {
      ghost var was := jobs[..activeJobs];
      ListsDelete(was, m, i);
      if i != activeJobs - 1 {
        jobs[i] := jobs[activeJobs - 1];
      }
      activeJobs := activeJobs - 1;
      assert jobs[..activeJobs] == was[i := was[|was| - 1]][..|was| - 1];
    }

    // ---------- completion ----------

    /** The scheduler does not notice what happens to the simulator's own variables. */
    twostate lemma SchedKept()
      requires old(sched.Valid()) && unchanged(sched) && unchanged(old(sched.Repr))
      ensures sched.Valid() && sched.model == old(sched.model) && sched.Repr == old(sched.Repr)
      ensures |sched.model.cores| == sched.cores.Length && sched.model.scheme == sched.scheme
      ensures forall c :: 0 <= c < sched.cores.Length ==> (sched.cores[c] == null <==> sched.model.cores[c].None?)
    {
      hide Scheduler.Valid;
      sched.CoresMatch();
    }

    /** An entry of the array is its job of the table. */
    lemma EntryOf(i: nat)
      requires Mirrors() && i < activeJobs
      ensures jobs[i].id in state.jobs && state.jobs[jobs[i].id] == jobs[i]
    {
      assert jobs[..activeJobs][i] == jobs[i];
    }

    /** A job without work left is on a core, which holds it. */
    lemma MayFinish(id: int)
      requires Valid() && id in state.jobs && state.jobs[id].run == 0
      ensures 0 <= state.jobs[id].core < sched.cores.Length == quantumClock.Length
      ensures sched.cores[state.jobs[id].core] != null && OnCore(state, id) && sched.scheme == scheme
    {
      hide Scheduler.Valid, Lists;
      Sane();
      sched.CoresMatch();
      if state.jobs[id].core == -1 { IdleHasWork(state, id); }
    }

    /** What the simulator does to its own variables when entry `i` is completed. */
    method FinishEntry(i: nat, next: int) returns (ok: bool)
      requires Mirrors() && Logged() && i < activeJobs && state.phase == Finishing
      requires 0 <= jobs[i].core < quantumClock.Length
      modifies this`activeJobs, this`jobsAlive, jobs, quantumClock
      ensures ok == Activate(state.jobs - {old(jobs[i].id)}, next, old(jobs[i].core)).Some?
      ensures activeJobs == old(activeJobs) - 1 && jobsAlive == old(jobsAlive) - 1
      ensures forall k :: 0 <= k < i ==> jobs[k].run == old(jobs[k].run)
      ensures ok ==> Lists(jobs[..activeJobs], Activate(state.jobs - {old(jobs[i].id)}, next, old(jobs[i].core)).value)
      ensures quantumClock[..] == if scheme == RR then state.clock[old(jobs[i].core) := quantum] else state.clock
    {
      var id, c := jobs[i].id, jobs[i].core;
      if scheme == RR {
        quantumClock[c] := quantum;
      }
      RemoveEntry(i, state.jobs);
      jobsAlive := jobsAlive - 1;
      ok := ActivateJob(next, c, state.jobs - {id});
    }

    /** The completion of `id` has been carried out, and put `next` on its core. */
    ghost method RecordFinish(id: int, next: int)
      requires Logged() && Enabled(state, Finish(id)) && OnCore(state, id)
      requires next == SchedulerModel.JobFinished(state.sched, state.jobs[id].core, state.time).1
      modifies this`state, this`log
      ensures Logged() && SameUnit(state, old(state))
      ensures var s, c := old(state), old(state).jobs[id].core;
        && Activate(s.jobs - {id}, next, c).Some?
        && state == s.(
             jobs := Activate(s.jobs - {id}, next, c).value,
             sched := SchedulerModel.JobFinished(s.sched, c, s.time).0,
             clock := if s.sched.scheme == RR then s.clock[c := s.quantum] else s.clock,
             alive := s.alive - 1)
    {
      Record(Finish(id));
    }

    /** Lines 232-265 for entry `i`. */
    method FinishAt(i: nat) returns (ok: bool)
      requires Valid() && i < activeJobs && state.phase == Finishing && jobs[i].run == 0
      modifies this, jobs, quantumClock, sched.Repr
      ensures ok && Valid() && fresh(sched.Repr - old(sched.Repr))
      ensures activeJobs == old(activeJobs) - 1 && state.phase == Finishing
      ensures forall k :: 0 <= k < i ==> jobs[k].run == old(jobs[k].run)
      ensures SameUnit(state, old(state))
    {
      hide Scheduler.Valid, Measure, Logged, Lists, Activate, SchedulerModel.JobFinished;
      EntryOf(i);
      var id, c := jobs[i].id, jobs[i].core;
      MayFinish(id);
      var next := sched.JobFinished(c, id, time);
      label Scheduled:
      ok := FinishEntry(i, next);
      RecordFinish(id, next);
      SchedKept@Scheduled();
    }

    /** Lines 228-267: every job that ran out of work is completed. */
    method FinishJobs() returns (ok: bool)
      requires Valid() && state.phase == Finishing
      modifies this, jobs, quantumClock, sched.Repr
      ensures ok && Valid() && fresh(sched.Repr - old(sched.Repr))
      ensures state.phase == Finishing && forall k :: 0 <= k < activeJobs ==> jobs[k].run != 0
      ensures SameUnit(state, old(state))
    {
      hide Scheduler.Valid, Measure, Logged, Lists;
      var i := 0;
      ok := true;
      while i < activeJobs
        invariant Valid() && fresh(sched.Repr - old(sched.Repr)) && ok
        invariant i <= activeJobs && state.phase == Finishing
        invariant forall k :: 0 <= k < i ==> jobs[k].run != 0
        invariant SameUnit(state, old(state))
        decreases activeJobs - i
      {
        if jobs[i].run == 0 {
          ok := FinishAt(i);
        } else {
          i := i + 1;
        }
      }
    }

    /** The events that end a phase change nothing the program can see. */
    ghost method RecordDone(e: Event)
      requires Logged() && Enabled(state, e) && (e == FinishingDone || e == ExpiringDone)
      modifies this`state, this`log
      ensures Logged() && SameUnit(state, old(state))
      ensures state == old(state).(phase := if e == FinishingDone then Expiring else Arriving)
    {
      Record(e);
    }

    // ---------- quantum expiry ----------

    /** A core whose slice is over is busy with the job that says so. */
    lemma MayExpire(id: int)
      requires Valid() && Enabled(state, Expire(id))
      ensures OnCore(state, id) && quantum >= 1 && sched.scheme == scheme
      ensures state.jobs[id].core < sched.cores.Length == quantumClock.Length
      ensures sched.cores[state.jobs[id].core] != null
    {
      hide Scheduler.Valid, Lists;
      Sane();
      sched.CoresMatch();
    }

    /** The expiry of the slice of `id` has been carried out, and put `next` on its core. */
    ghost method RecordExpire(id: int, next: int)
      requires Logged() && Enabled(state, Expire(id)) && OnCore(state, id)
      requires next == SchedulerModel.QuantumExpired(state.sched, state.jobs[id].core, state.time).1
      modifies this`state, this`log
      ensures Logged() && SameUnit(state, old(state))
      ensures var s, c := old(state), old(state).jobs[id].core;
        && Activate(s.jobs[id := s.jobs[id].(core := -1)], next, c).Some?
        && state == s.(
             jobs := Activate(s.jobs[id := s.jobs[id].(core := -1)], next, c).value,
             sched := SchedulerModel.QuantumExpired(s.sched, c, s.time).0,
             clock := s.clock[c := s.quantum])
    {
      Record(Expire(id));
    }

    /** What the simulator does to its own variables when the slice of entry `j` is over. */
    method ExpireEntry(j: nat, next: int) returns (ok: bool)
      requires Mirrors() && j < activeJobs && 0 <= jobs[j].core < quantumClock.Length
      modifies jobs, quantumClock
      ensures var m := state.jobs[old(jobs[j].id) := old(jobs[j]).(core := -1)];
        && ok == Activate(m, next, old(jobs[j].core)).Some?
        && (ok ==> Lists(jobs[..activeJobs], Activate(m, next, old(jobs[j].core)).value))
      ensures quantumClock[..] == state.clock[old(jobs[j].core) := quantum]
      ensures forall k :: 0 <= k < activeJobs ==> jobs[k].core in {old(jobs[k].core), -1, old(jobs[j].core)}
    {
      var id, c := jobs[j].id, jobs[j].core;
      ghost var was := jobs[..activeJobs];
      ListsUpdate(was, state.jobs, j, jobs[j].(core := -1));
      jobs[j] := jobs[j].(core := -1);
      assert jobs[..activeJobs] == was[j := was[j].(core := -1)];
      quantumClock[c] := quantum;
      ok := ActivateJob(next, c, state.jobs[id := was[j].(core := -1)]);
    }

    /** Lines 284-310 for entry `j`, whose slice on core `c` is over. */
    method ExpireAt(j: nat, c: nat) returns (ok: bool)
      requires Valid() && j < activeJobs && state.phase == Expiring && scheme == RR
      requires c == jobs[j].core < quantumClock.Length && quantumClock[c] == 0
      modifies this, jobs, quantumClock, sched.Repr
      ensures ok && Valid() && fresh(sched.Repr - old(sched.Repr))
      ensures activeJobs == old(activeJobs) && state.phase == Expiring
      ensures quantum >= 1 && quantumClock[..] == old(quantumClock[..])[c := quantum]
      ensures forall k :: 0 <= k < activeJobs ==> jobs[k].core in {old(jobs[k].core), -1, c}
      ensures SameUnit(state, old(state))
    {
      hide Scheduler.Valid, Measure, Logged, Lists, Activate, SchedulerModel.QuantumExpired;
      EntryOf(j);
      var id := jobs[j].id;
      MayExpire(id);
      var next := sched.QuantumExpired(c, time);
      label Scheduled:
      ok := ExpireEntry(j, next);
      RecordExpire(id, next);
      SchedKept@Scheduled();
    }

    /** Lines 281-313 for core `c`. */
    method ExpireCore(c: nat) returns (ok: bool)
      requires Valid() && state.phase == Expiring && scheme == RR && c < quantumClock.Length
      modifies this, jobs, quantumClock, sched.Repr
      ensures ok && Valid() && fresh(sched.Repr - old(sched.Repr))
      ensures activeJobs == old(activeJobs) && state.phase == Expiring
      ensures quantumClock[c] == 0 ==> forall k :: 0 <= k < activeJobs ==> jobs[k].core != c
      ensures forall b :: 0 <= b < quantumClock.Length && b != c ==> quantumClock[b] == old(quantumClock[b])
      ensures forall k :: 0 <= k < activeJobs ==> jobs[k].core in {old(jobs[k].core), -1, c}
      ensures SameUnit(state, old(state))
    {
      hide Scheduler.Valid, Measure, Logged, Lists;
      ok := true;
      if quantumClock[c] == 0 {
        for j := 0 to activeJobs
          invariant forall k :: 0 <= k < j ==> jobs[k].core != c
        {
          if jobs[j].core == c {
            ok := ExpireAt(j, c);
            return;
          }
        }
      }
    }

    /** Lines 279-315: every slice that is over ends. */
    method ExpireSlices() returns (ok: bool)
      requires Valid() && state.phase == Expiring
      modifies this, jobs, quantumClock, sched.Repr
      ensures ok && Valid() && fresh(sched.Repr - old(sched.Repr))
      ensures activeJobs == old(activeJobs) && state.phase == Expiring
      ensures scheme == RR ==> forall k :: 0 <= k < activeJobs && 0 <= jobs[k].core < quantumClock.Length ==>
        quantumClock[jobs[k].core] != 0
      ensures SameUnit(state, old(state))
    {
      hide Scheduler.Valid, Measure, Logged, Lists;
      ok := true;
      if scheme == RR {
        for c := 0 to quantumClock.Length
          invariant Valid() && fresh(sched.Repr - old(sched.Repr)) && ok
          invariant activeJobs == old(activeJobs) && state.phase == Expiring
          invariant forall k :: 0 <= k < activeJobs && 0 <= jobs[k].core < c ==> quantumClock[jobs[k].core] != 0
          invariant SameUnit(state, old(state))
        {
          ok := ExpireCore(c);
        }
      }
    }

    // ---------- arrival ----------

    /** Whoever is on core `c` leaves it: lines 337-339. */
    method VacateCore(c: int, ghost m: Table)
      requires activeJobs <= jobs.Length && Lists(jobs[..activeJobs], m)
      modifies jobs
      ensures Lists(jobs[..activeJobs], Vacate(m, c))
      ensures forall k :: 0 <= k < activeJobs ==>
        jobs[k] == if old(jobs[k]).core == c then old(jobs[k]).(core := -1) else old(jobs[k])
    {
      for j := 0 to activeJobs
        invariant forall k :: 0 <= k < activeJobs ==>
          jobs[k] == if k < j && old(jobs[k]).core == c then old(jobs[k]).(core := -1) else old(jobs[k])
      {
        if jobs[j].core == c {
          jobs[j] := jobs[j].(core := -1);
        }
      }
      ListsMapped(old(jobs[..activeJobs]), m, jobs[..activeJobs], Vacate(m, c));
    }

    /** What the simulator does to its own variables when entry `i` arrives and is given core `c`, or none. */
    method ArriveEntry(i: nat, c: int) returns (ok: bool)
      requires Mirrors() && i < activeJobs && -1 <= c < quantumClock.Length
      modifies this`jobsAlive, jobs, quantumClock
      ensures ok && jobsAlive == old(jobsAlive) + 1
      ensures var j := old(jobs[i]);
        var m := state.jobs[j.id := j.(arrived := true)];
        Lists(jobs[..activeJobs], if c == -1 then m else Vacate(m, c)[j.id := Vacate(m, c)[j.id].(core := c)])
      ensures quantumClock[..] == if c != -1 && scheme == RR then state.clock[c := quantum] else state.clock
      ensures forall k :: 0 <= k < activeJobs ==>
        jobs[k].arrival == old(jobs[k].arrival) && jobs[k].arrived == (k == i || old(jobs[k].arrived))
    {
      hide Inv, Vacate;
      ghost var was, j := jobs[..activeJobs], jobs[i].(arrived := true);
      ListsUpdate(was, state.jobs, i, j);
      jobs[i] := jobs[i].(arrived := true);
      assert jobs[..activeJobs] == was[i := j];
      ghost var m := state.jobs[j.id := j];
      jobsAlive := jobsAlive + 1;
      if 0 <= c < quantumClock.Length {
        VacateCore(c, m);
        ghost var now := jobs[..activeJobs];
        ListsUpdate(now, Vacate(m, c), i, jobs[i].(core := c));
        jobs[i] := jobs[i].(core := c);
        assert jobs[..activeJobs] == now[i := now[i].(core := c)];
        if scheme == RR {
          quantumClock[c] := quantum;
        }
      }
      ok := 0 <= c < quantumClock.Length || c == -1;
    }

    /** The answer of the scheduler is a core or -1. */
    lemma MayArrive(id: int)
      requires Valid() && Enabled(state, Arrive(id))
      ensures state.jobs[id].id == id && sched.scheme == scheme
      ensures var j := state.jobs[id];
        -1 <= SchedulerModel.NewJob(state.sched, id, time, j.run, j.priority).1 < quantumClock.Length
      ensures quantumClock.Length == |state.sched.cores|
    {
      hide Reported, ReportOk, InDone, Agree, Distinct, InQueue, Loyal, NeverBefore, Charged, Clocked,
           InPhase, SchedulerModel.NewJob, Scheduler.Valid, Measure;
      sched.CoresMatch();
      Sane();
      EveryEventGoesThrough(state, Arrive(id));
    }

    /** The arrival of `id` has been carried out; the scheduler answered `c`. */
    ghost method RecordArrive(id: int, c: int)
      requires Logged() && Enabled(state, Arrive(id)) && |state.clock| == |state.sched.cores| && state.jobs[id].id == id
      requires -1 <= c < |state.clock|
      requires c == SchedulerModel.NewJob(state.sched, id, state.time, state.jobs[id].run, state.jobs[id].priority).1
      modifies this`state, this`log
      ensures Logged() && SameUnit(state, old(state))
      ensures var s := old(state);
        var j := s.jobs[id];
        var m := s.jobs[id := j.(arrived := true)];
        state == s.(
          jobs := if c == -1 then m else Vacate(m, c)[id := Vacate(m, c)[id].(core := c)],
          sched := SchedulerModel.NewJob(s.sched, id, s.time, j.run, j.priority).0,
          alive := s.alive + 1,
          clock := if c != -1 && s.sched.scheme == RR then s.clock[c := s.quantum] else s.clock)
    {
      Record(Arrive(id));
    }

    /** Lines 321-361 for entry `i`. */
    method ArriveAt(i: nat) returns (ok: bool)
      requires Valid() && i < activeJobs && state.phase == Arriving && jobs[i].arrival == time && !jobs[i].arrived
      modifies this, jobs, quantumClock, sched.Repr
      ensures ok && Valid() && fresh(sched.Repr - old(sched.Repr))
      ensures activeJobs == old(activeJobs) && state.phase == Arriving && time == old(time)
      ensures forall k :: 0 <= k < activeJobs ==>
        jobs[k].arrival == old(jobs[k].arrival) && jobs[k].arrived == (k == i || old(jobs[k].arrived))
      ensures SameUnit(state, old(state))
    {
      hide Scheduler.Valid, Measure, Logged, Lists, Vacate, SchedulerModel.NewJob;
      EntryOf(i);
      var j := jobs[i];
      MayArrive(j.id);
      var c := sched.NewJob(j.id, time, j.run, j.priority);
      label Scheduled:
      ok := ArriveEntry(i, c);
      RecordArrive(j.id, c);
      SchedKept@Scheduled();
    }

    /** Nobody whose time has come was there before. */
    lemma NobodyEarly()
      requires Valid() && state.phase == Expiring
      ensures forall k :: 0 <= k < activeJobs && jobs[k].arrived ==> jobs[k].arrival < time
    {
      hide Scheduler.Valid, Measure;
      Sane();
      forall k | 0 <= k < activeJobs && jobs[k].arrived ensures jobs[k].arrival < time {
        assert jobs[..activeJobs][k].id in state.jobs;
      }
    }

    /** Lines 320-362: every job whose time has come arrives. */
    method AdmitArrivals() returns (ok: bool)
      requires Valid() && state.phase == Arriving
      requires forall k :: 0 <= k < activeJobs && jobs[k].arrived ==> jobs[k].arrival < time
      modifies this, jobs, quantumClock, sched.Repr
      ensures ok && Valid() && fresh(sched.Repr - old(sched.Repr))
      ensures activeJobs == old(activeJobs) && state.phase == Arriving
      ensures forall k :: 0 <= k < activeJobs && jobs[k].arrival == time ==> jobs[k].arrived
      ensures SameUnit(state, old(state))
    {
      hide Scheduler.Valid, Measure, Logged, Lists;
      ok := true;
      for i := 0 to activeJobs
        invariant Valid() && fresh(sched.Repr - old(sched.Repr)) && ok
        invariant activeJobs == old(activeJobs) && state.phase == Arriving
        invariant forall k :: 0 <= k < i && jobs[k].arrival == time ==> jobs[k].arrived
        invariant forall k :: i <= k < activeJobs && jobs[k].arrived ==> jobs[k].arrival < time
        invariant SameUnit(state, old(state))
      {
        if jobs[i].arrival == time {
          ok := ArriveAt(i);
        }
      }
    }

    // ---------- one unit of time ----------

    /** No two entries claim the same core. */
    lemma OnePerCore()
      requires Valid()
      ensures |state.clock| == |state.sched.cores| == quantumClock.Length
      ensures OneEach(jobs[..activeJobs], quantumClock.Length)
    {
      hide Scheduler.Valid, Measure;
      Sane();
      var js := jobs[..activeJobs];
      forall k | 0 <= k < |js| ensures -1 <= js[k].core < quantumClock.Length {
        assert js[k].id in state.jobs;
      }
      forall k, l | 0 <= k < l < |js| && js[k].core != -1 ensures js[k].core != js[l].core {
        assert js[k].id in state.jobs && js[l].id in state.jobs;
      }
    }

    /** Lines 373-392 for entry `i`. */
    method RunAt(i: nat, slots: array<Option<int>>, working: nat,
                 ghost was: seq<SimJob>, ghost clock: seq<int>, ghost who: seq<int>)
      returns (working': nat, ghost who': seq<int>)
      requires i < activeJobs <= jobs.Length && OneEach(was, slots.Length) && jobs[..activeJobs] == RunTo(was, i)
      requires PartRow(was, i, slots[..], who, clock, quantumClock[..], working)
      modifies jobs, quantumClock, slots
      ensures jobs[..activeJobs] == RunTo(was, i + 1)
      ensures PartRow(was, i + 1, slots[..], who', clock, quantumClock[..], working')
    {
      hide PartRow, OneEach, RunTo;
      working', who' := working, who;
      RunNext(was, i);
      assert jobs[i] == jobs[..activeJobs][i] == was[i];
      if jobs[i].core != -1 {
        var c := jobs[i].core;
        PartRowNext(was, i, slots[..], who, clock, quantumClock[..], working);
        assert slots[..][c].None?;   // the assertion of line 379
        working', who' := working + 1, who[c := i];
        jobs[i] := jobs[i].(run := jobs[i].run - 1);
        assert jobs[..activeJobs] == RunTo(was, i)[i := RunEntry(was[i])];
        quantumClock[c] := quantumClock[c] - 1;
        slots[c] := Some(jobs[i].id);
      } else {
        PartRowSkip(was, i, slots[..], who, clock, quantumClock[..], working);
      }
    }

    /** Lines 370-392: what each core does in this unit. */
    method FillSlots(slots: array<Option<int>>) returns (working: nat, ghost who: seq<int>)
      requires activeJobs <= jobs.Length && OneEach(jobs[..activeJobs], quantumClock.Length)
      requires slots.Length == quantumClock.Length && forall c :: 0 <= c < slots.Length ==> slots[c].None?
      modifies jobs, quantumClock, slots
      ensures jobs[..activeJobs] == RunTo(old(jobs[..activeJobs]), activeJobs)
      ensures PartRow(old(jobs[..activeJobs]), activeJobs, slots[..], who,
                      old(quantumClock[..]), quantumClock[..], working)
    {
      hide OneEach, RunTo;
      RunNone(jobs[..activeJobs]);
      working := 0;
      ghost var was, clock := jobs[..activeJobs], quantumClock[..];
      who := seq(quantumClock.Length, _ => 0);   // the entry a core runs
      for i := 0 to activeJobs
        invariant jobs[..activeJobs] == RunTo(was, i)
        invariant PartRow(was, i, slots[..], who, clock, quantumClock[..], working)
      {
        working, who := RunAt(i, slots, working, was, clock, who);
      }
    }

    method RunJobs() returns (row: Row, working: nat)
      requires Mirrors() && OneEach(jobs[..activeJobs], quantumClock.Length)
      modifies jobs, quantumClock
      ensures IsRow(state.jobs, quantumClock.Length, row) && (working > 0 <==> Busy(row))
      ensures Lists(jobs[..activeJobs], RunUnit(state.jobs))
      ensures |row| == |state.clock| && quantumClock[..] == TickResult(state, row).clock
    {
      hide Lists, PartRow, OneEach, RunTo, IsRow, Busy, RunUnit, TickResult;
      ghost var was := jobs[..activeJobs];
      var slots := new Option<int>[quantumClock.Length](_ => None);
      ghost var who;
      working, who := FillSlots(slots);
      row := slots[..];
      RowDone(was, state, row, who, quantumClock[..], working);
      ListsRun(was, state.jobs);
    }

    /** A unit may pass: all arrivals are in, and some core works if a job is there. */
    lemma MayTick(row: Row)
      requires Logged() && state.phase == Arriving && IsRow(state.jobs, |state.clock|, row)
      requires forall id :: id in state.jobs && state.jobs[id].arrival == state.time ==> state.jobs[id].arrived
      ensures Enabled(state, Tick(row)) && (state.alive > 0 <==> Busy(row))
    {
      Sane();
      AliveIsBusy(state, row);
    }

    /** A unit of time has passed. */
    ghost method RecordTick(row: Row)
      requires Logged() && Enabled(state, Tick(row))
      modifies this`state, this`log
      ensures Logged() && NextUnit(state, old(state))
      ensures state == TickResult(old(state), row)
    {
      Sane();
      AliveIsBusy(state, row);
      Record(Tick(row));
    }

    /** All arrivals are in, by the array and by the table. */
    lemma EveryoneIn()
      requires Mirrors() && forall k :: 0 <= k < activeJobs && jobs[k].arrival == time ==> jobs[k].arrived
      ensures forall id :: id in state.jobs && state.jobs[id].arrival == state.time ==> state.jobs[id].arrived
    {
      forall id | id in state.jobs && state.jobs[id].arrival == state.time ensures state.jobs[id].arrived {
        assert Holds(jobs[..activeJobs], id);
      }
    }

    /** Lines 367-448. */
    method PassUnit() returns (ok: bool)
      requires Valid() && state.phase == Arriving
      requires forall k :: 0 <= k < activeJobs && jobs[k].arrival == time ==> jobs[k].arrived
      modifies this, jobs, quantumClock
      ensures ok && Valid() && state.phase == Finishing && NextUnit(state, old(state))
    {
      hide Scheduler.Valid, Measure, Logged, Lists, OneEach, RunUnit, Busy, IsRow;
      OnePerCore();
      EveryoneIn();
      label Before:
      var row, working := RunJobs();
      MayTick(row);
      ok := !(jobsAlive > 0 && working == 0);
      time := time + 1;
      diagram := diagram + [row];
      RecordTick(row);
      assert quantumClock[..] == state.clock;
      SchedKept@Before();
    }

    // ---------- the main loop ----------

    /** Phase 1 is over: there are jobs left, and each has work to do. */
    ghost method EndFinishing()
      requires Valid() && state.phase == Finishing && activeJobs > 0
      requires forall k :: 0 <= k < activeJobs ==> jobs[k].run != 0
      modifies this`state, this`log
      ensures Valid() && state.phase == Expiring && SameUnit(state, old(state))
    {
      hide Scheduler.Valid, Measure, Logged;
      ghost var js := jobs[..activeJobs];
      ListsEmpty(js, state.jobs);
      forall id | id in state.jobs ensures state.jobs[id].run != 0 {
        assert Holds(js, id);
      }
      RecordDone(FinishingDone);
    }

    /** Phase 2 is over: no slice is. */
    ghost method EndExpiring()
      requires Valid() && state.phase == Expiring
      requires scheme == RR ==> forall k :: 0 <= k < activeJobs && 0 <= jobs[k].core < quantumClock.Length ==>
        quantumClock[jobs[k].core] != 0
      modifies this`state, this`log
      ensures Valid() && state.phase == Arriving && SameUnit(state, old(state))
    {
      hide Scheduler.Valid, Measure, Logged;
      ghost var js := jobs[..activeJobs];
      if scheme == RR {
        forall id | id in state.jobs && 0 <= state.jobs[id].core < |state.clock|
          ensures state.clock[state.jobs[id].core] != 0 {
          assert Holds(js, id);
        }
      }
      RecordDone(ExpiringDone);
    }

    /** Lines 279-315, and the phases before and after. */
    method ExpirePhase() returns (ok: bool)
      requires Valid() && state.phase == Finishing && activeJobs > 0
      requires forall k :: 0 <= k < activeJobs ==> jobs[k].run != 0
      modifies this, jobs, quantumClock, sched.Repr
      ensures ok && Valid() && fresh(sched.Repr - old(sched.Repr))
      ensures state.phase == Arriving && SameUnit(state, old(state))
      ensures forall k :: 0 <= k < activeJobs && jobs[k].arrived ==> jobs[k].arrival < time
    {
      hide Scheduler.Valid, Measure, Logged, Lists;
      EndFinishing();
      ok := ExpireSlices();
      if !ok { return; }
      NobodyEarly();
      EndExpiring();
    }

    /** One turn of the loop after the completions: lines 279-448. */
    method Turn() returns (ok: bool)
      requires Valid() && state.phase == Finishing && activeJobs > 0
      requires forall k :: 0 <= k < activeJobs ==> jobs[k].run != 0
      modifies this, jobs, quantumClock, sched.Repr
      ensures ok && Valid() && fresh(sched.Repr - old(sched.Repr))
      ensures state.phase == Finishing && NextUnit(state, old(state))
    {
      hide Scheduler.Valid, Measure, Logged, Lists;
      ok := ExpirePhase();
      if !ok { return; }
      ok := AdmitArrivals();
      if !ok { return; }
      ok := PassUnit();
    }

    lemma Bounded()
      requires Logged() && CanAllFinish(state.input)
      ensures Measure(state) >= 0
    {
      Sane();
      MeasureIsNatural(state);
    }

    lemma NobodyActive()
      requires Mirrors() && activeJobs == 0
      ensures state.jobs == map[]
    {
      ListsEmpty(jobs[..activeJobs], state.jobs);
    }

    /** One pass of the main loop, lines 223-448. */
    method Pass() returns (ok: bool)
      requires Valid() && state.phase == Finishing && activeJobs > 0
      modifies this, jobs, quantumClock, sched.Repr
      ensures ok && Valid() && fresh(sched.Repr - old(sched.Repr)) && state.phase == Finishing
      ensures NextUnit(state, old(state)) || (activeJobs == 0 && SameUnit(state, old(state)))
    {
      hide Scheduler.Valid, Measure, Logged, Lists;
      ok := FinishJobs();
      if !ok || activeJobs == 0 { return; }
      ok := Turn();
    }

    /**
      The loop of lines 222-449: it ends, with every job completed, and never
      exits with status 3.
     */
    method Run() returns (exit: int)
      requires Valid() && state.phase == Finishing && CanAllFinish(state.input)
      modifies this, jobs, quantumClock, sched.Repr
      ensures exit == 0 && Valid() && Over(state)
    {
      hide Scheduler.Valid, Measure, Logged, Lists;
      Bounded();
      while activeJobs > 0
        invariant Valid() && fresh(sched.Repr - old(sched.Repr)) && CanAllFinish(state.input)
        invariant state.phase == Finishing && Measure(state) >= 0
        decreases Measure(state), activeJobs
      {
        var ok := Pass();
        if !ok { return 3; }
        Bounded();
      }
      NobodyActive();
      return 0;
    }

    /** The same loop watched for `units` units of time, whether it would end or not. */
    method RunFor(units: nat) returns (exit: int)
      requires Valid() && state.phase == Finishing
      modifies this, jobs, quantumClock, sched.Repr
      ensures exit == 0 && Valid() && (Over(state) || time == old(time) + units)
    {
      hide Scheduler.Valid, Measure, Logged, Lists;
      var i := 0;
      while activeJobs > 0 && i < units
        invariant Valid() && fresh(sched.Repr - old(sched.Repr)) && i <= units
        invariant state.phase == Finishing && (activeJobs == 0 || time == old(time) + i)
        decreases units - i
      {
        var ok := Pass();
        if !ok { return 3; }
        i := i + 1;
      }
      if activeJobs == 0 { NobodyActive(); }
      return 0;
    }
  }

  /** The three averages that the timing diagram shows, or None if there was no job. */
  ghost predicate TrueAverages(m: Table, rows: seq<Row>, times: Option<(real, real, real)>)
  {
    if m == map[] then times == None
    else
      && times.Some?
      && IsMean(times.value.0, Sum(m.Keys, Waitings(m, rows)), |m|)
      && IsMean(times.value.1, Sum(m.Keys, Turnarounds(m, rows)), |m|)
      && IsMean(times.value.2, Sum(m.Keys, Responses(m, rows)), |m|)
  }

  /**
    The simulation of the jobs of a file. It ends, with exit status 0, in a
    state the events of the machine reach, so all that is proved of those
    states holds of what the program reports; and the averages it prints are those
    of the timing diagram it prints.
   */
  method Simulate(file: seq<SimJob>, cores: nat, scheme: Scheme, quantum: int, ghost m: Table)
    returns (exit: int, sched: Scheduler, diagram: seq<Row>, times: Option<(real, real, real)>,
             ghost events: seq<Event>, ghost t: State)
    requires Lists(file, m) && Given(m, cores, scheme, quantum) && CanAllFinish(m)
    ensures exit == 0
    ensures Reached(m, cores, scheme, quantum, events, t) && Over(t)
    ensures fresh(sched) && sched.Valid() && sched.model == t.sched && diagram == t.rows
    ensures TrueAverages(m, diagram, times)
  {
    hide Scheduler.Valid, IsMean, IsRun;
    var sim := new Simulator(file, cores, scheme, quantum, m);
    exit := sim.Run();
    sched, diagram, events, t := sim.sched, sim.diagram, sim.log, sim.state;
    TotalsAreTrue(m, cores, scheme, quantum, events, t);
    times := sched.Averages();
    assert |m| == 0 <==> m == map[];
  }

  /**
    The first units of any simulation, also of one that would never end: no exit
    with status 3 and no failing assertion, and the states are those of the machine.
   */
  method SimulateFor(file: seq<SimJob>, cores: nat, scheme: Scheme, quantum: int, units: nat, ghost m: Table)
    returns (exit: int, sched: Scheduler, diagram: seq<Row>, ghost events: seq<Event>, ghost t: State)
    requires Lists(file, m) && Configured(m, cores, scheme, quantum)
    ensures exit == 0
    ensures Reached(m, cores, scheme, quantum, events, t) && (Over(t) || |diagram| == units)
    ensures fresh(sched) && sched.Valid() && sched.model == t.sched && diagram == t.rows
  {
    var sim := new Simulator(file, cores, scheme, quantum, m);
    exit := sim.RunFor(units);
    sim.Sane();
    sched, diagram, events, t := sim.sched, sim.diagram, sim.log, sim.state;
  }
}
