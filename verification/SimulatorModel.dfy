/**
  The discrete-event simulator as a state machine. Every event is one thing
  the main loop of simulator.c does; inside one phase of a time unit the events
  may happen in any order, so what is proved here holds whatever the order of
  the jobs array. `None` stands for a run that dies: an exit with status 3, or an
  access outside the cores array. Where the assertion of line 379 would fail, two
  jobs claiming one core, there is no row and time cannot pass.
 */
module SimulatorModel {
  import opened Prelude
  import opened SchedulerModel

  datatype SimJob = SimJob(id: int, arrival: int, run: int, priority: int, core: int, arrived: bool)

  type Table = map<int, SimJob>

  /** Which job each core ran in one time unit: a column of the timing diagram. */
  type Row = seq<Option<int>>

  datatype Phase = Finishing | Expiring | Arriving

  datatype State = State(
    input: Table,           // the jobs as they were read
    jobs: Table,            // the active jobs
    sched: Sched,
    clock: seq<int>,        // quantum_clock
    quantum: int,
    time: int,
    alive: int,
    rows: seq<Row>,         // the timing diagram so far
    phase: Phase)

  datatype Event =
    | Finish(id: int)
    | FinishingDone
    | Expire(id: int)
    | ExpiringDone
    | Arrive(id: int)
    | Tick(row: Row)

  // ---------- the events ----------

  /** `set_active_job`: 0, modelled as None, when there is no such arrived job. */
  function SetActive(m: Table, id: int, core: int): Option<Table>
  {
    if id in m && m[id].arrived then Some(m[id := m[id].(core := core)]) else None
  }

  /** `next == -1 || set_active_job(next, core)`. */
  function Activate(m: Table, next: int, core: int): Option<Table>
  {
    if next == -1 then Some(m) else SetActive(m, next, core)
  }

  /** The id really is on a core of the scheduler, so its slot may be accessed. */
  predicate OnCore(s: State, id: int)
    requires id in s.jobs
  {
    var c := s.jobs[id].core;
    0 <= c < |s.sched.cores| && c < |s.clock| && s.sched.cores[c].Some?
  }

  function FinishStep(s: State, id: int): Option<State>
    requires id in s.jobs
  {
    if !OnCore(s, id) then None else
    var c := s.jobs[id].core;
    var (sched, next) := JobFinished(s.sched, c, s.time);
    var clock := if s.sched.scheme == RR then s.clock[c := s.quantum] else s.clock;
    match Activate(s.jobs - {id}, next, c)
    case None => None
    case Some(m) => Some(s.(jobs := m, sched := sched, clock := clock, alive := s.alive - 1))
  }

  function ExpireStep(s: State, id: int): Option<State>
    requires id in s.jobs
  {
    if !OnCore(s, id) then None else
    var c := s.jobs[id].core;
    var (sched, next) := QuantumExpired(s.sched, c, s.time);
    match Activate(s.jobs[id := s.jobs[id].(core := -1)], next, c)
    case None => None
    case Some(m) => Some(s.(jobs := m, sched := sched, clock := s.clock[c := s.quantum]))
  }

  /** Whoever is on core `c` leaves it. */
  function Vacate(m: Table, c: int): Table
  {
    map id | id in m :: if m[id].core == c then m[id].(core := -1) else m[id]
  }

  function ArriveStep(s: State, id: int): Option<State>
    requires id in s.jobs
  {
    var j := s.jobs[id];
    var (sched, c) := NewJob(s.sched, j.id, s.time, j.run, j.priority);
    var m := s.jobs[id := j.(arrived := true)];
    if 0 <= c < |s.sched.cores| && c < |s.clock| then
      var m' := Vacate(m, c);
      Some(s.(jobs := m'[id := m'[id].(core := c)], sched := sched, alive := s.alive + 1,
              clock := if s.sched.scheme == RR then s.clock[c := s.quantum] else s.clock))
    else if c == -1 then
      Some(s.(jobs := m, sched := sched, alive := s.alive + 1))
    else
      None
  }

  /** What the simulator's own view says each core runs; no core may be claimed twice. */
  ghost predicate IsRow(m: Table, n: nat, row: Row)
  {
    && |row| == n
    && (forall id :: id in m && m[id].core != -1 ==> 0 <= m[id].core < n && row[m[id].core] == Some(id))
    && (forall c :: 0 <= c < n && row[c].Some? ==> row[c].value in m && m[row[c].value].core == c)
  }

  function RunUnit(m: Table): Table
  {
    map id | id in m :: if m[id].core != -1 then m[id].(run := m[id].run - 1) else m[id]
  }

  predicate Busy(row: Row)
  {
    exists c :: 0 <= c < |row| && row[c].Some?
  }

  function TickStep(s: State, row: Row): Option<State>
    requires |row| == |s.clock|
  {
    if s.alive > 0 && !Busy(row) then None
    else Some(s.(
      jobs := RunUnit(s.jobs),
      clock := seq(|s.clock|, c requires 0 <= c < |s.clock| => if row[c].Some? then s.clock[c] - 1 else s.clock[c]),
      time := s.time + 1,
      rows := s.rows + [row],
      phase := Finishing))
  }

  ghost predicate Enabled(s: State, e: Event)
  {
    match e
    case Finish(id) => s.phase == Finishing && id in s.jobs && s.jobs[id].run == 0
    case FinishingDone =>
      && s.phase == Finishing && s.jobs != map[]
      && forall id :: id in s.jobs ==> s.jobs[id].run != 0
    case Expire(id) =>
      && s.phase == Expiring && s.sched.scheme == RR && id in s.jobs
      && 0 <= s.jobs[id].core < |s.clock| && s.clock[s.jobs[id].core] == 0
    case ExpiringDone =>
      && s.phase == Expiring
      && (s.sched.scheme == RR ==>
            forall id :: id in s.jobs && 0 <= s.jobs[id].core < |s.clock| ==> s.clock[s.jobs[id].core] != 0)
    case Arrive(id) => s.phase == Arriving && id in s.jobs && !s.jobs[id].arrived && s.jobs[id].arrival == s.time
    case Tick(row) =>
      && s.phase == Arriving
      && (forall id :: id in s.jobs && s.jobs[id].arrival == s.time ==> s.jobs[id].arrived)
      && IsRow(s.jobs, |s.clock|, row)
  }

  ghost function Step(s: State, e: Event): Option<State>
    requires Enabled(s, e)
  {
    match e
    case Finish(id) => FinishStep(s, id)
    case FinishingDone => Some(s.(phase := Expiring))
    case Expire(id) => ExpireStep(s, id)
    case ExpiringDone => Some(s.(phase := Arriving))
    case Arrive(id) => ArriveStep(s, id)
    case Tick(row) => TickStep(s, row)
  }

  // ---------- the first state and the runs ----------

  /** What the reader of the file makes of it: one entry an id, nothing run yet. */
  predicate Loaded(m: Table)
  {
    forall id :: id in m ==> id >= 0 && m[id].id == id && m[id].core == -1 && !m[id].arrived
  }

  /** A job file and options as the source takes them. */
  predicate Given(m: Table, cores: nat, scheme: Scheme, quantum: int)
  {
    Loaded(m) && cores >= 1 && (scheme == RR ==> quantum >= 1)
  }

  /** The same with no job of run time 0, which would kill the run at once. */
  predicate Configured(m: Table, cores: nat, scheme: Scheme, quantum: int)
  {
    Given(m, cores, scheme, quantum) && forall id :: id in m ==> m[id].run != 0
  }

  function Init(m: Table, cores: nat, scheme: Scheme, quantum: int): State
  {
    State(m, m, StartUp(cores, scheme), seq(cores, _ => -1), quantum, 0, 0, [], Finishing)
  }

  /** The states after each of the events, none of which kills the run. */
  ghost predicate IsRun(s: State, events: seq<Event>, t: State)
    decreases |events|
  {
    if events == [] then s == t
    else Enabled(s, events[0]) && Step(s, events[0]).Some? && IsRun(Step(s, events[0]).value, events[1..], t)
  }

  /** The simulation is over when no active job is left. */
  predicate Over(s: State)
  {
    s.jobs == map[]
  }
}
