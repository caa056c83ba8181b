/**
  The reusable barrier of Lab/Broken_Barriers as interleaved steps: every thread
  does one thing at a time, the scheduler picks which. The mutex and the condition
  variable are as POSIX has them, spurious wake-ups included.
 */
module BarrierModel {
  import opened Prelude

  const UINT_RANGE: nat := 0x1_0000_0000

  /** What a thread does next. */
  datatype Pc =
    | Idle              // not in the barrier; may call barrier_wait
    | Locking           // pthread_mutex_lock
    | Read              // new_n_threads = times_used
    | Increment         // ++count
    | Test              // count == n_threads?
    | Bump              // ++times_used
    | Reset             // count = 0
    | Broadcast         // pthread_cond_broadcast
    | Check             // times_used == new_n_threads?
    | Sleeping          // in pthread_cond_wait, the mutex given up
    | Waking            // in pthread_cond_wait, taking the mutex back
    | Unlocking         // pthread_mutex_unlock

  /** `arrived` and `returned` count the thread's increments and its returns. */
  datatype Thread = Thread(pc: Pc, saved: nat, arrived: nat, returned: nat)

  /** `generation` is what `timesUsed` would be if an unsigned did not wrap. */
  datatype State = State(nThreads: nat, count: nat, timesUsed: nat, owner: Option<nat>,
                         threads: seq<Thread>, generation: nat)

  /** `barrier_init`, and its threads. */
  function Init(n: nat): State
  {
    State(n, 0, 0, None, seq(n, _ => Thread(Idle, 0, 0, 0)), 0)
  }

  datatype Event = Act(thread: nat) | Spurious(thread: nat)

  function Goto(s: State, i: nat, pc: Pc): State
    requires i < |s.threads|
  {
    s.(threads := s.threads[i := s.threads[i].(pc := pc)])
  }

  function Woken(t: Thread): Thread
  {
    if t.pc == Sleeping then t.(pc := Waking) else t
  }

  function AllWoken(ts: seq<Thread>): seq<Thread>
  {
    seq(|ts|, k requires 0 <= k < |ts| => Woken(ts[k]))
  }

  /** The next thing thread `i` does; None when it has to wait. */
  function Next(s: State, i: nat): Option<State>
    requires i < |s.threads|
  {
    var t := s.threads[i];
    match t.pc
    case Idle => Some(Goto(s, i, Locking))
    case Locking => if s.owner == None then Some(Goto(s, i, Read).(owner := Some(i))) else None
    case Read => Some(s.(threads := s.threads[i := t.(pc := Increment, saved := s.timesUsed)]))
    case Increment =>
      Some(s.(count := (s.count + 1) % UINT_RANGE,
              threads := s.threads[i := t.(pc := Test, arrived := t.arrived + 1)]))
    case Test => Some(Goto(s, i, if s.count == s.nThreads then Bump else Check))
    case Bump =>
      Some(Goto(s, i, Reset).(timesUsed := (s.timesUsed + 1) % UINT_RANGE, generation := s.generation + 1))
    case Reset => Some(Goto(s, i, Broadcast).(count := 0))
    case Broadcast => Some(s.(threads := AllWoken(s.threads)[i := t.(pc := Unlocking)]))
    case Check =>
      if s.timesUsed == t.saved then Some(Goto(s, i, Sleeping).(owner := None))
      else Some(Goto(s, i, Unlocking))
    case Sleeping => None
    case Waking => if s.owner == None then Some(Goto(s, i, Check).(owner := Some(i))) else None
    case Unlocking =>
      Some(s.(owner := None, threads := s.threads[i := t.(pc := Idle, returned := t.returned + 1)]))
  }

  function Step(s: State, e: Event): Option<State>
  {
    if e.thread >= |s.threads| then None
    else if e.Act? then Next(s, e.thread)
    else if s.threads[e.thread].pc == Sleeping then Some(Goto(s, e.thread, Waking))
    else None
  }

  // ---------- what every step keeps ----------

  ghost predicate HoldsMutex(pc: Pc)
  {
    pc in {Read, Increment, Test, Bump, Reset, Broadcast, Check, Unlocking}
  }

  /** Whether a thread is past its increment and has not returned yet. */
  ghost predicate Inside(pc: Pc)
  {
    pc !in {Idle, Locking, Read, Increment}
  }

  /** What is true of a thread in generation `g`. */
  ghost predicate Sound(t: Thread, g: nat)
  {
    && (t.arrived == g || (t.arrived == g + 1 && t.pc in {Test, Bump, Check, Sleeping, Waking}))
    && (t.pc in {Test, Bump} ==> t.arrived == g + 1)
    && t.arrived == t.returned + (if Inside(t.pc) then 1 else 0)
    && (t.pc == Increment ==> t.saved == t.arrived % UINT_RANGE)
    && (t.pc in {Test, Check, Sleeping, Waking} ==> t.saved == (t.arrived - 1) % UINT_RANGE)
  }

  /** The threads counted in generation `g`. */
  ghost function Counted(ts: seq<Thread>, g: nat): set<nat>
  {
    set i | 0 <= i < |ts| && ts[i].arrived == g + 1
  }

  ghost predicate At(s: State, pcs: set<Pc>)
  {
    s.owner.Some? && s.owner.value < |s.threads| && s.threads[s.owner.value].pc in pcs
  }

  ghost predicate Inv(s: State)
  {
    && |s.threads| == s.nThreads < UINT_RANGE
    && s.timesUsed == s.generation % UINT_RANGE
    && (forall i :: 0 <= i < |s.threads| ==> (HoldsMutex(s.threads[i].pc) <==> s.owner == Some(i)))
    && (s.owner.Some? ==> s.owner.value < |s.threads|)
    && (forall i :: 0 <= i < |s.threads| ==> Sound(s.threads[i], s.generation))
    && s.count == (if At(s, {Reset}) then s.nThreads else |Counted(s.threads, s.generation)|)
    && (At(s, {Bump}) ==> s.count == s.nThreads)
    && (At(s, {Reset, Broadcast}) ==> Counted(s.threads, s.generation) == {})
    && (s.nThreads > 0 && s.count == s.nThreads ==> At(s, {Test, Bump, Reset}))
    && (forall i :: 0 <= i < |s.threads| && s.threads[i].pc == Sleeping && s.threads[i].arrived == s.generation ==>
          At(s, {Reset, Broadcast}))
  }
}
