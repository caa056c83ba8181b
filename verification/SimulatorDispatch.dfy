/** Round robin over whole runs of the simulator: how long a queued job waits for its turn. */
module SimulatorDispatch {
  import opened PriQueueModel
  import opened SchedulerModel
  import opened SimulatorModel
  import opened SimulatorInvariants
  import opened SimulatorTheorems

  /** The events that poll the waiting queue. */
  predicate Polling(e: Event)
  {
    e.Finish? || e.Expire?
  }

  function PollCount(events: seq<Event>): (n: nat)
    ensures n <= |events|
  {
    if events == [] then 0 else (if Polling(events[0]) then 1 else 0) + PollCount(events[1..])
  }

  lemma {:induction false} CountsLast(events: seq<Event>)
    requires events != [] && Polling(events[|events| - 1])
    ensures PollCount(events) >= 1
  {
    if |events| <= 1 {
    } else {
      assert events[1..][|events| - 2] == events[|events| - 1];
      CountsLast(events[1..]);
    }
  }

  // ---------- what one event does to the queue ----------

  lemma FinishPolls(s: State, id: int)
    requires id in s.jobs && FinishStep(s, id).Some? && s.sched.queue != [] && s.sched.queue[0].number != -1
    ensures var t, head := FinishStep(s, id).value, s.sched.queue[0].number;
            t.sched.queue == s.sched.queue[1..] && head in t.jobs && t.jobs[head].core == s.jobs[id].core != -1
  {
  }

  lemma ExpirePolls(s: State, id: int)
    requires id in s.jobs && ExpireStep(s, id).Some? && s.sched.scheme == RR
    requires s.sched.queue != [] && s.sched.queue[0].number != -1
    ensures var t, head := ExpireStep(s, id).value, s.sched.queue[0].number;
            s.sched.queue[1..] <= t.sched.queue && head in t.jobs && t.jobs[head].core == s.jobs[id].core != -1
  {
    OfferAppends(Comparer(RR), s.sched.queue, s.sched.cores[s.jobs[id].core].value);
  }

  lemma ArriveAppends(s: State, id: int)
    requires id in s.jobs && ArriveStep(s, id).Some? && s.sched.scheme == RR
    ensures s.sched.queue <= ArriveStep(s, id).value.sched.queue
  {
    var j := s.jobs[id];
    OfferAppends(Comparer(RR), s.sched.queue, Fresh(j.id, s.time, j.run, j.priority));
  }

  /** A poll takes the head and puts it on a core; whatever comes in goes to the end. */
  lemma QueueMoves(s: State, e: Event)
    requires Enabled(s, e) && Step(s, e).Some? && s.sched.scheme == RR
    requires forall k :: 0 <= k < |s.sched.queue| ==> s.sched.queue[k].number != -1
    ensures var t := Step(s, e).value;
            && (!Polling(e) ==> s.sched.queue <= t.sched.queue)
            && (Polling(e) && s.sched.queue != [] ==>
                  && s.sched.queue[1..] <= t.sched.queue && s.sched.queue[0].number in t.jobs
                  && t.jobs[s.sched.queue[0].number].core != -1)
  {
    hide FinishStep, ExpireStep, ArriveStep;
    match e
    case Finish(id) => if s.sched.queue != [] { FinishPolls(s, id); }
    case Expire(id) => if s.sched.queue != [] { ExpirePolls(s, id); }
    case Arrive(id) => ArriveAppends(s, id);
    case _ =>
  }

  lemma QueuedNumbers(s: State)
    requires Inv(s)
    ensures forall k :: 0 <= k < |s.sched.queue| ==> s.sched.queue[k].number >= 0
  {
    hide Recorded, Reported, Fair, Ordered, Loyal, Counted;
  }

  /** Where the queued job `j` with `p` jobs ahead of it has gone. */
  predicate Moved(j: Job, polled: bool, p: nat, u: State)
  {
    && (!polled ==> p < |u.sched.queue| && u.sched.queue[p] == j)
    && (polled && p > 0 ==> p - 1 < |u.sched.queue| && u.sched.queue[p - 1] == j)
    && (polled && p == 0 ==> j.number in u.jobs && u.jobs[j.number].core != -1)
  }

  lemma PlaceMoves(s: State, e: Event, p: nat)
    requires Inv(s) && Enabled(s, e) && Step(s, e).Some? && s.sched.scheme == RR && p < |s.sched.queue|
    ensures Moved(s.sched.queue[p], Polling(e), p, Step(s, e).value)
  {
    QueuedNumbers(s);
    QueueMoves(s, e);
    hide Inv, Enabled, Step;
    var q, r := s.sched.queue, Step(s, e).value.sched.queue;
    if Polling(e) && p > 0 {
      assert q[1..][p - 1] == q[p];
    }
  }

  // ---------- over a run ----------

  ghost predicate EndsWithPoll(events: seq<Event>)
  {
    events != [] && Polling(events[|events| - 1])
  }

  /** Job `id`, with `p` jobs ahead of it, after `n` polls: still queued, or just put on a core by the last of them. */
  ghost predicate InLine(t: State, id: int, p: nat, n: nat, polled: bool)
  {
    && (n <= p ==> p - n < |t.sched.queue| && t.sched.queue[p - n].number == id)
    && (n == p + 1 && polled ==> id in t.jobs && t.jobs[id].core != -1)
  }

  lemma MovesUp(t: State, id: int, p: nat, events: seq<Event>)
    requires events != [] && Polling(events[0]) && p > 0
    requires InLine(t, id, p - 1, PollCount(events[1..]), EndsWithPoll(events[1..]))
    ensures InLine(t, id, p, PollCount(events), EndsWithPoll(events))
  {
    LastOf(events);
    if |events| == 1 { assert PollCount(events[1..]) == 0; }
  }

  lemma FirstIsServed(s: State, events: seq<Event>, t: State, j: Job)
    requires events != [] && Polling(events[0]) && Moved(j, true, 0, s)
    requires events[1..] == [] ==> t == s
    ensures InLine(t, j.number, 0, PollCount(events), EndsWithPoll(events))
  {
    LastOf(events);
    if |events| > 1 && EndsWithPoll(events) { CountsLast(events[1..]); }
  }

  lemma NothingYet(s: State, t: State, p: nat)
    requires IsRun(s, [], t) && p < |s.sched.queue|
    ensures InLine(t, s.sched.queue[p].number, p, PollCount([]), EndsWithPoll([]))
  {
    RunStarts(s, [], t);
  }

  lemma NotYet(j: Job, events: seq<Event>, p: nat, u: State)
    requires events != [] && !Polling(events[0]) && Moved(j, false, p, u)
    ensures p < |u.sched.queue| && u.sched.queue[p] == j
    ensures PollCount(events) == PollCount(events[1..]) && EndsWithPoll(events) == EndsWithPoll(events[1..])
  {
    LastOf(events);
  }

  lemma OneLess(j: Job, p: nat, u: State)
    requires Moved(j, true, p, u) && p > 0
    ensures p - 1 < |u.sched.queue| && u.sched.queue[p - 1] == j
  {
  }

  /** One event of a run: the place it leaves the job in, and the rest of the run from there. */
  lemma OneEvent(s: State, events: seq<Event>, t: State, p: nat) returns (u: State)
    requires Inv(s) && IsRun(s, events, t) && events != [] && s.sched.scheme == RR && p < |s.sched.queue|
    ensures Inv(u) && IsRun(u, events[1..], t) && u.sched.scheme == RR && (events[1..] == [] ==> t == u)
    ensures Moved(s.sched.queue[p], Polling(events[0]), p, u)
  {
    RunStarts(s, events, t);
    hide Inv, Enabled, Step, IsRun;
    EveryEventGoesThrough(s, events[0]);
    StepConstants(s, events[0]);
    PlaceMoves(s, events[0], p);
    u := Step(s, events[0]).value;
    RunStarts(u, events[1..], t);
  }

  /**
    Round robin waits its turn: a job with `p` jobs ahead of it in the queue is
    still queued, with one job fewer ahead for every poll, until the (p+1)-th
    completion or expiry that follows puts it on a core.
   */
  lemma {:induction false} TurnComes(s: State, events: seq<Event>, t: State, p: nat)
    requires Inv(s) && IsRun(s, events, t) && s.sched.scheme == RR && p < |s.sched.queue|
    ensures InLine(t, s.sched.queue[p].number, p, PollCount(events), EndsWithPoll(events))
    decreases |events|
  {
    hide Inv, Enabled, Step, IsRun, Moved, InLine, EndsWithPoll, PollCount;
    if events == [] {
      NothingYet(s, t, p);
    } else {
      var u := OneEvent(s, events, t, p);
      if !Polling(events[0]) {
        NotYet(s.sched.queue[p], events, p, u);
        TurnComes(u, events[1..], t, p);
      } else if p > 0 {
        OneLess(s.sched.queue[p], p, u);
        TurnComes(u, events[1..], t, p - 1);
        MovesUp(t, s.sched.queue[p].number, p, events);
      } else {
        FirstIsServed(u, events, t, s.sched.queue[p]);
      }
    }
  }

  lemma RunStarts(s: State, events: seq<Event>, t: State)
    requires IsRun(s, events, t)
    ensures events == [] ==> s == t
    ensures events != [] ==>
              Enabled(s, events[0]) && Step(s, events[0]).Some? && IsRun(Step(s, events[0]).value, events[1..], t)
  {
  }

  lemma LastOf(events: seq<Event>)
    requires |events| >= 1
    ensures |events| > 1 ==> events[1..] != [] && events[1..][|events| - 2] == events[|events| - 1]
    ensures |events| == 1 ==> events[1..] == []
  {
  }

  lemma RoundRobinWaitsItsTurn(m: Table, cores: nat, quantum: int, before: seq<Event>, s: State,
                               events: seq<Event>, t: State, p: nat)
    requires Reached(m, cores, RR, quantum, before, s) && IsRun(s, events, t) && p < |s.sched.queue|
    ensures var n, id := PollCount(events), s.sched.queue[p].number;
            && (n <= p ==> id in t.jobs && t.jobs[id].core == -1)
            && (n == p + 1 && EndsWithPoll(events) ==> id in t.jobs && t.jobs[id].core != -1)
  {
    ReachedInv(m, cores, RR, quantum, before, s);
    InitHolds(m, cores, RR, quantum);
    RunConstants(Init(m, cores, RR, quantum), before, s);
    TurnComes(s, events, t, p);
    RunKeeps(s, events, t);
  }
}
