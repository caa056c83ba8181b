/**
  The moves of single jobs that the events are made of, and that each keeps
  what `Sound` says. A core may stand empty between two moves of one event, so
  work conservation is not part of `Sound`.
 */
module SimulatorMoves {
  import opened Prelude
  import opened Sequences
  import opened PriQueueModel
  import opened SchedulerModel
  import opened SimulatorModel
  import opened SimulatorInvariants

  // ---------- the moves ----------

  /** The completed job `id` leaves its core, the table and the scheduler. */
  function Drop(s: State, id: int): State
    requires id in s.jobs && OnCore(s, id)
  {
    var c := s.jobs[id].core;
    s.(jobs := s.jobs - {id}, alive := s.alive - 1,
       sched := s.sched.(cores := s.sched.cores[c := None],
                         done := Offer(AlwaysAfter(), s.sched.done, Finished(s.sched.cores[c].value, s.time))))
  }

  /** Job `id` leaves its core for the queue, where its record is `j`. */
  function Release(s: State, id: int, j: Job): State
    requires id in s.jobs && OnCore(s, id)
  {
    s.(jobs := s.jobs[id := s.jobs[id].(core := -1)],
       sched := s.sched.(cores := s.sched.cores[s.jobs[id].core := None],
                         queue := Offer(Comparer(s.sched.scheme), s.sched.queue, j)))
  }

  /** The head of the queue, if any, goes to the empty core `c`. */
  function Poll(s: State, c: nat): State
    requires c < |s.sched.cores|
    requires s.sched.queue != [] ==> s.sched.queue[0].number in s.jobs
  {
    var (sched, next) := PollOnto(s.sched, c, s.time);
    if s.sched.queue == [] then s.(sched := sched)
    else s.(sched := sched, jobs := s.jobs[next := s.jobs[next].(core := c)])
  }

  /** The arriving job `id` starts on the empty core `c`. */
  function Place(s: State, id: int, c: nat): State
    requires id in s.jobs && c < |s.sched.cores|
  {
    var j := s.jobs[id];
    s.(jobs := s.jobs[id := j.(arrived := true, core := c)], alive := s.alive + 1,
       sched := s.sched.(count := s.sched.count + 1,
                         cores := s.sched.cores[c := Some(StartNow(Fresh(j.id, s.time, j.run, j.priority), s.time))]))
  }

  /** The arriving job `id` has to wait. */
  function Enqueue(s: State, id: int): State
    requires id in s.jobs
  {
    var j := s.jobs[id];
    s.(jobs := s.jobs[id := j.(arrived := true)], alive := s.alive + 1,
       sched := s.sched.(count := s.sched.count + 1,
                         queue := Offer(Comparer(s.sched.scheme), s.sched.queue,
                                        Fresh(j.id, s.time, j.run, j.priority))))
  }

  /** Every running job is charged up to now. */
  function Settle(s: State): State
  {
    s.(sched := s.sched.(cores := ChargeAll(s.sched.cores, s.time)))
  }

  // ---------- counting ----------

  lemma CountedDrop(s: State, id: int)
    requires Sound(s) && id in s.jobs && OnCore(s, id) && s.jobs[id].arrived
    ensures Counted(Drop(s, id))
  {
    OfferAppends(AlwaysAfter(), s.sched.done, Finished(s.sched.cores[s.jobs[id].core].value, s.time));
    assert Arrived(s.jobs - {id}) == Arrived(s.jobs) - {id};
  }

  lemma CountedSame(s: State, t: State)
    requires Counted(s)
    requires forall id :: id in t.jobs <==> id in s.jobs
    requires forall id :: id in s.jobs ==> t.jobs[id].arrived == s.jobs[id].arrived
    requires |t.sched.cores| == |s.sched.cores| && t.clock == s.clock && t.time == s.time && t.rows == s.rows
    requires t.quantum == s.quantum && t.alive == s.alive && t.sched.scheme == s.sched.scheme
    requires t.sched.count == s.sched.count && |t.sched.done| == |s.sched.done|
    ensures Counted(t)
  {
    forall id ensures id in Arrived(t.jobs) <==> id in Arrived(s.jobs) {
    }
    assert Arrived(t.jobs) == Arrived(s.jobs);
  }

  lemma CountedArrival(s: State, t: State, id: int)
    requires Counted(s) && id in s.jobs && !s.jobs[id].arrived
    requires forall i :: i in t.jobs <==> i in s.jobs
    requires t.jobs[id].arrived
    requires forall i :: i in s.jobs && i != id ==> t.jobs[i].arrived == s.jobs[i].arrived
    requires |t.sched.cores| == |s.sched.cores| && t.clock == s.clock && t.time == s.time && t.rows == s.rows
    requires t.quantum == s.quantum && t.alive == s.alive + 1 && t.sched.scheme == s.sched.scheme
    requires t.sched.count == s.sched.count + 1 && |t.sched.done| == |s.sched.done|
    ensures Counted(t)
  {
    forall i ensures i in Arrived(t.jobs) <==> i in Arrived(s.jobs) || i == id {
    }
    assert Arrived(t.jobs) == Arrived(s.jobs) + {id};
  }

  // ---------- the two views agree ----------

  lemma AgreeDrop(m: Table, cores: seq<Option<Job>>, q: seq<Job>, id: int)
    requires Agree(m, cores, q) && id in m && m[id].core != -1
    ensures Agree(m - {id}, cores[m[id].core := None], q)
  {
  }

  lemma InQueueInsert(q: seq<Job>, r: nat, x: Job)
    requires r <= |q|
    ensures forall id :: InQueue(q, id) || id == x.number <==> InQueue(InsertAt(q, r, x), id)
  {
    var o := InsertAt(q, r, x);
    forall id | InQueue(q, id) || id == x.number ensures InQueue(o, id) {
      if id == x.number {
        assert o[r].number == id;
      } else {
        var k :| 0 <= k < |q| && q[k].number == id;
        assert o[if k < r then k else k + 1] == q[k];
      }
    }
    forall id | InQueue(o, id) ensures InQueue(q, id) || id == x.number {
      var k :| 0 <= k < |o| && o[k].number == id;
      assert o[k] == if k < r then q[k] else if k == r then x else q[k - 1];
    }
  }

  lemma NumbersDistinctInsert(q: seq<Job>, r: nat, x: Job)
    requires r <= |q| && Distinct(q) && !InQueue(q, x.number)
    ensures Distinct(InsertAt(q, r, x))
  {
    var o := InsertAt(q, r, x);
    forall k, l | 0 <= k < l < |o| ensures o[k].number != o[l].number {
      assert o[k] == if k < r then q[k] else if k == r then x else q[k - 1];
      assert o[l] == if l < r then q[l] else if l == r then x else q[l - 1];
    }
  }

  /** An arrived job that the cores do not hold joins the queue. */
  lemma AgreeInsert(m: Table, cores: seq<Option<Job>>, q: seq<Job>, r: nat, x: Job)
    requires x.number in m && Agree(m - {x.number}, cores, q) && r <= |q|
    requires m[x.number].id == x.number >= 0 && m[x.number].arrived && m[x.number].core == -1
    ensures Agree(m, cores, InsertAt(q, r, x))
  {
    var m', o := m - {x.number}, InsertAt(q, r, x);
    assert !InQueue(q, x.number);
    assert forall id :: id in m ==> id == x.number || (id in m' && m'[id] == m[id]);
    InQueueInsert(q, r, x);
    NumbersDistinctInsert(q, r, x);
    forall id | id in m && m[id].arrived && m[id].core == -1 ensures InQueue(o, id) {
      if id != x.number { assert id in m' && m'[id] == m[id]; }
    }
    forall k | 0 <= k < |o|
      ensures o[k].number in m && m[o[k].number].arrived && m[o[k].number].core == -1 {
      assert o[k] == if k < r then q[k] else if k == r then x else q[k - 1];
    }
    forall c | 0 <= c < |cores| && cores[c].Some?
      ensures cores[c].value.number in m && m[cores[c].value.number].core == c {
      assert m'[cores[c].value.number].core == c;
    }
    forall id | id in m && m[id].core != -1
      ensures m[id].arrived && m[id].core < |cores| && cores[m[id].core].Some? && cores[m[id].core].value.number == id {
      assert id in m' && m'[id] == m[id];
    }
  }

  lemma AgreePoll(m: Table, cores: seq<Option<Job>>, q: seq<Job>, c: nat, j: Job)
    requires Agree(m, cores, q) && c < |cores| && cores[c].None? && q != []
    requires j.number == q[0].number
    ensures Agree(m[j.number := m[j.number].(core := c)], cores[c := Some(j)], q[1..])
  {
    var m' := m[j.number := m[j.number].(core := c)];
    forall id | id in m' && m'[id].arrived && m'[id].core == -1 ensures InQueue(q[1..], id) {
      var k :| 0 <= k < |q| && q[k].number == id;
      assert q[1..][k - 1].number == id;
    }
  }

  lemma AgreePlace(m: Table, cores: seq<Option<Job>>, q: seq<Job>, c: nat, j: Job)
    requires Agree(m, cores, q) && c < |cores| && cores[c].None?
    requires j.number in m && !m[j.number].arrived
    ensures Agree(m[j.number := m[j.number].(arrived := true, core := c)], cores[c := Some(j)], q)
  {
  }

  /** Records may change as long as the numbers stay. */
  lemma AgreeSame(m: Table, m': Table, cores: seq<Option<Job>>, cores': seq<Option<Job>>, q: seq<Job>)
    requires Agree(m, cores, q)
    requires forall id :: id in m' <==> id in m
    requires forall id :: id in m ==>
               m'[id].id == m[id].id && m'[id].core == m[id].core && m'[id].arrived == m[id].arrived
    requires |cores'| == |cores|
    requires forall c :: 0 <= c < |cores| ==> cores'[c].Some? == cores[c].Some?
    requires forall c :: 0 <= c < |cores| && cores[c].Some? ==> cores'[c].value.number == cores[c].value.number
    ensures Agree(m', cores', q)
  {
  }

  // ---------- the records ----------

  /** Nothing the records refer to has changed. */
  ghost predicate SameSurroundings(s: State, t: State)
  {
    && t.input == s.input && t.rows == s.rows && t.time == s.time && t.sched.scheme == s.sched.scheme
    && t.quantum == s.quantum && t.phase == s.phase && t.clock == s.clock
    && |t.sched.cores| == |s.sched.cores|
  }

  lemma LoyalMove(s: State, t: State)
    requires SameSurroundings(s, t) && Loyal(s) && s.time >= 0
    requires forall id :: id in t.jobs ==> id in s.jobs
    requires forall id :: id in t.jobs ==>
      && t.jobs[id].arrival == s.jobs[id].arrival && t.jobs[id].priority == s.jobs[id].priority
      && (t.jobs[id].arrived ==> s.jobs[id].arrived || s.jobs[id].arrival == s.time)
      && (!t.jobs[id].arrived ==> t.jobs[id] == s.jobs[id])
    ensures Loyal(t)
  {
    forall id | id in t.jobs ensures id in t.input {
    }
  }

  lemma RecordedDrop(s: State, id: int)
    requires Sound(s) && id in s.jobs && OnCore(s, id)
    requires Agree(Drop(s, id).jobs, Drop(s, id).sched.cores, Drop(s, id).sched.queue)
    ensures Recorded(Drop(s, id))
  {
    var t := Drop(s, id);
    forall c | 0 <= c < |t.sched.cores| && t.sched.cores[c].Some?
      ensures RunningOk(t, t.sched.cores[c].value, t.jobs[t.sched.cores[c].value.number].run) {
      assert s.sched.cores[c] == t.sched.cores[c];
    }
    forall k | 0 <= k < |t.sched.queue|
      ensures WaitingOk(t, t.sched.queue[k], t.jobs[t.sched.queue[k].number].run) {
      assert WaitingOk(s, s.sched.queue[k], s.jobs[s.sched.queue[k].number].run);
    }
  }

  lemma RunningKept(s: State, t: State)
    requires Sound(s) && SameSurroundings(s, t)
    requires Agree(t.jobs, t.sched.cores, t.sched.queue)
    requires forall c :: 0 <= c < |s.sched.cores| && t.sched.cores[c].Some? ==> t.sched.cores[c] == s.sched.cores[c]
    requires forall id :: id in s.jobs ==> id in t.jobs && t.jobs[id].run == s.jobs[id].run
    ensures forall c :: 0 <= c < |t.sched.cores| && t.sched.cores[c].Some? ==>
              RunningOk(t, t.sched.cores[c].value, t.jobs[t.sched.cores[c].value.number].run)
  {
    hide Fair, Reported, Ordered, Counted, Loyal, Units, FirstUnit;
    forall c | 0 <= c < |t.sched.cores| && t.sched.cores[c].Some?
      ensures RunningOk(t, t.sched.cores[c].value, t.jobs[t.sched.cores[c].value.number].run) {
      assert RunningOk(s, s.sched.cores[c].value, s.jobs[s.sched.cores[c].value.number].run);
    }
  }

  lemma RecordedInsert(s: State, t: State, r: nat, x: Job)
    requires Sound(s) && SameSurroundings(s, t) && r <= |s.sched.queue|
    requires Agree(t.jobs, t.sched.cores, t.sched.queue)
    requires t.sched.queue == InsertAt(s.sched.queue, r, x)
    requires forall c :: 0 <= c < |s.sched.cores| && t.sched.cores[c].Some? ==> t.sched.cores[c] == s.sched.cores[c]
    requires forall id :: id in s.jobs <==> id in t.jobs
    requires forall id :: id in s.jobs ==> t.jobs[id].run == s.jobs[id].run
    requires x.number in s.jobs && WaitingOk(s, x, s.jobs[x.number].run)
    ensures Recorded(t)
  {
    RunningKept(s, t);
    InsertedAt(s.sched.queue, r, x);
    hide RunningOk, InsertAt, Fair, Reported, Ordered, Counted, Loyal, Units, FirstUnit;
    var q, o := s.sched.queue, t.sched.queue;
    forall k | 0 <= k < |o| ensures WaitingOk(t, o[k], t.jobs[o[k].number].run) {
      assert o[k] == InsertAt(q, r, x)[k];
      assert WaitingOk(s, o[k], s.jobs[o[k].number].run);
    }
  }

  /** The record of a queued job that goes onto a core. */
  lemma DispatchedOk(s: State, j: Job, run: int)
    requires WaitingOk(s, j, run) && s.time == |s.rows|
    ensures RunningOk(s, Dispatch(j, s.time), run)
  {
  }

  /** The record of a job whose core is taken from it, once it is charged. */
  lemma UnstartedOk(s: State, j: Job, run: int)
    requires RunningOk(s, j, run) && run != 0 && s.time == |s.rows| && j.last == s.time
    ensures WaitingOk(s, Unstart(j, s.time), run)
  {
  }

  /** The record of a job that has just arrived. */
  lemma FreshOk(s: State, id: int)
    requires Loyal(s) && id in s.jobs && !s.jobs[id].arrived && s.jobs[id].arrival == s.time == |s.rows|
    requires s.jobs[id].id == id
    ensures var j := s.jobs[id];
            var x := Fresh(j.id, s.time, j.run, j.priority);
            WaitingOk(s, x, j.run) && RunningOk(s, StartNow(x, s.time), j.run)
            && FirstUnit(s.rows, id) == |s.rows|
  {
    UnitsAndFirst(s.rows, id);
  }

  lemma WaitingKept(s: State, t: State)
    requires Sound(s) && SameSurroundings(s, t)
    requires Agree(t.jobs, t.sched.cores, t.sched.queue)
    requires t.sched.queue == s.sched.queue || (s.sched.queue != [] && t.sched.queue == s.sched.queue[1..])
    requires forall id :: id in s.jobs ==> id in t.jobs && t.jobs[id].run == s.jobs[id].run
    ensures forall k :: 0 <= k < |t.sched.queue| ==>
              WaitingOk(t, t.sched.queue[k], t.jobs[t.sched.queue[k].number].run)
  {
    hide Fair, Reported, Ordered, Counted, Loyal, Units, FirstUnit;
    var q, o := s.sched.queue, t.sched.queue;
    forall k | 0 <= k < |o| ensures WaitingOk(t, o[k], t.jobs[o[k].number].run) {
      var l := if o == q then k else k + 1;
      assert o[k] == q[l];
      assert WaitingOk(s, q[l], s.jobs[q[l].number].run);
    }
  }

  lemma RecordedFill(s: State, t: State, c: nat, j: Job)
    requires Sound(s) && SameSurroundings(s, t) && c < |s.sched.cores|
    requires Agree(t.jobs, t.sched.cores, t.sched.queue)
    requires t.sched.cores == s.sched.cores[c := Some(j)]
    requires t.sched.queue == s.sched.queue || (s.sched.queue != [] && t.sched.queue == s.sched.queue[1..])
    requires forall id :: id in s.jobs <==> id in t.jobs
    requires forall id :: id in s.jobs ==> t.jobs[id].run == s.jobs[id].run
    requires j.number in t.jobs && RunningOk(s, j, t.jobs[j.number].run)
    ensures Recorded(t)
  {
    WaitingKept(s, t);
    hide WaitingOk, Fair, Reported, Ordered, Counted, Loyal, Units, FirstUnit;
    forall d | 0 <= d < |t.sched.cores| && t.sched.cores[d].Some?
      ensures RunningOk(t, t.sched.cores[d].value, t.jobs[t.sched.cores[d].value.number].run) {
      if d != c {
        assert RunningOk(s, s.sched.cores[d].value, s.jobs[s.sched.cores[d].value.number].run);
      }
    }
  }

  // ---------- the completed jobs ----------

  lemma ReportedSame(s: State, t: State)
    requires Reported(s) && t.input == s.input && t.rows == s.rows && t.sched.done == s.sched.done
    requires forall id :: id in s.jobs <==> id in t.jobs
    ensures Reported(t)
  {
  }

  lemma FinishedOk(s: State, id: int)
    requires Sound(s) && id in s.jobs && OnCore(s, id) && s.jobs[id].run == 0
    ensures ReportOk(s.input, s.rows, Finished(s.sched.cores[s.jobs[id].core].value, s.time))
  {
    var j := s.sched.cores[s.jobs[id].core].value;
    assert RunningOk(s, j, s.jobs[j.number].run);
    UnitsAndFirst(s.rows, id);
  }

  lemma DoneNext(d: seq<Report>, r: Report)
    ensures forall i :: InDone(d + [r], i) <==> InDone(d, i) || i == r.job.number
  {
    var e := d + [r];
    forall i ensures InDone(e, i) <==> InDone(d, i) || i == r.job.number {
      if i == r.job.number {
        assert e[|d|].job.number == i;
      } else if InDone(d, i) {
        var k :| 0 <= k < |d| && d[k].job.number == i;
        assert e[k].job.number == i;
      }
    }
  }

  lemma ReportedDrop(s: State, id: int)
    requires Sound(s) && id in s.jobs && OnCore(s, id) && s.jobs[id].run == 0
    ensures Reported(Drop(s, id))
  {
    hide Recorded, Ordered, Compare, Counted, Loyal, Units, FirstUnit, Offer, Sorted, Comparer;
    var t := Drop(s, id);
    var r := Finished(s.sched.cores[s.jobs[id].core].value, s.time);
    OfferAppends(AlwaysAfter(), s.sched.done, r);
    FinishedOk(s, id);
    DoneNext(s.sched.done, r);
    hide Agree, ReportOk, InDone, Fair, Finished;
  }

  // ---------- the order of the queue, and PSJF ----------

  lemma OrderedInsert(d: Sched, time: int, x: Job)
    requires Ordered(d, time)
    requires d.scheme == PSJF ==>
      forall c :: 0 <= c < |d.cores| && d.cores[c].Some? ==> Compare(PSJF, Charged(d.cores[c].value, time), x) <= 0
    ensures Ordered(d.(queue := Offer(Comparer(d.scheme), d.queue, x)), time)
  {
    if d.scheme != RR {
      ComparersAreTotalPreorders(d.scheme);
      OfferIsStableInsertion(Comparer(d.scheme), d.queue, x);
    }
    if d.scheme == PSJF {
      ShortestInsert(d, time, x, OfferIndex(Comparer(d.scheme), d.queue, x));
    }
  }

  lemma ShortestInsert(d: Sched, time: int, x: Job, r: nat)
    requires r <= |d.queue|
    requires forall c, k :: 0 <= c < |d.cores| && d.cores[c].Some? && 0 <= k < |d.queue| ==>
      Compare(PSJF, Charged(d.cores[c].value, time), d.queue[k]) <= 0
    requires forall c :: 0 <= c < |d.cores| && d.cores[c].Some? ==>
               Compare(PSJF, Charged(d.cores[c].value, time), x) <= 0
    ensures var o := InsertAt(d.queue, r, x);
            forall c, k :: 0 <= c < |d.cores| && d.cores[c].Some? && 0 <= k < |o| ==>
              Compare(PSJF, Charged(d.cores[c].value, time), o[k]) <= 0
  {
    var o := InsertAt(d.queue, r, x);
    forall c, k | 0 <= c < |d.cores| && d.cores[c].Some? && 0 <= k < |o|
      ensures Compare(PSJF, Charged(d.cores[c].value, time), o[k]) <= 0 {
      assert o[k] == if k < r then d.queue[k] else if k == r then x else d.queue[k - 1];
    }
  }

  lemma OrderedPoll(d: Sched, c: nat, time: int)
    requires Ordered(d, time) && c < |d.cores|
    ensures Ordered(PollOnto(d, c, time).0, time)
  {
    var e := PollOnto(d, c, time).0;
    if d.queue != [] {
      if d.scheme != RR {
        forall i, j | 0 <= i < j < |e.queue| ensures Comparer(d.scheme)(e.queue[i], e.queue[j]) <= 0 {
          assert Comparer(d.scheme)(d.queue[i + 1], d.queue[j + 1]) <= 0;
        }
      }
      if d.scheme == PSJF {
        forall b, k | 0 <= b < |e.cores| && e.cores[b].Some? && 0 <= k < |e.queue|
          ensures Compare(PSJF, Charged(e.cores[b].value, time), e.queue[k]) <= 0 {
          assert Comparer(PSJF)(d.queue[0], d.queue[k + 1]) <= 0;
          assert b != c ==> e.cores[b] == d.cores[b];
        }
      }
    }
  }

  lemma OrderedFill(d: Sched, c: nat, j: Job, time: int)
    requires Ordered(d, time) && c < |d.cores|
    requires d.scheme == PSJF ==> forall k :: 0 <= k < |d.queue| ==> Compare(PSJF, Charged(j, time), d.queue[k]) <= 0
    ensures Ordered(d.(cores := d.cores[c := Some(j)]), time)
  {
  }

  // ---------- first come, first started ----------

  lemma FairShift(s: State, t: State)
    requires Sound(s) && SameSurroundings(s, t)
    requires forall id :: Present(t, id) ==> Present(s, id)
    requires forall id :: id in t.jobs ==> id in s.jobs && t.jobs[id].arrival == s.jobs[id].arrival
                                           && t.jobs[id].arrived == s.jobs[id].arrived
    requires s.sched.queue != [] && t.sched.queue == s.sched.queue[1..]
    ensures Fair(t)
  {
    hide Recorded, Ordered, Compare, Agree, Counted, Loyal;
    var q, o := s.sched.queue, t.sched.queue;
    if s.sched.scheme == FCFS || s.sched.scheme == RR {
      forall k, b | && 0 <= k < |o| && o[k].first == -1
                    && b in t.jobs && t.jobs[b].arrived && o[k].arrival < t.jobs[b].arrival
        ensures StillBehind(o, k, b) {
        assert q[k + 1] == o[k] && StillBehind(q, k + 1, b);
        var l :| k + 1 < l < |q| && q[l].number == b && q[l].first == -1;
        assert o[l - 1] == q[l];
      }
    }
  }

  lemma FairSame(s: State, t: State)
    requires Sound(s) && SameSurroundings(s, t)
    requires forall id :: Present(t, id) ==> Present(s, id)
    requires forall id :: id in t.jobs ==> id in s.jobs && t.jobs[id].arrival == s.jobs[id].arrival
                                           && t.jobs[id].arrived == s.jobs[id].arrived
    requires t.sched.queue == s.sched.queue
    ensures Fair(t)
  {
  }

  /** A job that has run joins the tail of a round robin queue. */
  lemma FairRequeue(s: State, t: State, x: Job)
    requires Sound(s) && SameSurroundings(s, t)
    requires forall id :: Present(t, id) ==> Present(s, id)
    requires forall id :: id in t.jobs ==> id in s.jobs && t.jobs[id].arrival == s.jobs[id].arrival
                                           && t.jobs[id].arrived == s.jobs[id].arrived
    requires s.sched.scheme != FCFS && s.sched.scheme == RR ==> t.sched.queue == s.sched.queue + [x] && x.first != -1
    requires s.sched.scheme != FCFS
    ensures Fair(t)
  {
    hide Recorded, Agree, Counted, Loyal;
    var q, o := s.sched.queue, t.sched.queue;
    if s.sched.scheme == RR {
      forall k, b | && 0 <= k < |o| && o[k].first == -1
                    && b in t.jobs && t.jobs[b].arrived && o[k].arrival < t.jobs[b].arrival
        ensures StillBehind(o, k, b) {
        assert q[k] == o[k] && StillBehind(q, k, b);
        var l :| k < l < |q| && q[l].number == b && q[l].first == -1;
        assert o[l] == q[l];
      }
    }
  }

  /** Nobody present has arrived later than now. */
  lemma PresentArrivedByNow(s: State, id: int)
    requires Sound(s) && Present(s, id)
    ensures 0 <= s.input[id].arrival <= s.time || id !in s.jobs
    ensures s.input[id].arrival <= s.time
  {
    if id !in s.jobs {
      assert InDone(s.sched.done, id);
      var k :| 0 <= k < |s.sched.done| && s.sched.done[k].job.number == id;
      assert ReportOk(s.input, s.rows, s.sched.done[k]);
    }
  }

  lemma FairArrival(s: State, t: State, id: int, x: Job)
    requires Sound(s) && SameSurroundings(s, t)
    requires id in s.jobs && !s.jobs[id].arrived && s.jobs[id].arrival == s.time
    requires forall i :: Present(t, i) ==> Present(s, i) || i == id
    requires forall i :: i in t.jobs ==> i in s.jobs && t.jobs[i].arrival == s.jobs[i].arrival
                                         && (i != id ==> t.jobs[i].arrived == s.jobs[i].arrived)
    requires x.number == id && x.first == -1 && x.arrival == s.time
    requires s.sched.scheme == FCFS || s.sched.scheme == RR ==>
      t.sched.queue == s.sched.queue == [] || t.sched.queue == s.sched.queue + [x]
    ensures Fair(t)
  {
    hide Recorded, Reported, Agree, Units, FirstUnit, Sorted, Comparer;
    if s.sched.scheme == FCFS || s.sched.scheme == RR {
      UnitsAndFirst(s.rows, id);
      forall a, b | Present(t, a) && Present(t, b) && t.input[a].arrival < t.input[b].arrival
        ensures FirstUnit(t.rows, a) <= FirstUnit(t.rows, b) {
        if b != id { PresentArrivedByNow(s, b); }
      }
      var q, o := s.sched.queue, t.sched.queue;
      forall k, b | && 0 <= k < |o| && o[k].first == -1
                    && b in t.jobs && t.jobs[b].arrived && o[k].arrival < t.jobs[b].arrival
        ensures StillBehind(o, k, b) {
        if b == id {
          assert o[|q|] == x && k < |q|;
        } else {
          PresentArrivedByNow(s, b);
          assert q[k] == o[k] && StillBehind(q, k, b);
          var l :| k < l < |q| && q[l].number == b && q[l].first == -1;
          assert o[l] == q[l];
        }
      }
    }
  }
}
