/**
  The scheduler library of libscheduler.c: job records shared by pointer
  between the cores, the waiting queue and the completed list. Each entry point
  does to the value of the state what the function of the same name in
  SchedulerModel says. That the keys in the queue are mutable does no harm
  because no record is reachable from two places.
 */
module SchedulerClass {
  import opened Prelude
  import opened Sequences
  import opened PriQueueModel
  import opened SchedulerModel
  import opened PriQueueClass

  /** The cores when the first `i` of them have been charged. */
  ghost function ChargedTo(cores: seq<Option<Job>>, i: nat, time: int): (r: seq<Option<Job>>)
    ensures |r| == |cores|
  {
    seq(|cores|, c requires 0 <= c < |cores| => if c < i then Charge(cores[c], time) else cores[c])
  }

  lemma ChargeNext(cores: seq<Option<Job>>, i: nat, time: int)
    requires i < |cores|
    ensures ChargedTo(cores, i, time)[i] == cores[i]
    ensures ChargedTo(cores, i, time)[i := Charge(cores[i], time)] == ChargedTo(cores, i + 1, time)
  {
  }

  lemma ChargeEnds(cores: seq<Option<Job>>, time: int)
    ensures ChargedTo(cores, 0, time) == cores && ChargedTo(cores, |cores|, time) == ChargeAll(cores, time)
  {
  }

  function JobsOf(done: seq<Report>): seq<Job>
  {
    seq(|done|, k requires 0 <= k < |done| => done[k].job)
  }

  function Mean(sum: int, n: nat): real
    requires n > 0
  {
    sum as real / n as real
  }

  ghost predicate IsMean(x: real, sum: int, n: nat)
  {
    n > 0 && x * (n as real) == sum as real
  }

  lemma MeanIs(sum: int, n: nat)
    requires n > 0
    ensures IsMean(Mean(sum, n), sum, n)
  {
  }

  class Scheduler {
    const scheme: Scheme
    const cores: array<JobCell?>
    const pqueue: PriQueue
    const completedjobs: PriQueue
    var jobCount: nat
    ghost var Repr: set<object>
    ghost var model: Sched

    // ---------- what is where ----------

    /** The records on the cores read `vs`. */
    ghost predicate CoresShow(vs: seq<Option<Job>>)
      reads cores, cores[..]
    {
      && |vs| == cores.Length
      && forall c :: 0 <= c < cores.Length ==>
           && vs[c] == (if cores[c] == null then None else Some(cores[c].View()))
           && (cores[c] != null ==> cores[c].place == Core(c))
    }

    /** The waiting records are different, and read `vs`. */
    ghost predicate QueueShows(vs: seq<Job>)
      reads pqueue, pqueue.spine, pqueue.contents
    {
      && pqueue.Valid() && pqueue.order == scheme && Shows(pqueue.contents, vs)
      && (forall k :: 0 <= k < |pqueue.contents| ==> pqueue.contents[k].place == Waiting)
      && (forall k, l :: 0 <= k < l < |pqueue.contents| ==> pqueue.contents[k] != pqueue.contents[l])
    }

    /** The completed records read `rs`. */
    ghost predicate DoneShows(rs: seq<Report>)
      reads completedjobs, completedjobs.spine, completedjobs.contents
    {
      && completedjobs.Valid() && completedjobs.order == RR && |rs| == |completedjobs.contents|
      && (forall k :: 0 <= k < |completedjobs.contents| ==>
            rs[k] == completedjobs.contents[k].ReportView() && completedjobs.contents[k].place == Completed)
    }

    ghost predicate OwnsCores(own: set<object>)
      reads cores
    {
      cores in own && forall c :: 0 <= c < cores.Length && cores[c] != null ==> cores[c] in own
    }

    static ghost predicate OwnsQueue(q: PriQueue, own: set<object>)
      reads q
    {
      && q in own && (forall i :: 0 <= i < |q.spine| ==> q.spine[i] in own)
      && (forall k :: 0 <= k < |q.contents| ==> q.contents[k] in own)
    }

    /** All that the scheduler reaches is its own. */
    ghost predicate Owns(own: set<object>)
      reads cores, pqueue, completedjobs
    {
      && {this, cores, pqueue, completedjobs} <= own && pqueue != completedjobs
      && OwnsCores(own) && OwnsQueue(pqueue, own) && OwnsQueue(completedjobs, own)
    }

    /** The records read what `model` says; each is reached from the one place it knows of. */
    ghost predicate Valid()
      reads this, Repr
    {
      && {this, cores, pqueue, completedjobs} <= Repr && Owns(Repr) && model.scheme == scheme && model.count == jobCount
      && CoresShow(model.cores) && QueueShows(model.queue) && DoneShows(model.done)
    }

    lemma NotOnCore(j: JobCell, vs: seq<Option<Job>>)
      requires CoresShow(vs) && !j.place.Core?
      ensures j !in cores[..]
    {
    }

    lemma NotQueued(j: JobCell, vs: seq<Job>)
      requires QueueShows(vs) && j.place != Waiting
      ensures j !in pqueue.contents
    {
    }

    lemma NotDone(j: JobCell, rs: seq<Report>)
      requires DoneShows(rs) && j.place != Completed
      ensures j !in completedjobs.contents
    {
    }

    lemma QueueFacts(vs: seq<Job>)
      requires QueueShows(vs)
      ensures pqueue.Valid() && pqueue.order == scheme
      ensures Shows(pqueue.contents, vs) && |pqueue.spine| == |pqueue.contents|
      ensures forall k :: 0 <= k < |pqueue.contents| ==> pqueue.contents[k].place == Waiting
      ensures forall k, l :: 0 <= k < l < |pqueue.contents| ==> pqueue.contents[k] != pqueue.contents[l]
    {
    }

    lemma DoneFacts(rs: seq<Report>)
      requires DoneShows(rs)
      ensures completedjobs.Valid() && completedjobs.order == RR && |rs| == |completedjobs.contents|
      ensures Shows(completedjobs.contents, JobsOf(rs))
      ensures forall k :: 0 <= k < |completedjobs.contents| ==>
                rs[k] == completedjobs.contents[k].ReportView() && completedjobs.contents[k].place == Completed
    {
      hide PriQueue.Valid;
    }

    static lemma OwnsFacts(q: PriQueue, own: set<object>)
      requires OwnsQueue(q, own)
      ensures q in own && (forall i :: 0 <= i < |q.spine| ==> q.spine[i] in own)
      ensures forall k :: 0 <= k < |q.contents| ==> q.contents[k] in own
    {
    }

    /** The queues have no entry in common. */
    lemma EntriesApart(vs: seq<Job>, rs: seq<Report>)
      requires QueueShows(vs) && DoneShows(rs) && pqueue != completedjobs
      ensures forall i :: 0 <= i < |pqueue.spine| ==> pqueue.spine[i] !in completedjobs.spine
    {
      assert forall i :: 0 <= i < |pqueue.spine| ==> pqueue.spine[i].owner == pqueue;
      assert forall i :: 0 <= i < |completedjobs.spine| ==> completedjobs.spine[i].owner == completedjobs;
    }

    /** `scheduler_start_up` */
    constructor (numcores: nat, scheme: Scheme)
      ensures Valid() && fresh(Repr)
      ensures model == StartUp(numcores, scheme)
    {
      this.scheme := scheme;
      cores := new JobCell?[numcores](_ => null);
      pqueue := new PriQueue(scheme);
      completedjobs := new PriQueue(RR);
      jobCount := 0;
      model := StartUp(numcores, scheme);
      Repr := {this, cores, pqueue, completedjobs};
      new;
      hide CoresShow, QueueShows, DoneShows, OwnsCores, OwnsQueue, PriQueue.Valid;
      ValidAtFirst();
    }

    lemma ValidAtFirst()
      requires Repr == {this, cores, pqueue, completedjobs} && pqueue != completedjobs
      requires pqueue.Valid() && pqueue.order == scheme && pqueue.contents == [] && pqueue.spine == []
      requires completedjobs.Valid() && completedjobs.order == RR && completedjobs.contents == []
      requires completedjobs.spine == []
      requires forall c :: 0 <= c < cores.Length ==> cores[c] == null
      requires model == StartUp(cores.Length, scheme) && jobCount == 0
      ensures Valid()
    {
      hide CoresShow, QueueShows, DoneShows, OwnsCores, OwnsQueue, PriQueue.Valid;
      NoQueue();
      NoDone();
      NobodyRuns();
      OwnsNothing(Repr);
    }

    lemma NoQueue()
      requires pqueue.Valid() && pqueue.order == scheme && pqueue.contents == []
      ensures QueueShows([])
    {
      hide PriQueue.Valid;
    }

    lemma NoDone()
      requires completedjobs.Valid() && completedjobs.order == RR && completedjobs.contents == []
      ensures DoneShows([])
    {
      hide PriQueue.Valid;
    }

    lemma NobodyRuns()
      requires forall c :: 0 <= c < cores.Length ==> cores[c] == null
      ensures CoresShow(seq(cores.Length, _ => None))
    {
    }

    lemma OwnsNothing(own: set<object>)
      requires {this, cores, pqueue, completedjobs} <= own && pqueue != completedjobs
      requires forall c :: 0 <= c < cores.Length ==> cores[c] == null
      requires pqueue.spine == [] == completedjobs.spine && pqueue.contents == [] == completedjobs.contents
      ensures Owns(own)
    {
    }

    // ---------- scheduler_new_job ----------

    /** The body of the loop of lines 121-126. */
    method ChargeCore(i: nat, time: int)
      requires Valid() && i < cores.Length
      modifies this`model, if cores[i] == null then {} else {cores[i]}
      ensures Valid()
      ensures model == old(model).(cores := old(model).cores[i := Charge(old(model).cores[i], time)])
    {
      hide QueueShows, DoneShows, PriQueue.Valid;
      if cores[i] != null {
        NotQueued(cores[i], model.queue);
        NotDone(cores[i], model.done);
        cores[i].Charge(time);
      }
      model := model.(cores := model.cores[i := Charge(model.cores[i], time)]);
    }

    /** The loop of lines 121-126. */
    method ChargeCores(time: int)
      requires Valid()
      modifies Repr
      ensures Valid() && Repr == old(Repr)
      ensures model == old(model).(cores := ChargeAll(old(model).cores, time))
    {
      hide CoresShow, QueueShows, DoneShows, OwnsQueue, PriQueue.Valid, ChargedTo;
      ghost var was := model;
      CoresMatch();
      ChargeEnds(was.cores, time);
      for i := 0 to cores.Length
        invariant Valid() && Repr == old(Repr)
        invariant model == was.(cores := ChargedTo(was.cores, i, time))
      {
        ChargeNext(was.cores, i, time);
        ChargeCore(i, time);
      }
    }

    /** The loop of lines 128-135. */
    method FindIdle() returns (i: nat)
      requires Valid()
      ensures i == FirstIdle(model.cores, 0)
    {
      i := 0;
      while i < cores.Length && cores[i] != null
        invariant 0 <= i <= cores.Length
        invariant FirstIdle(model.cores, 0) == FirstIdle(model.cores, i)
      {
        i := i + 1;
      }
    }

    function Cmp(a: JobCell, b: JobCell): int
      reads a, b
    {
      Compare(scheme, a.View(), b.View())
    }

    /** The loop of lines 143-152. */
    method FindWorst(x: JobCell) returns (w: int)
      requires Valid() && forall c :: 0 <= c < cores.Length ==> cores[c] != null
      ensures w == WorstCore(scheme, Running(model.cores), x.View(), 0, -1)
    {
      hide QueueShows, DoneShows, OwnsCores, OwnsQueue, PriQueue.Valid, Compare;
      ghost var running := Running(model.cores);
      w := -1;
      var worst: JobCell? := null;
      for i := 0 to cores.Length
        invariant -1 <= w < i && (worst == null <==> w == -1)
        invariant w != -1 ==> worst == cores[w]
        invariant WorstCore(scheme, running, x.View(), 0, -1) == WorstCore(scheme, running, x.View(), i, w)
      {
        assert running[i] == cores[i].View();
        if worst != null && Cmp(worst, cores[i]) < 0 {
          worst, w := cores[i], i;
        }
        if worst == null && Cmp(x, cores[i]) < 0 {
          worst, w := cores[i], i;
        }
      }
    }

    /** `priqueue_offer` on the waiting queue. */
    method Enqueue(x: JobCell)
      requires Valid() && x.place == Nowhere
      modifies this`Repr, this`model, pqueue, pqueue.spine, x`place
      ensures Valid() && old(Repr) + {x} <= Repr && fresh(Repr - old(Repr) - {x}) && x.place == Waiting
      ensures model == old(model).(queue := Offer(Comparer(scheme), old(model).queue, old(x.View())))
    {
      hide CoresShow, QueueShows, DoneShows, OwnsCores, OwnsQueue, PriQueue.Valid;
      ghost var r, node := Join(x);
      Repr := Repr + {x, node};
      model := model.(queue := InsertAt(model.queue, r, x.View()));
    }

    /** The record joins the queue; what the ghost fields say follows. */
    method Join(x: JobCell) returns (ghost r: nat, ghost node: Entry)
      requires Valid() && x.place == Nowhere
      modifies pqueue, pqueue.spine, x`place
      ensures fresh(node) && x.place == Waiting && x.View() == old(x.View()) && Owns(Repr + {x, node})
      ensures r == OfferIndex(Comparer(scheme), model.queue, x.View())
      ensures CoresShow(model.cores) && QueueShows(InsertAt(model.queue, r, x.View())) && DoneShows(model.done)
    {
      hide Shows, Compare, Comparer, CoresShow, QueueShows, DoneShows, OwnsCores, OwnsQueue, PriQueue.Valid,
           OfferIndex, InsertAt;
      ghost var was := pqueue.contents;
      QueueFacts(model.queue);
      OwnsFacts(pqueue, Repr);
      NotOnCore(x, model.cores);
      NotQueued(x, model.queue);
      NotDone(x, model.done);
      EntriesApart(model.queue, model.done);
      r := pqueue.Offer(x, model.queue);
      node := pqueue.spine[r];
      x.place := Waiting;
      QueuedNow(was, model.queue, r, x);
      OwnsMore(pqueue, old(pqueue.spine), was, r, x, Repr);
      OwnsGrows(Repr, {x, node});
    }

    static lemma OwnsMore(q: PriQueue, s: seq<Entry>, c: seq<JobCell>, r: nat, x: JobCell, own: set<object>)
      requires q in own && r <= |s| == |c| && r < |q.spine| && q.spine == InsertAt(s, r, q.spine[r])
      requires q.contents == InsertAt(c, r, x)
      requires forall i :: 0 <= i < |s| ==> s[i] in own && c[i] in own
      ensures OwnsQueue(q, own + {x, q.spine[r]})
    {
      hide InsertAt;
      InsertedAt(s, r, q.spine[r]);
      InsertedAt(c, r, x);
    }

    lemma OwnsGrows(own: set<object>, more: set<object>)
      ensures OwnsCores(own) ==> OwnsCores(own + more)
      ensures OwnsQueue(pqueue, own) ==> OwnsQueue(pqueue, own + more)
      ensures OwnsQueue(completedjobs, own) ==> OwnsQueue(completedjobs, own + more)
    {
    }

    lemma QueuedNow(was: seq<JobCell>, vs: seq<Job>, r: nat, x: JobCell)
      requires r <= |was| && pqueue.contents == InsertAt(was, r, x) && Shows(was, vs) && x !in was && x.place == Waiting
      requires pqueue.Valid() && pqueue.order == scheme
      requires forall k :: 0 <= k < |was| ==> was[k].place == Waiting
      requires forall k, l :: 0 <= k < l < |was| ==> was[k] != was[l]
      ensures QueueShows(InsertAt(vs, r, x.View()))
    {
      hide InsertAt, PriQueue.Valid;
      InsertedAt(was, r, x);
      InsertedAt(vs, r, x.View());
      DistinctInsert(was, r, x);
    }

    /** Core `c` lets go of its job. */
    method TakeOff(c: nat) returns (j: JobCell)
      requires Valid() && c < cores.Length && cores[c] != null
      modifies this`model, cores, cores[c]
      ensures Valid() && j == old(cores[c]) && j.place == Nowhere && j in Repr
      ensures Some(j.View()) == old(model.cores[c])
      ensures model == old(model).(cores := old(model).cores[c := None])
      ensures cores[c] == null
    {
      hide QueueShows, DoneShows, PriQueue.Valid;
      j := cores[c];
      NotQueued(j, model.queue);
      NotDone(j, model.done);
      cores[c] := null;
      j.place := Nowhere;
      model := model.(cores := model.cores[c := None]);
    }

    /** The empty core `c` gets job `j`. */
    method PutOn(c: nat, j: JobCell)
      requires Valid() && c < cores.Length && cores[c] == null && j.place == Nowhere
      modifies this`Repr, this`model, cores, j`place
      ensures Valid() && Repr == old(Repr) + {j}
      ensures model == old(model).(cores := old(model).cores[c := Some(old(j.View()))])
    {
      hide QueueShows, DoneShows, PriQueue.Valid;
      NotOnCore(j, model.cores);
      NotQueued(j, model.queue);
      NotDone(j, model.done);
      cores[c] := j;
      j.place := Core(c);
      Repr := Repr + {j};
      model := model.(cores := model.cores[c := Some(j.View())]);
    }

    /** A running job forgets that it was started just now: lines 155-156. */
    method Unstart(j: JobCell, time: int)
      requires Valid() && j.place == Nowhere
      modifies j`firstRuntime, j`lastRuntime
      ensures Valid() && j.View() == SchedulerModel.Unstart(old(j.View()), time)
    {
      hide CoresShow, QueueShows, DoneShows, PriQueue.Valid;
      NotOnCore(j, model.cores);
      NotQueued(j, model.queue);
      NotDone(j, model.done);
      if j.firstRuntime == time { j.firstRuntime := -1; }
      if j.lastRuntime == time { j.lastRuntime := -1; }
    }

    /** The newcomer's record, not yet anywhere; the running jobs are charged. */
    method Register(number: int, time: int, running: int, priority: int) returns (x: JobCell)
      requires Valid()
      modifies Repr
      ensures Valid() && Repr == old(Repr) && fresh(x) && x.place == Nowhere
      ensures x.View() == Fresh(number, time, running, priority)
      ensures model == old(model).(cores := ChargeAll(old(model).cores, time), count := old(model).count + 1)
    {
      hide CoresShow, QueueShows, DoneShows, PriQueue.Valid;
      x := new JobCell(Fresh(number, time, running, priority));
      jobCount := jobCount + 1;
      model := model.(count := model.count + 1);
      ChargeCores(time);
    }

    /** The newcomer starts on core `c`, empty by now. */
    method StartOn(c: nat, x: JobCell, time: int)
      requires Valid() && c < cores.Length && cores[c] == null && x.place == Nowhere
      modifies this`Repr, this`model, cores, x
      ensures Valid() && Repr == old(Repr) + {x}
      ensures model == old(model).(cores := old(model).cores[c := Some(StartNow(old(x.View()), time))])
    {
      hide CoresShow, QueueShows, DoneShows, PriQueue.Valid;
      NotOnCore(x, model.cores);
      NotQueued(x, model.queue);
      NotDone(x, model.done);
      x.firstRuntime, x.lastRuntime := time, time;
      PutOn(c, x);
    }

    /** The job of core `w` makes room for the newcomer: lines 155-162. */
    method Preempt(w: nat, x: JobCell, time: int)
      requires Valid() && w < cores.Length && cores[w] != null && x.place == Nowhere
      modifies Repr, x
      ensures Valid() && old(Repr) + {x} <= Repr && fresh(Repr - old(Repr) - {x})
      ensures var j := SchedulerModel.Unstart(old(model).cores[w].value, time);
              model == old(model).(cores := old(model).cores[w := Some(StartNow(old(x.View()), time))],
                                   queue := Offer(Comparer(scheme), old(model).queue, j))
    {
      hide CoresShow, QueueShows, DoneShows, PriQueue.Valid, Offer;
      CoresMatch();
      NotOnCore(x, model.cores);
      ghost var was := model;
      var worst := TakeOff(w);
      Unstart(worst, time);
      StartOn(w, x, time);
      Enqueue(worst);
      OverwriteTwice(was.cores, w, model.cores[w]);
    }

    /** Finds the newcomer a core, or a place in the queue: lines 128-171. */
    method Admit(x: JobCell, time: int) returns (core: int)
      requires Valid() && x.place == Nowhere
      modifies Repr, x
      ensures Valid() && old(Repr) + {x} <= Repr && fresh(Repr - old(Repr) - {x})
      ensures (model, core) == SchedulerModel.Admit(old(model), old(x.View()), time)
    {
      hide CoresShow, QueueShows, DoneShows, PriQueue.Valid, Offer, FirstIdle;
      CoresMatch();
      core := FindIdle();
      if core < cores.Length {
        StartOn(core, x, time);
        return;
      }
      core := -1;
      if scheme == PSJF {
        core := FindWorst(x);
      }
      if core != -1 {
        Preempt(core, x, time);
      } else {
        Enqueue(x);
      }
    }

    /** `scheduler_new_job` */
    method NewJob(number: int, time: int, running: int, priority: int) returns (core: int)
      requires Valid()
      modifies Repr
      ensures Valid() && fresh(Repr - old(Repr))
      ensures (model, core) == SchedulerModel.NewJob(old(model), number, time, running, priority)
    {
      hide CoresShow, QueueShows, DoneShows, PriQueue.Valid, SchedulerModel.Admit;
      var x := Register(number, time, running, priority);
      core := Admit(x, time);
    }

    /** A job that was waiting starts again, or for the first time. */
    method Dispatch(j: JobCell, time: int)
      requires Valid() && j.place == Nowhere
      modifies j`firstRuntime, j`lastRuntime
      ensures Valid() && j.View() == SchedulerModel.Dispatch(old(j.View()), time)
    {
      hide CoresShow, QueueShows, DoneShows, PriQueue.Valid;
      NotOnCore(j, model.cores);
      NotQueued(j, model.queue);
      NotDone(j, model.done);
      if j.firstRuntime == -1 { j.firstRuntime := time; }
      j.lastRuntime := time;
    }

    /** Polls the waiting queue onto the empty core `c`. */
    method PollOnto(c: nat, time: int) returns (next: int)
      requires Valid() && c < cores.Length && cores[c] == null
      modifies Repr
      ensures Valid() && Repr == old(Repr)
      ensures (model, next) == SchedulerModel.PollOnto(old(model), c, time)
    {
      hide CoresShow, QueueShows, DoneShows, PriQueue.Valid;
      CoresMatch();
      ghost var was := model;
      var h := Poll();
      if h == null {
        assert was.cores[c := None] == was.cores;
        return -1;
      }
      Dispatch(h, time);
      PutOn(c, h);
      return h.jobNumber;
    }

    /** `priqueue_poll` on the waiting queue. */
    method Poll() returns (h: JobCell?)
      requires Valid()
      modifies this`model, pqueue, if pqueue.contents == [] then {} else {pqueue.contents[0]}
      ensures Valid() && (h == null <==> old(model.queue) == [])
      ensures h == null ==> model == old(model)
      ensures h != null ==>
                && h == old(pqueue.contents)[0] && h.place == Nowhere && h in Repr && h.View() == old(model.queue[0])
                && model == old(model).(queue := old(model).queue[1..])
    {
      hide CoresShow, QueueShows, DoneShows, OwnsCores, OwnsQueue, PriQueue.Valid;
      h := Leave();
      if h != null {
        model := model.(queue := model.queue[1..]);
      }
    }

    /** The head leaves the queue; what the ghost fields say follows. */
    method Leave() returns (h: JobCell?)
      requires Valid()
      modifies pqueue, if pqueue.contents == [] then {} else {pqueue.contents[0]}
      ensures Owns(Repr) && CoresShow(model.cores) && DoneShows(model.done) && (h == null <==> model.queue == [])
      ensures QueueShows(if h == null then model.queue else model.queue[1..])
      ensures h != null ==>
                h == old(pqueue.contents)[0] && h.place == Nowhere && h in Repr && h.View() == model.queue[0]
    {
      hide CoresShow, QueueShows, DoneShows, OwnsCores, OwnsQueue, PriQueue.Valid;
      ghost var spine, was := pqueue.spine, pqueue.contents;
      QueueFacts(model.queue);
      OwnsFacts(pqueue, Repr);
      EntriesApart(model.queue, model.done);
      h := pqueue.Poll();
      OwnsLess(pqueue, spine, was, Repr);
      if h != null {
        NotOnCore(h, model.cores);
        NotDone(h, model.done);
        h.place := Nowhere;
        QueueIsLess(was, model.queue);
      } else {
        NoQueue();
      }
    }

    static lemma OwnsLess(q: PriQueue, s: seq<Entry>, c: seq<JobCell>, own: set<object>)
      requires q in own && forall i :: 0 <= i < |s| ==> s[i] in own
      requires forall i :: 0 <= i < |c| ==> c[i] in own
      requires q.spine == [] || (s != [] && q.spine == s[1..])
      requires q.contents == [] || (c != [] && q.contents == c[1..])
      ensures OwnsQueue(q, own)
    {
    }

    lemma QueueIsLess(was: seq<JobCell>, vs: seq<Job>)
      requires was != [] && pqueue.contents == was[1..] && |vs| == |was| && pqueue.Valid() && pqueue.order == scheme
      requires forall k :: 0 < k < |was| ==> was[k].place == Waiting && vs[k] == was[k].View()
      requires forall k, l :: 0 <= k < l < |was| ==> was[k] != was[l]
      ensures QueueShows(vs[1..])
    {
      hide PriQueue.Valid;
      forall k | 0 <= k < |pqueue.contents| ensures pqueue.contents[k] == was[k + 1] && vs[1..][k] == vs[k + 1] {
      }
    }

    /** The statistics of lines 191-193, and the completed list. */
    method Complete(j: JobCell, time: int)
      requires Valid() && j.place == Nowhere && j in Repr
      modifies this`Repr, this`model, completedjobs, completedjobs.spine, j
      ensures Valid() && old(Repr) <= Repr && fresh(Repr - old(Repr))
      ensures model == old(model).(done := Offer(AlwaysAfter(), old(model).done, Finished(old(j.View()), time)))
    {
      hide CoresShow, QueueShows, DoneShows, OwnsCores, OwnsQueue, PriQueue.Valid;
      OfferAppends(AlwaysAfter(), model.done, Finished(j.View(), time));
      ghost var node := JoinDone(j, time);
      Repr := Repr + {node};
      model := model.(done := model.done + [j.ReportView()]);
    }

    method JoinDone(j: JobCell, time: int) returns (ghost node: Entry)
      requires Valid() && j.place == Nowhere && j in Repr
      modifies completedjobs, completedjobs.spine, j
      ensures fresh(node) && j.ReportView() == Finished(old(j.View()), time) && Owns(Repr + {node})
      ensures CoresShow(model.cores) && QueueShows(model.queue) && DoneShows(model.done + [j.ReportView()])
    {
      hide CoresShow, QueueShows, DoneShows, OwnsCores, OwnsQueue, PriQueue.Valid, JobsOf, OfferIndex, InsertAt,
           Offer;
      ghost var rest, was := JobsOf(model.done), completedjobs.contents;
      DoneFacts(model.done);
      OwnsFacts(completedjobs, Repr);
      NotOnCore(j, model.cores);
      NotQueued(j, model.queue);
      NotDone(j, model.done);
      EntriesApart(model.queue, model.done);
      OfferAppends(Comparer(RR), rest, j.View());
      j.Close(time);
      ghost var r := completedjobs.Offer(j, rest);
      node := completedjobs.spine[r];
      InsertAtEnd(was, j);
      j.place := Completed;
      DoneNow(was, model.done, j);
      OwnsMore(completedjobs, old(completedjobs.spine), was, r, j, Repr);
      OwnsGrows(Repr, {j, node});
      assert Repr + {j, node} == Repr + {node};
    }

    lemma DoneNow(was: seq<JobCell>, rs: seq<Report>, j: JobCell)
      requires completedjobs.contents == was + [j] && |rs| == |was| && j.place == Completed
      requires completedjobs.Valid() && completedjobs.order == RR
      requires forall k :: 0 <= k < |was| ==> was[k].place == Completed && rs[k] == was[k].ReportView()
      ensures DoneShows(rs + [j.ReportView()])
    {
      hide PriQueue.Valid;
    }

    lemma CoresMatch()
      requires Valid()
      ensures |model.cores| == cores.Length && model.scheme == scheme
      ensures forall c :: 0 <= c < cores.Length ==> (cores[c] == null <==> model.cores[c] == None)
    {
    }

    /** `scheduler_job_finished`; the job number is not looked at. */
    method JobFinished(c: nat, jobNumber: int, time: int) returns (next: int)
      requires Valid() && c < cores.Length && cores[c] != null
      modifies Repr
      ensures Valid() && old(Repr) <= Repr && fresh(Repr - old(Repr))
      ensures (model, next) == SchedulerModel.JobFinished(old(model), c, time)
    {
      hide CoresShow, QueueShows, DoneShows, PriQueue.Valid, Offer;
      CoresMatch();
      ghost var was := model;
      var j := TakeOff(c);
      Complete(j, time);
      next := PollOnto(c, time);
      OverwriteTwice(was.cores, c, model.cores[c]);
    }

    /** `scheduler_quantum_expired` */
    method QuantumExpired(c: nat, time: int) returns (next: int)
      requires Valid() && c < cores.Length && cores[c] != null
      modifies Repr
      ensures Valid() && old(Repr) <= Repr && fresh(Repr - old(Repr))
      ensures (model, next) == SchedulerModel.QuantumExpired(old(model), c, time)
    {
      hide CoresShow, QueueShows, DoneShows, PriQueue.Valid, Offer;
      CoresMatch();
      ghost var was := model;
      var j := TakeOff(c);
      Enqueue(j);
      next := PollOnto(c, time);
      OverwriteTwice(was.cores, c, model.cores[c]);
    }

    /** The loops over the completed list: the sums that the three averages divide by `job_count`. */
    method Totals() returns (waiting: int, turnaround: int, response: int, n: nat)
      requires Valid()
      ensures waiting == SumWaiting(model.done) && turnaround == SumTurnaround(model.done)
      ensures response == SumResponse(model.done) && n == model.count
    {
      waiting, turnaround, response, n := 0, 0, 0, jobCount;
      var curr := completedjobs.head;
      ghost var i := 0;
      while curr != null
        invariant i <= |model.done|
        invariant curr == if i < |completedjobs.spine| then completedjobs.spine[i] else null
        invariant waiting == SumWaiting(model.done[..i]) && turnaround == SumTurnaround(model.done[..i])
        invariant response == SumResponse(model.done[..i])
        decreases |model.done| - i
      {
        assert model.done[..i + 1][..i] == model.done[..i];
        assert curr.value == completedjobs.contents[i];
        waiting := waiting + curr.value.waitingTime;
        turnaround := turnaround + curr.value.turnaroundTime;
        response := response + curr.value.responseTime;
        curr := curr.next;
        i := i + 1;
      }
      assert model.done[..i] == model.done;
    }

    /** The three averages; None stands for the quotients by zero of a scheduler that had no jobs. */
    method Averages() returns (times: Option<(real, real, real)>)
      requires Valid()
      ensures times == None <==> model.count == 0
      ensures times.Some? ==>
                && IsMean(times.value.0, SumWaiting(model.done), model.count)
                && IsMean(times.value.1, SumTurnaround(model.done), model.count)
                && IsMean(times.value.2, SumResponse(model.done), model.count)
    {
      hide Mean, IsMean;
      var waiting, turnaround, response, n := Totals();
      if n == 0 { return None; }
      MeanIs(waiting, n);
      MeanIs(turnaround, n);
      MeanIs(response, n);
      return Some((Mean(waiting, n), Mean(turnaround, n), Mean(response, n)));
    }
  }

  lemma OverwriteTwice(cores: seq<Option<Job>>, c: nat, x: Option<Job>)
    requires c < |cores|
    ensures cores[c := None][c := x] == cores[c := x]
  {
  }
}
