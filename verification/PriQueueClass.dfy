/**
  The linked priority queue of libpriqueue.c, holding pointers to job records
  that others may change in place. `spine` and `contents` name the entries and
  the jobs they point to, in order.
 */
module PriQueueClass {
  import opened Prelude
  import opened Sequences
  import opened PriQueueModel
  import opened SchedulerModel

  datatype Place = Nowhere | Core(index: int) | Waiting | Completed

  /** `job_t`: the statistics fields hold anything until the job is completed. */
  class JobCell {
    ghost var place: Place   // who holds the one pointer to this record
    var jobNumber: int
    var priority: int
    var arrivalTime: int
    var runningTime: int
    var remainingTime: int
    var firstRuntime: int
    var lastRuntime: int
    var waitingTime: int
    var turnaroundTime: int
    var responseTime: int

    constructor (j: Job)
      ensures View() == j && place == Nowhere
    {
      place := Nowhere;
      jobNumber, priority, arrivalTime, runningTime := j.number, j.priority, j.arrival, j.running;
      remainingTime, firstRuntime, lastRuntime := j.remaining, j.first, j.last;
    }

    /** Charges the record for the time since it was last looked at. */
    method Charge(time: int)
      modifies this`remainingTime, this`lastRuntime
      ensures Some(View()) == SchedulerModel.Charge(Some(old(View())), time)
    {
      remainingTime := remainingTime - (time - lastRuntime);
      lastRuntime := time;
    }

    /** The statistics of a job that leaves at `time`. */
    method Close(time: int)
      modifies this`responseTime, this`turnaroundTime, this`waitingTime
      ensures ReportView() == Finished(old(View()), time)
    {
      responseTime := firstRuntime - arrivalTime;
      turnaroundTime := time - arrivalTime;
      waitingTime := time - arrivalTime - runningTime;
    }

    function View(): Job
      reads this
    {
      Job(jobNumber, priority, arrivalTime, runningTime, remainingTime, firstRuntime, lastRuntime)
    }

    function ReportView(): Report
      reads this
    {
      Report(View(), waitingTime, turnaroundTime, responseTime)
    }
  }

  /** `vs` is what the records say at this moment. */
  ghost predicate Shows(jobs: seq<JobCell>, vs: seq<Job>)
    reads jobs
  {
    |vs| == |jobs| && forall i :: 0 <= i < |jobs| ==> vs[i] == jobs[i].View()
  }

  class Entry {
    const value: JobCell   // never reassigned
    var next: Entry?
    ghost const owner: PriQueue

    constructor (value: JobCell, ghost owner: PriQueue)
      ensures this.value == value && this.next == null && this.owner == owner
    {
      this.value, this.next, this.owner := value, null, owner;
    }
  }

  /** The entry that follows position `i`. */
  ghost function After(spine: seq<Entry>, i: nat): Entry?
  {
    if i + 1 < |spine| then spine[i + 1] else null
  }

  lemma ValuesInsert(q: seq<Entry>, c: seq<JobCell>, r: nat, x: Entry)
    requires r <= |q| == |c| && forall i :: 0 <= i < |q| ==> q[i].value == c[i] && q[i].owner == x.owner
    ensures |InsertAt(q, r, x)| == |InsertAt(c, r, x.value)| == |q| + 1
    ensures InsertAt(q, r, x)[0] == if r == 0 then x else q[0]
    ensures forall i :: 0 <= i <= |q| ==>
              InsertAt(q, r, x)[i].value == InsertAt(c, r, x.value)[i] && InsertAt(q, r, x)[i].owner == x.owner
  {
    hide InsertAt;
    InsertedAt(q, r, x);
    InsertedAt(c, r, x.value);
  }

  lemma AfterInsert(q: seq<Entry>, r: nat, x: Entry, i: nat)
    requires r <= |q| && i <= |q|
    ensures After(InsertAt(q, r, x), i) ==
            if i == r - 1 then x else if i < r then After(q, i)
            else if i > 0 then After(q, i - 1) else if q == [] then null else q[0]
  {
    hide InsertAt;
    InsertedAt(q, r, x);
  }

  class PriQueue {
    const order: Scheme   // names the comparer
    var size: int
    var head: Entry?
    ghost var spine: seq<Entry>
    ghost var contents: seq<JobCell>

    ghost predicate Valid()
      reads this, spine
    {
      && size == |spine| == |contents|
      && head == (if spine == [] then null else spine[0])
      && Linked(spine)
      && (forall i :: 0 <= i < |spine| ==> spine[i].value == contents[i] && spine[i].owner == this)
      && (forall i, j :: 0 <= i < j < |spine| ==> spine[i] != spine[j])
    }

    constructor (order: Scheme)
      ensures Valid() && contents == [] && spine == [] && this.order == order
    {
      this.order := order;
      size, head := 0, null;
      spine, contents := [], [];
    }

    function Cmp(a: JobCell, b: JobCell): int
      reads a, b
    {
      Compare(order, a.View(), b.View())
    }

    /** The entries of `s` are linked in that order. */
    static ghost predicate Linked(s: seq<Entry>)
      reads s
    {
      forall i :: 0 <= i < |s| ==> s[i].next == After(s, i)
    }

    /** The two pointer writes that put `node` behind `left`, the entry before position `r`. */
    method Link(left: Entry, node: Entry, ghost r: nat)
      requires Linked(spine) && 1 <= r <= |spine| && left == spine[r - 1] && node !in spine
      requires forall i, j :: 0 <= i < j < |spine| ==> spine[i] != spine[j]
      modifies left`next, node`next
      ensures Linked(InsertAt(spine, r, node))
    {
      hide InsertAt, After;
      ghost var s := InsertAt(spine, r, node);
      InsertedAt(spine, r, node);
      node.next := left.next;
      left.next := node;
      forall i | 0 <= i < |s| ensures s[i].next == After(s, i) {
        AfterInsert(spine, r, node, i);
      }
    }

    /** The new node is entry `r` of the chain; the rest of the queue follows. */
    method Grow(node: Entry, ghost r: nat)
      requires |spine| == |contents| == size && r <= |spine| && node !in spine && node.owner == this
      requires forall i :: 0 <= i < |spine| ==> spine[i].value == contents[i] && spine[i].owner == this
      requires forall i, j :: 0 <= i < j < |spine| ==> spine[i] != spine[j]
      requires Linked(InsertAt(spine, r, node)) && head == if r == 0 then node else spine[0]
      modifies this
      ensures Valid()
      ensures spine == InsertAt(old(spine), r, node) && contents == InsertAt(old(contents), r, node.value)
    {
      hide InsertAt, After;
      ValuesInsert(spine, contents, r, node);
      DistinctInsert(spine, r, node);
      size := size + 1;
      spine, contents := InsertAt(spine, r, node), InsertAt(contents, r, node.value);
    }

    /** Puts `node` behind `left`. */
    method Splice(left: Entry, node: Entry, ghost r: nat)
      requires Valid() && 1 <= r <= |spine| && left == spine[r - 1] && node !in spine && node.owner == this
      modifies this, left`next, node`next
      ensures Valid()
      ensures spine == InsertAt(old(spine), r, node) && contents == InsertAt(old(contents), r, node.value)
    {
      hide InsertAt, After;
      Link(left, node, r);
      Grow(node, r);
    }

    /** Makes `node` the first entry. */
    method PushFront(node: Entry)
      requires Valid() && node !in spine && node.owner == this
      modifies this, node`next
      ensures Valid()
      ensures spine == InsertAt(old(spine), 0, node) && contents == InsertAt(old(contents), 0, node.value)
    {
      hide InsertAt, After;
      node.next := head;
      FrontLinks(node);
      head := node;
      Grow(node, 0);
    }

    lemma FrontLinks(node: Entry)
      requires Linked(spine) && node.next == (if spine == [] then null else spine[0])
      ensures Linked(InsertAt(spine, 0, node))
    {
      hide InsertAt, After;
      var s := InsertAt(spine, 0, node);
      InsertedAt(spine, 0, node);
      forall i | 0 <= i < |s| ensures s[i].next == After(s, i) {
        AfterInsert(spine, 0, node, i);
      }
    }

    /** Walks to the entry behind which `x` belongs. */
    method FindPlace(x: JobCell, ghost vs: seq<Job>) returns (left: Entry, r: nat)
      requires Valid() && Shows(contents, vs) && spine != [] && Cmp(x, spine[0].value) >= 0
      ensures 1 <= r <= |spine| && left == spine[r - 1]
      ensures r == OfferIndex(Comparer(order), vs, x.View())
    {
      ghost var v := x.View();
      r := 1;
      left := head;
      while true
        invariant 1 <= r <= |spine| && left == spine[r - 1]
        invariant OfferIndex(Comparer(order), vs, v) == WalkFrom(Comparer(order), vs, v, r - 1)
        decreases |spine| - r
      {
        var cmpA := Cmp(left.value, x);
        if left.next == null {
          return;
        }
        assert left.next == spine[r];
        var cmpB := Cmp(x, left.next.value);
        if cmpA <= 0 && cmpB < 0 {
          return;
        }
        left := left.next;
        r := r + 1;
      }
    }

    /** `priqueue_offer`, when the queued records read `vs` */
    method Offer(x: JobCell, ghost vs: seq<Job>) returns (r: nat)
      requires Valid() && Shows(contents, vs)
      modifies this, spine
      ensures Valid()
      ensures r == OfferIndex(Comparer(order), vs, x.View())
      ensures r <= |old(contents)| == |old(spine)| && contents == InsertAt(old(contents), r, x)
      ensures r < |spine| == |contents| == |old(contents)| + 1
      ensures fresh(spine[r]) && spine == InsertAt(old(spine), r, spine[r])
    {
      hide InsertAt, Linked;
      var node := new Entry(x, this);
      if head == null || Cmp(x, head.value) < 0 {
        r := 0;
        PushFront(node);
      } else {
        var left;
        left, r := FindPlace(x, vs);
        Splice(left, node, r);
      }
      InsertedAt(old(spine), r, node);
    }

    /** `priqueue_peek` */
    method Peek() returns (x: JobCell?)
      requires Valid()
      ensures x == if contents == [] then null else contents[0]
    {
      x := if head == null then null else head.value;
    }

    /** `priqueue_poll` */
    method Poll() returns (x: JobCell?)
      requires Valid()
      modifies this
      ensures Valid() && (x == null <==> old(contents) == [])
      ensures old(contents) == [] ==> x == null && contents == [] && spine == []
      ensures old(contents) != [] ==>
        x == old(contents)[0] && contents == old(contents)[1..] && spine == old(spine)[1..]
    {
      if head == null {
        return null;
      }
      x := head.value;
      head := head.next;
      size := size - 1;
      spine, contents := spine[1..], contents[1..];
    }

    /** `priqueue_size` */
    method Size() returns (n: int)
      requires Valid()
      ensures n == |contents|
    {
      n := size;
    }

    /** `priqueue_destroy`: polls until the answer is NULL. */
    method Destroy()
      requires Valid()
      modifies this
      ensures Valid() && contents == [] && spine == []
    {
      var x := Poll();
      while x != null
        invariant Valid()
        invariant x == null ==> contents == []
        decreases |contents|, x != null
      {
        x := Poll();
      }
    }
  }
}
