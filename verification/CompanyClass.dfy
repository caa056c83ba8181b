/** simulator.c, good_company.c and bad_company.c of Lab/Overworked_Interns, statement by statement. */
module CompanyClass {
  import opened Prelude
  import opened CompanyModel
  import opened CompanyTheorems
  import opened CompanyDays

  class Simulation {
    var running: bool
    var exited: bool
    const interns: array<Option<nat>>
    const companies: array<Company>

    function Now(): State
      reads this, interns, companies
    {
      State(running, exited, interns[..], companies[..])
    }

    /** The interns are made, then every company gets its two: lines 67-97. */
    constructor (n: nat, k: nat)
      requires k > 0
      ensures Now() == Init(n, k) && fresh(interns) && fresh(companies)
    {
      running, exited := true, false;
      interns := new Option<nat>[k](_ => None);
      companies := new Company[n](_ => Company(0, 0, Top, 0));
      new;
      var i := 0;
      while i < n
        invariant i <= n && forall l :: 0 <= l < i ==> companies[l] == NewCompany(l, k)
        modifies companies
      {
        companies[i] := Company(i % k, (i + 1) % k, Top, 0);
        i := i + 1;
      }
      assert companies[..] == Init(n, k).companies && interns[..] == Init(n, k).interns;
    }

    method Goto(i: nat, pc: Pc)
      requires i < companies.Length
      modifies companies
      ensures companies[..] == old(companies[..])[i := old(companies[i]).(pc := pc)]
    {
      companies[i] := companies[i].(pc := pc);
    }

    /** `pthread_mutex_lock` */
    method Lock(i: nat, j: nat) returns (ok: bool)
      modifies interns
      ensures ok == (j < interns.Length && old(interns[..])[j] == None)
      ensures interns[..] == if ok then old(interns[..])[j := Some(i)] else old(interns[..])
    {
      ok := j < interns.Length && interns[j] == None;
      if ok { interns[j] := Some(i); }
    }

    /** `pthread_mutex_unlock` */
    method Unlock(j: nat) returns (ok: bool)
      modifies interns
      ensures ok == (j < interns.Length)
      ensures interns[..] == if ok then old(interns[..])[j := None] else old(interns[..])
    {
      ok := j < interns.Length;
      if ok { interns[j] := None; }
    }

    /** `Company_hire_interns` */
    method HireInterns(i: nat)
      requires i < companies.Length && companies[i].pc == Hire && !exited
      modifies this`exited, companies
      ensures Some(Now()) == Next(Good, old(Now()), i) == Next(Bad, old(Now()), i)
    {
      var c := companies[i];
      if c.left < interns.Length && interns[c.left] == Some(i)
         && c.right < interns.Length && interns[c.right] == Some(i) {
        companies[i] := c.(pc := UnlockRight, days := c.days + 1);
      } else {
        exited := true;
      }
    }

    /** The next statement of `work_interns` in company `i`; false if it has to wait or is done. */
    method Act(w: Program, i: nat) returns (ok: bool)
      requires i < companies.Length && !exited
      modifies this`exited, interns, companies
      ensures ok == Next(w, old(Now()), i).Some? && Now() == if ok then Next(w, old(Now()), i).value else old(Now())
    {
      ok := true;
      var c := companies[i];
      match c.pc
      case Top => Goto(i, if running then Fetch else Done);
      case Fetch =>
        Goto(i, if w == Good && c.left == c.right then Meet else LockFirst);
      case LockFirst =>
        ok := Lock(i, First(w, c));
        if ok { Goto(i, LockSecond); }
      case LockSecond =>
        ok := Lock(i, Second(w, c));
        if ok { Goto(i, Hire); }
      case Hire => HireInterns(i);
      case UnlockRight =>
        ok := Unlock(c.right);
        if ok { Goto(i, UnlockLeft); }
      case UnlockLeft =>
        ok := Unlock(c.left);
        if ok { Goto(i, if w == Good then Meet else Top); }
      case Meet => Goto(i, Top);
      case Done => ok := false;
    }

    /**
      `running = 0` and the joins: whichever company the scheduler picks among those
      that can go on, in the end they are all done.
     */
    method StopAndJoin(w: Program, ghost n: nat, ghost k: nat)
      requires Inv(w, n, k, Now()) && (w == Good || n < k)
      modifies this, interns, companies
      ensures Inv(w, n, k, Now()) && !exited && forall i :: 0 <= i < companies.Length ==> companies[i].pc == Done
    {
      running := false;
      while exists i :: 0 <= i < companies.Length && companies[i].pc != Done
        invariant Inv(w, n, k, Now()) && !running
        decreases AllStepsLeft(Now().companies)
      {
        hide Inv, Next, AllStepsLeft;
        var i := Pick(w, n, k);
        ActKeeps(w, n, k, Now(), i);
        ActCosts(w, n, k, Now(), i);
        NotExited(w, n, k, Now());
        var ok := Act(w, i);
      }
    }

    /** The scheduler's choice. */
    method Pick(w: Program, ghost n: nat, ghost k: nat) returns (i: nat)
      requires Inv(w, n, k, Now()) && (w == Good || n < k)
      requires exists i :: 0 <= i < companies.Length && companies[i].pc != Done
      ensures i < companies.Length && Next(w, Now(), i).Some?
    {
      ghost var s := Now();
      ghost var l :| 0 <= l < companies.Length && companies[l].pc != Done;
      if w == Good { GoodIsInOrder(n, k, s); } else { FewCompaniesAreInOrder(n, k, s); }
      ghost var m := NotStuckInOrder(w, n, k, s, l);
      i :| 0 <= i < companies.Length && Next(w, Now(), i).Some?;
    }
  }

  /**
    Whatever the scheduler picks, and whenever it stops: the run is one the theorems
    speak of, no company is caught, and every company is billed for the passes it
    has made.
   */
  method Run(w: Program, n: nat, k: nat, schedule: seq<Event>)
    returns (sim: Simulation, ghost ss: seq<State>, ghost es: seq<Event>)
    requires k > 0 && forall e :: e in schedule && e.Act? ==> e.company < n
    ensures IsRun(w, ss, es) && ss[0] == Init(n, k) && ss[|es|] == sim.Now() && !sim.exited
    ensures sim.companies.Length == n && forall l :: 0 <= l < |ss| ==> n <= |ss[l].companies|
    ensures forall i :: 0 <= i < n ==>
              sim.companies[i].days == Passes(ss, es, i, |es|) + if Hired(sim.companies[i].pc) then 1 else 0
  {
    hide Next, Inv, IsRun, Init, Times;
    sim := new Simulation(n, k);
    ss, es := [sim.Now()], [];
    StartsRun(w, n, k);
    var l := 0;
    while l < |schedule|
      invariant fresh(sim) && fresh(sim.interns) && fresh(sim.companies) && l <= |schedule|
      invariant |ss| == |es| + 1 && IsRun(w, ss, es) && ss[0] == Init(n, k) && ss[|es|] == sim.Now()
      invariant Inv(w, n, k, sim.Now())
    {
      ghost var s := sim.Now();
      NotExited(w, n, k, s);
      if schedule[l].Stop? {
        sim.running := false;
        RunGrows(w, n, k, ss, es, schedule[l], sim.Now());
        ss, es := ss + [sim.Now()], es + [schedule[l]];
      } else {
        var ok := sim.Act(w, schedule[l].company);
        if ok {
          RunGrows(w, n, k, ss, es, schedule[l], sim.Now());
          ss, es := ss + [sim.Now()], es + [schedule[l]];
        }
      }
      l := l + 1;
    }
    NotExited(w, n, k, sim.Now());
    AllBilled(w, n, k, ss, es);
  }

  lemma StartsRun(w: Program, n: nat, k: nat)
    requires k > 0
    ensures IsRun(w, [Init(n, k)], []) && Inv(w, n, k, Init(n, k))
  {
    InitInv(w, n, k);
  }

  lemma RunGrows(w: Program, n: nat, k: nat, ss: seq<State>, es: seq<Event>, e: Event, s: State)
    requires |ss| == |es| + 1 && IsRun(w, ss, es) && Inv(w, n, k, ss[|es|]) && Step(w, ss[|es|], e) == Some(s)
    ensures IsRun(w, ss + [s], es + [e]) && Inv(w, n, k, s)
  {
    StepKeeps(w, n, k, ss[|es|], e);
    hide Step, Inv;
    forall m | 0 <= m < |es| + 1 ensures Step(w, (ss + [s])[m], (es + [e])[m]) == Some((ss + [s])[m + 1]) {
      if m < |es| { assert Step(w, ss[m], es[m]) == Some(ss[m + 1]); }
    }
  }

  lemma AllBilled(w: Program, n: nat, k: nat, ss: seq<State>, es: seq<Event>)
    requires k > 0 && |ss| == |es| + 1 && IsRun(w, ss, es) && ss[0] == Init(n, k)
    ensures forall l :: 0 <= l < |ss| ==> n <= |ss[l].companies|
    ensures forall i :: 0 <= i < n ==>
              ss[|es|].companies[i].days == Passes(ss, es, i, |es|) + if Hired(ss[|es|].companies[i].pc) then 1 else 0
  {
    forall l | 0 <= l < |ss| ensures n <= |ss[l].companies| {
      SameCompanies(w, ss, es, l);
    }
    hide IsRun, Init, Times;
    forall i | 0 <= i < n
      ensures ss[|es|].companies[i].days == Passes(ss, es, i, |es|) + if Hired(ss[|es|].companies[i].pc) then 1 else 0 {
      DaysAreCounted(w, n, k, ss, es, i, |es|);
    }
  }

  lemma NotExited(w: Program, n: nat, k: nat, s: State)
    requires Inv(w, n, k, s)
    ensures !s.exited && |s.companies| == n
  {
  }
}
