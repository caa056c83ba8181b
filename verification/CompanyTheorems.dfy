/** Which of the two programs of CompanyModel can get stuck, and how both come to an end. */
module CompanyTheorems {
  import opened Prelude
  import opened CompanyModel

  /** While a company hires, its two interns are its own, and nobody else's. */
  lemma HiringIsExclusive(w: Program, n: nat, k: nat, s: State, i: nat, l: nat)
    requires Reached(w, n, k, s) && i < |s.companies| && l < |s.companies| && i != l
    requires s.companies[i].pc == Hire && s.companies[l].pc == Hire
    ensures {s.companies[i].left, s.companies[i].right} !! {s.companies[l].left, s.companies[l].right}
  {
    ReachedInv(w, n, k, s);
    HiresBoth(w, n, k, s, i);
    HiresBoth(w, n, k, s, l);
  }

  /** Nobody is ever caught hiring interns it has not locked. */
  lemma NobodyIsCaught(w: Program, n: nat, k: nat, s: State)
    requires Reached(w, n, k, s)
    ensures !s.exited
  {
    ReachedInv(w, n, k, s);
  }

  // ---------- locks in order ----------

  /** Every company locks a lower intern before a higher one. */
  ghost predicate InOrder(w: Program, s: State)
  {
    forall i :: 0 <= i < |s.companies| && s.companies[i].pc in {LockFirst, LockSecond} ==>
      First(w, s.companies[i]) < Second(w, s.companies[i])
  }

  /** Whoever waits for its second intern waits for somebody who can go on, or for one with a higher intern. */
  lemma {:induction false} SomebodyAhead(w: Program, n: nat, k: nat, s: State, i: nat) returns (m: nat)
    requires Inv(w, n, k, s) && InOrder(w, s) && i < n && s.companies[i].pc == LockSecond
    ensures m < n && Next(w, s, m).Some?
    decreases k - Second(w, s.companies[i])
  {
    Interns(i, k);
    var j := Second(w, s.companies[i]);
    if s.interns[j] == None {
      m := i;
    } else {
      m := s.interns[j].value;
      assert Has(w, s.companies[m], j);
      if s.companies[m].pc == LockSecond {
        Interns(m, k);
        m := SomebodyAhead(w, n, k, s, m);
      } else {
        HolderGoesOn(w, n, k, s, m);
      }
    }
  }

  lemma HolderGoesOn(w: Program, n: nat, k: nat, s: State, m: nat)
    requires Inv(w, n, k, s) && m < n && s.companies[m].pc !in {LockFirst, LockSecond, Done}
    ensures Next(w, s, m).Some?
  {
    Interns(m, k);
  }

  lemma NotStuckInOrder(w: Program, n: nat, k: nat, s: State, i: nat) returns (m: nat)
    requires Inv(w, n, k, s) && InOrder(w, s) && i < n && s.companies[i].pc != Done
    ensures m < n && Next(w, s, m).Some?
  {
    Interns(i, k);
    if s.companies[i].pc == LockSecond {
      m := SomebodyAhead(w, n, k, s, i);
    } else if s.companies[i].pc == LockFirst && s.interns[First(w, s.companies[i])] != None {
      m := s.interns[First(w, s.companies[i])].value;
      assert Has(w, s.companies[m], First(w, s.companies[i]));
      if s.companies[m].pc == LockSecond {
        m := SomebodyAhead(w, n, k, s, m);
      } else {
        HolderGoesOn(w, n, k, s, m);
      }
    } else {
      m := i;
      if s.companies[i].pc != LockFirst { HolderGoesOn(w, n, k, s, i); }
    }
  }

  lemma GoodIsInOrder(n: nat, k: nat, s: State)
    requires Inv(Good, n, k, s)
    ensures InOrder(Good, s)
  {
    forall i | 0 <= i < n && s.companies[i].pc in {LockFirst, LockSecond}
      ensures First(Good, s.companies[i]) < Second(Good, s.companies[i]) {
      Interns(i, k);
    }
  }

  /** Locking the lower address first never gets stuck, however many companies and interns there are. */
  lemma GoodNeverStuck(n: nat, k: nat, s: State)
    requires Reached(Good, n, k, s)
    ensures !Stuck(Good, s)
  {
    ReachedInv(Good, n, k, s);
    GoodIsInOrder(n, k, s);
    if i :| 0 <= i < n && s.companies[i].pc != Done {
      var m := NotStuckInOrder(Good, n, k, s, i);
      assert Next(Good, s, m) != None;
    }
  }

  lemma IsItself(i: nat, k: nat)
    requires i < k
    ensures i % k == i
  {
  }

  lemma FewCompaniesAreInOrder(n: nat, k: nat, s: State)
    requires Inv(Bad, n, k, s) && n < k
    ensures InOrder(Bad, s)
  {
    forall i | 0 <= i < n ensures First(Bad, s.companies[i]) < Second(Bad, s.companies[i]) {
      IsItself(i, k);
      IsItself(i + 1, k);
    }
  }

  lemma FewCompaniesNeverStuck(n: nat, k: nat, s: State)
    requires Reached(Bad, n, k, s) && n < k
    ensures !Stuck(Bad, s)
  {
    ReachedInv(Bad, n, k, s);
    FewCompaniesAreInOrder(n, k, s);
    if i :| 0 <= i < n && s.companies[i].pc != Done {
      var m := NotStuckInOrder(Bad, n, k, s, i);
      assert Next(Bad, s, m) != None;
    }
  }

  // ---------- everybody's left intern first ----------

  /** Each of the first `m` companies waits: for its right intern if it could get its left one. */
  function Grabbed(n: nat, k: nat, m: nat): State
    requires k > 0
  {
    State(true, false,
          seq(k, j => if j < m then Some(j) else None),
          seq(n, i requires 0 <= i < n =>
            if i < m then NewCompany(i, k).(pc := if i < k then LockSecond else LockFirst) else NewCompany(i, k)))
  }

  lemma {:induction false} GrabsAll(n: nat, k: nat, m: nat)
    requires k > 0 && m <= n
    ensures Reached(Bad, n, k, Grabbed(n, k, m))
  {
    if m == 0 {
      ReachedInit(Bad, n, k);
      assert Grabbed(n, k, 0) == Init(n, k);
    } else {
      GrabsAll(n, k, m - 1);
      GrabsOne(n, k, m - 1);
    }
  }

  lemma GrabsOne(n: nat, k: nat, i: nat)
    requires k > 0 && i < n && Reached(Bad, n, k, Grabbed(n, k, i))
    ensures Reached(Bad, n, k, Grabbed(n, k, i + 1))
  {
    var s := Grabbed(n, k, i);
    var s1 := Goto(s, i, Fetch);
    var s2 := Goto(s1, i, LockFirst);
    TwoSteps(n, k, s, i);
    if i < k {
      var s3 := Goto(s2, i, LockSecond).(interns := s2.interns[i := Some(i)]);
      TakesLeft(s, s2, i, k);
      ReachedStep(Bad, n, k, s2, Act(i));
      NextGrabbed(n, k, i);
    } else {
      NextGrabbed(n, k, i);
    }
  }

  lemma TwoSteps(n: nat, k: nat, s: State, i: nat)
    requires Reached(Bad, n, k, s) && i < |s.companies| && s.companies[i].pc == Top && s.running && !s.exited
    ensures Reached(Bad, n, k, Goto(Goto(s, i, Fetch), i, LockFirst))
  {
    hide Reached;
    ReachedStep(Bad, n, k, s, Act(i));
    assert Step(Bad, s, Act(i)) == Some(Goto(s, i, Fetch));
    ReachedStep(Bad, n, k, Goto(s, i, Fetch), Act(i));
    assert Step(Bad, Goto(s, i, Fetch), Act(i)) == Some(Goto(Goto(s, i, Fetch), i, LockFirst));
  }

  lemma TakesLeft(s: State, t: State, i: nat, k: nat)
    requires i < |s.companies| && i < k == |s.interns| && t == Goto(Goto(s, i, Fetch), i, LockFirst)
    requires s.companies[i] == NewCompany(i, k) && s.interns[i] == None && !s.exited
    ensures Step(Bad, t, Act(i)) == Some(Goto(t, i, LockSecond).(interns := t.interns[i := Some(i)]))
  {
    IsItself(i, k);
  }

  lemma NextGrabbed(n: nat, k: nat, i: nat)
    requires k > 0 && i < n
    ensures var t := Goto(Goto(Grabbed(n, k, i), i, Fetch), i, LockFirst);
            Grabbed(n, k, i + 1) == if i < k then Goto(t, i, LockSecond).(interns := t.interns[i := Some(i)]) else t
  {
    hide NewCompany;
    var t := Goto(Goto(Grabbed(n, k, i), i, Fetch), i, LockFirst);
    var u := if i < k then Goto(t, i, LockSecond).(interns := t.interns[i := Some(i)]) else t;
    assert u.companies == Grabbed(n, k, i + 1).companies;
    assert u.interns == Grabbed(n, k, i + 1).interns;
  }

  lemma AllGrabbedIsStuck(n: nat, k: nat)
    requires 0 < k <= n
    ensures Stuck(Bad, Grabbed(n, k, n))
  {
    var s := Grabbed(n, k, n);
    assert s.companies[0].pc != Done;
    forall i | 0 <= i < n ensures Next(Bad, s, i) == None {
      Interns(i, k);
    }
  }

  /** Locking the left intern first can get stuck exactly when there is no intern to spare. */
  lemma BadSticksIff(n: nat, k: nat)
    requires k > 0
    ensures (exists s :: Reached(Bad, n, k, s) && Stuck(Bad, s)) <==> k <= n
  {
    if k <= n {
      GrabsAll(n, k, n);
      AllGrabbedIsStuck(n, k);
    } else {
      forall s | Reached(Bad, n, k, s) ensures !Stuck(Bad, s) {
        FewCompaniesNeverStuck(n, k, s);
      }
    }
  }

  // ---------- the end of the simulation ----------

  /** How many steps a company has to go once `running` is 0. */
  function StepsLeft(pc: Pc): nat
  {
    match pc
    case Fetch => 9 case LockFirst => 8 case LockSecond => 7 case Hire => 6 case UnlockRight => 5 case UnlockLeft => 4
    case Meet => 2 case Top => 1 case Done => 0
  }

  function AllStepsLeft(cs: seq<Company>): nat
  {
    if cs == [] then 0 else StepsLeft(cs[0].pc) + AllStepsLeft(cs[1..])
  }

  lemma {:induction false} StepsLeftUpdate(cs: seq<Company>, i: nat, c: Company)
    requires i < |cs|
    ensures AllStepsLeft(cs[i := c]) == AllStepsLeft(cs) - StepsLeft(cs[i].pc) + StepsLeft(c.pc)
  {
    if i == 0 {
      assert cs[0 := c][1..] == cs[1..];
    } else {
      assert cs[i := c][1..] == cs[1..][i - 1 := c];
      StepsLeftUpdate(cs[1..], i - 1, c);
    }
  }

  lemma {:induction false} StepsLeftBound(cs: seq<Company>)
    ensures AllStepsLeft(cs) <= 9 * |cs|
  {
    if cs == [] {
    } else {
      StepsLeftBound(cs[1..]);
    }
  }

  lemma ActCosts(w: Program, n: nat, k: nat, s: State, i: nat)
    requires Inv(w, n, k, s) && i < n && Next(w, s, i).Some? && !s.running
    ensures var t := Next(w, s, i).value; !t.running && AllStepsLeft(t.companies) < AllStepsLeft(s.companies)
  {
    if s.companies[i].pc == Hire { HiresBoth(w, n, k, s, i); }
    var t := Next(w, s, i).value;
    assert t.companies == s.companies[i := t.companies[i]];
    StepsLeftUpdate(s.companies, i, t.companies[i]);
  }

  function Acts(es: seq<Event>, m: nat): nat
    requires m <= |es|
  {
    if m == 0 then 0 else Acts(es, m - 1) + if es[m - 1].Act? then 1 else 0
  }

  lemma {:induction false} StopCosts(w: Program, n: nat, k: nat, ss: seq<State>, es: seq<Event>, m: nat)
    requires IsRun(w, ss, es) && Inv(w, n, k, ss[0]) && !ss[0].running && m <= |es|
    ensures !ss[m].running && AllStepsLeft(ss[m].companies) + Acts(es, m) <= AllStepsLeft(ss[0].companies)
  {
    if m == 0 {
    } else {
      StopCosts(w, n, k, ss, es, m - 1);
      RunKeeps(w, n, k, ss, es, m - 1);
      assert Step(w, ss[m - 1], es[m - 1]) == Some(ss[m]);
      if es[m - 1].Act? { ActCosts(w, n, k, ss[m - 1], es[m - 1].company); }
    }
  }

  /** Once `running` is 0 the `n` companies take at most `9 * n` more steps. */
  lemma FewStepsAfterStop(w: Program, n: nat, k: nat, ss: seq<State>, es: seq<Event>)
    requires IsRun(w, ss, es) && Reached(w, n, k, ss[0]) && !ss[0].running
    ensures Acts(es, |es|) <= 9 * n
  {
    ReachedInv(w, n, k, ss[0]);
    StopCosts(w, n, k, ss, es, |es|);
    StepsLeftBound(ss[0].companies);
  }
}
