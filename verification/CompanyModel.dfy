/**
  The companies of Lab/Overworked_Interns and the interns they share, one mutex
  each: good_company.c locks the lower address first, bad_company.c the left one.
 */
module CompanyModel {
  import opened Prelude

  datatype Program = Good | Bad

  /** What a company does next. */
  datatype Pc =
    | Top               // while (running)
    | Fetch             // read the two pointers
    | LockFirst
    | LockSecond
    | Hire              // Company_hire_interns
    | UnlockRight
    | UnlockLeft
    | Meet              // Company_have_board_meeting
    | Done

  datatype Company = Company(left: nat, right: nat, pc: Pc, days: nat)

  /** `interns[j]` is who holds the mutex of intern `j`; interns are numbered by their addresses. */
  datatype State = State(running: bool, exited: bool, interns: seq<Option<nat>>, companies: seq<Company>)

  function NewCompany(i: nat, k: nat): Company
    requires k > 0
  {
    Company(i % k, (i + 1) % k, Top, 0)
  }

  /** `n` companies and `k` interns, as simulator.c sets them up. */
  function Init(n: nat, k: nat): State
    requires k > 0
  {
    State(true, false, seq(k, _ => None), seq(n, i requires 0 <= i < n => NewCompany(i, k)))
  }

  function First(w: Program, c: Company): nat
  {
    if w == Good && c.left >= c.right then c.right else c.left
  }

  function Second(w: Program, c: Company): nat
  {
    if w == Good && c.left >= c.right then c.left else c.right
  }

  function Goto(s: State, i: nat, pc: Pc): State
    requires i < |s.companies|
  {
    s.(companies := s.companies[i := s.companies[i].(pc := pc)])
  }

  /** Company `i` takes intern `j`, or has to wait; for its own intern it waits too. */
  function Take(s: State, i: nat, j: nat, pc: Pc): Option<State>
    requires i < |s.companies|
  {
    if j < |s.interns| && s.interns[j] == None then Some(Goto(s, i, pc).(interns := s.interns[j := Some(i)]))
    else None
  }

  function Release(s: State, i: nat, j: nat, pc: Pc): Option<State>
    requires i < |s.companies|
  {
    if j < |s.interns| then Some(Goto(s, i, pc).(interns := s.interns[j := None])) else None
  }

  predicate Owns(s: State, i: nat, j: nat)
  {
    j < |s.interns| && s.interns[j] == Some(i)
  }

  /** The next thing company `i` does; None when it has to wait or is done. */
  function Next(w: Program, s: State, i: nat): Option<State>
    requires i < |s.companies|
  {
    var c := s.companies[i];
    if s.exited then None else
    match c.pc
    case Top => Some(Goto(s, i, if s.running then Fetch else Done))
    case Fetch => Some(Goto(s, i, if w == Good && c.left == c.right then Meet else LockFirst))
    case LockFirst => Take(s, i, First(w, c), LockSecond)
    case LockSecond => Take(s, i, Second(w, c), Hire)
    case Hire =>
      if Owns(s, i, c.left) && Owns(s, i, c.right) then
        Some(s.(companies := s.companies[i := c.(pc := UnlockRight, days := c.days + 1)]))
      else
        Some(s.(exited := true))      // Company_hire_interns checks the owners, and exits
    case UnlockRight => Release(s, i, c.right, UnlockLeft)
    case UnlockLeft => Release(s, i, c.left, if w == Good then Meet else Top)
    case Meet => Some(Goto(s, i, Top))
    case Done => None
  }

  datatype Event = Act(company: nat) | Stop

  function Step(w: Program, s: State, e: Event): Option<State>
  {
    if e.Stop? then Some(s.(running := false))
    else if e.company < |s.companies| then Next(w, s, e.company)
    else None
  }

  // ---------- runs ----------

  ghost predicate IsRun(w: Program, ss: seq<State>, es: seq<Event>)
  {
    && |ss| == |es| + 1
    && forall m :: 0 <= m < |es| ==> Step(w, ss[m], es[m]) == Some(ss[m + 1])
  }

  ghost predicate Reached(w: Program, n: nat, k: nat, s: State)
  {
    k > 0 && exists ss: seq<State>, es: seq<Event> :: IsRun(w, ss, es) && ss[0] == Init(n, k) && ss[|es|] == s
  }

  lemma ReachedInit(w: Program, n: nat, k: nat)
    requires k > 0
    ensures Reached(w, n, k, Init(n, k))
  {
    var ss, es: seq<Event> := [Init(n, k)], [];
    assert IsRun(w, ss, es) && ss[0] == Init(n, k) && ss[|es|] == Init(n, k);
  }

  lemma ReachedStep(w: Program, n: nat, k: nat, s: State, e: Event)
    requires Reached(w, n, k, s) && Step(w, s, e).Some?
    ensures Reached(w, n, k, Step(w, s, e).value)
  {
    var t := Step(w, s, e).value;
    var ss: seq<State>, es: seq<Event> :| IsRun(w, ss, es) && ss[0] == Init(n, k) && ss[|es|] == s;
    var ss', es' := ss + [t], es + [e];
    forall m | 0 <= m < |es'| ensures Step(w, ss'[m], es'[m]) == Some(ss'[m + 1]) {
      if m < |es| { assert Step(w, ss[m], es[m]) == Some(ss[m + 1]); }
    }
    assert IsRun(w, ss', es') && ss'[0] == Init(n, k) && ss'[|es'|] == t;
  }

  /** Somebody is not done and nobody can go on. */
  ghost predicate Stuck(w: Program, s: State)
  {
    && (exists i :: 0 <= i < |s.companies| && s.companies[i].pc != Done)
    && forall i :: 0 <= i < |s.companies| ==> Next(w, s, i) == None
  }

  // ---------- what every step keeps ----------

  /** Whether company `c` has intern `j`. */
  ghost predicate Has(w: Program, c: Company, j: nat)
  {
    match c.pc
    case LockSecond => j == First(w, c)
    case Hire => j == c.left || j == c.right
    case UnlockRight => j == c.left || j == c.right
    case UnlockLeft => j == c.left
    case _ => false
  }

  /** Where a company can be when there is only one intern. */
  ghost predicate Lonely(w: Program, pc: Pc)
  {
    pc !in {Hire, UnlockRight, UnlockLeft} && (w == Good ==> pc !in {LockFirst, LockSecond})
  }

  ghost predicate Inv(w: Program, n: nat, k: nat, s: State)
  {
    && k > 0 && |s.companies| == n && |s.interns| == k && !s.exited
    && (forall i :: 0 <= i < n ==> s.companies[i].left == i % k && s.companies[i].right == (i + 1) % k)
    && (forall i, j :: 0 <= i < n && 0 <= j < k ==> (s.interns[j] == Some(i) <==> Has(w, s.companies[i], j)))
    && (forall j :: 0 <= j < k && s.interns[j].Some? ==> s.interns[j].value < n)
    && (k == 1 ==> forall i :: 0 <= i < n ==> Lonely(w, s.companies[i].pc))
  }

  lemma InitInv(w: Program, n: nat, k: nat)
    requires k > 0
    ensures Inv(w, n, k, Init(n, k))
  {
  }

  lemma Interns(i: nat, k: nat)
    requires k > 0
    ensures i % k < k && (i + 1) % k < k
    ensures k > 1 ==> i % k != (i + 1) % k
    ensures k == 1 ==> i % k == (i + 1) % k == 0
  {
    if k > 1 { assert (i + 1) % k == if i % k == k - 1 then 0 else i % k + 1 by { Successor(i, k); } }
  }

  lemma Successor(i: nat, k: nat)
    requires k > 1
    ensures (i + 1) % k == if i % k == k - 1 then 0 else i % k + 1
  {
    var q, r := i / k, i % k;
    assert i == q * k + r;
    if r == k - 1 {
      Remainder(i + 1, q + 1, 0, k);
    } else {
      Remainder(i + 1, q, r + 1, k);
    }
  }

  lemma Remainder(x: nat, q: nat, r: nat, k: nat)
    requires r < k && x == q * k + r
    ensures x % k == r
  {
    NoMultiple(q - x / k, x % k - r, k);
  }

  lemma NoMultiple(d: int, e: int, k: int)
    requires d * k == e && -k < e < k
    ensures e == 0
  {
  }

  /** Company `i` becomes `c`, and with it the holder of intern `j` becomes `o`. */
  lemma UpdateKeeps(w: Program, n: nat, k: nat, s: State, i: nat, c: Company, j: nat, o: Option<nat>)
    requires Inv(w, n, k, s) && i < n && j < k
    requires c.left == s.companies[i].left && c.right == s.companies[i].right
    requires o == s.interns[j] || (o in {None, Some(i)} && s.interns[j] in {None, Some(i)})
    requires forall m :: 0 <= m < k ==> (Has(w, c, m) <==> if m == j then o == Some(i) else Has(w, s.companies[i], m))
    requires k == 1 ==> Lonely(w, c.pc)
    ensures Inv(w, n, k, s.(companies := s.companies[i := c], interns := s.interns[j := o]))
  {
    hide Has;
  }

  lemma MoveKeeps(w: Program, n: nat, k: nat, s: State, i: nat, c: Company)
    requires Inv(w, n, k, s) && i < n && c.left == s.companies[i].left && c.right == s.companies[i].right
    requires forall m :: 0 <= m < k ==> (Has(w, c, m) <==> Has(w, s.companies[i], m))
    requires k == 1 ==> Lonely(w, c.pc)
    ensures Inv(w, n, k, s.(companies := s.companies[i := c]))
  {
    assert s.interns[0] == Some(i) <==> Has(w, c, 0);
    UpdateKeeps(w, n, k, s, i, c, 0, s.interns[0]);
    assert s.interns[0 := s.interns[0]] == s.interns;
  }

  lemma TakesSecond(w: Program, n: nat, k: nat, s: State, i: nat)
    requires Inv(w, n, k, s) && i < n && Next(w, s, i).Some? && s.companies[i].pc == LockSecond
    ensures Inv(w, n, k, Next(w, s, i).value)
  {
    Interns(i, k);
    var c := s.companies[i];
    var f, j := First(w, c), Second(w, c);
    assert s.interns[j] == None && s.interns[f] == Some(i);
    UpdateKeeps(w, n, k, s, i, c.(pc := Hire), j, Some(i));
  }

  /** A company that hires has both its interns, so the check in Company_hire_interns never exits. */
  lemma HiresBoth(w: Program, n: nat, k: nat, s: State, i: nat)
    requires Inv(w, n, k, s) && i < n && s.companies[i].pc == Hire
    ensures s.interns[i % k] == s.interns[(i + 1) % k] == Some(i) && i % k != (i + 1) % k
  {
    Interns(i, k);
    assert Has(w, s.companies[i], i % k) && Has(w, s.companies[i], (i + 1) % k);
  }

  lemma ReleasesRight(w: Program, n: nat, k: nat, s: State, i: nat)
    requires Inv(w, n, k, s) && i < n && s.companies[i].pc == UnlockRight
    ensures Next(w, s, i).Some? && Inv(w, n, k, Next(w, s, i).value)
  {
    Interns(i, k);
    var c := s.companies[i];
    assert k > 1 && Has(w, c, c.right);
    UpdateKeeps(w, n, k, s, i, c.(pc := UnlockLeft), c.right, None);
  }

  lemma ReleasesLeft(w: Program, n: nat, k: nat, s: State, i: nat)
    requires Inv(w, n, k, s) && i < n && s.companies[i].pc == UnlockLeft
    ensures Next(w, s, i).Some? && Inv(w, n, k, Next(w, s, i).value)
  {
    Interns(i, k);
    var c := s.companies[i];
    assert k > 1 && Has(w, c, c.left);
    UpdateKeeps(w, n, k, s, i, c.(pc := if w == Good then Meet else Top), c.left, None);
  }

  lemma TakesFirst(w: Program, n: nat, k: nat, s: State, i: nat)
    requires Inv(w, n, k, s) && i < n && Next(w, s, i).Some? && s.companies[i].pc == LockFirst
    ensures Inv(w, n, k, Next(w, s, i).value)
  {
    Interns(i, k);
    var c := s.companies[i];
    UpdateKeeps(w, n, k, s, i, c.(pc := LockSecond), First(w, c), Some(i));
  }

  lemma FetchKeeps(w: Program, n: nat, k: nat, s: State, i: nat)
    requires Inv(w, n, k, s) && i < n && s.companies[i].pc == Fetch
    ensures Next(w, s, i).Some? && Inv(w, n, k, Next(w, s, i).value)
  {
    Interns(i, k);
    var c := s.companies[i];
    MoveKeeps(w, n, k, s, i, c.(pc := if w == Good && c.left == c.right then Meet else LockFirst));
  }

  lemma ActKeeps(w: Program, n: nat, k: nat, s: State, i: nat)
    requires Inv(w, n, k, s) && i < n && Next(w, s, i).Some?
    ensures Inv(w, n, k, Next(w, s, i).value)
  {
    var c := s.companies[i];
    match c.pc
    case LockFirst => TakesFirst(w, n, k, s, i);
    case LockSecond => TakesSecond(w, n, k, s, i);
    case UnlockRight => ReleasesRight(w, n, k, s, i);
    case UnlockLeft => ReleasesLeft(w, n, k, s, i);
    case Fetch => FetchKeeps(w, n, k, s, i);
    case Hire =>
      HiresBoth(w, n, k, s, i);
      MoveKeeps(w, n, k, s, i, c.(pc := UnlockRight, days := c.days + 1));
    case Top => MoveKeeps(w, n, k, s, i, c.(pc := if s.running then Fetch else Done));
    case Meet => MoveKeeps(w, n, k, s, i, c.(pc := Top));
    case Done =>
  }

  lemma {:induction false} RunKeeps(w: Program, n: nat, k: nat, ss: seq<State>, es: seq<Event>, m: nat)
    requires IsRun(w, ss, es) && Inv(w, n, k, ss[0]) && m <= |es|
    ensures Inv(w, n, k, ss[m])
  {
    if m == 0 {
    } else {
      RunKeeps(w, n, k, ss, es, m - 1);
      assert Step(w, ss[m - 1], es[m - 1]) == Some(ss[m]);
      StepKeeps(w, n, k, ss[m - 1], es[m - 1]);
    }
  }

  lemma StepKeeps(w: Program, n: nat, k: nat, s: State, e: Event)
    requires Inv(w, n, k, s) && Step(w, s, e).Some?
    ensures Inv(w, n, k, Step(w, s, e).value)
  {
    if e.Act? { ActKeeps(w, n, k, s, e.company); }
  }

  lemma ReachedInv(w: Program, n: nat, k: nat, s: State)
    requires Reached(w, n, k, s)
    ensures Inv(w, n, k, s)
  {
    var ss: seq<State>, es: seq<Event> :| IsRun(w, ss, es) && ss[0] == Init(n, k) && ss[|es|] == s;
    InitInv(w, n, k);
    RunKeeps(w, n, k, ss, es, |es|);
  }
}
