/** The billable days of the companies: every pass through the two locks brings exactly one. */
module CompanyDays {
  import opened Prelude
  import opened CompanyModel

  /** How often company `i` has acted from place `pc` in the first `m` steps. */
  ghost function Times(ss: seq<State>, es: seq<Event>, i: nat, pc: Pc, m: nat): nat
    requires |ss| == |es| + 1 && m <= |es| && forall l :: 0 <= l < |ss| ==> i < |ss[l].companies|
  {
    if m == 0 then 0
    else
      Times(ss, es, i, pc, m - 1)
      + (if es[m - 1] == Act(i) && ss[m - 1].companies[i].pc == pc then 1 else 0)
  }

  /** How often it has given up the last of its interns. */
  ghost function Passes(ss: seq<State>, es: seq<Event>, i: nat, m: nat): nat
    requires |ss| == |es| + 1 && m <= |es| && forall l :: 0 <= l < |ss| ==> i < |ss[l].companies|
  {
    Times(ss, es, i, UnlockLeft, m)
  }

  lemma {:induction false} SameCompanies(w: Program, ss: seq<State>, es: seq<Event>, m: nat)
    requires IsRun(w, ss, es) && m <= |es|
    ensures |ss[m].companies| == |ss[0].companies|
  {
    if m == 0 {
    } else {
      SameCompanies(w, ss, es, m - 1);
      assert Step(w, ss[m - 1], es[m - 1]) == Some(ss[m]);
    }
  }

  /** Has hired in this pass, and still has an intern. */
  predicate Hired(pc: Pc)
  {
    pc == UnlockRight || pc == UnlockLeft
  }

  /** What somebody else does, or stopping, leaves a company as it is. */
  lemma OthersStep(w: Program, s: State, e: Event, i: nat)
    requires Step(w, s, e).Some? && i < |s.companies| && e != Act(i)
    ensures i < |Step(w, s, e).value.companies| && Step(w, s, e).value.companies[i] == s.companies[i]
  {
  }

  /** One step of anybody changes a company's account as its own place says. */
  lemma DaysStep(w: Program, n: nat, k: nat, s: State, e: Event, i: nat)
    requires Inv(w, n, k, s) && Step(w, s, e).Some? && i < n
    ensures i < |s.companies| && i < |Step(w, s, e).value.companies|
    ensures var c, d := s.companies[i], Step(w, s, e).value.companies[i];
            var passed := if e == Act(i) && c.pc == UnlockLeft then 1 else 0;
            d.days - (if Hired(d.pc) then 1 else 0) == c.days - (if Hired(c.pc) then 1 else 0) + passed
  {
    CanHire(w, n, k, s, i);
    hide Inv;
    if e == Act(i) {
    } else {
      hide Step;
      OthersStep(w, s, e, i);
    }
  }

  lemma CanHire(w: Program, n: nat, k: nat, s: State, i: nat)
    requires Inv(w, n, k, s) && i < n
    ensures i < |s.companies| && !s.exited
    ensures s.companies[i].pc == Hire ==> Owns(s, i, s.companies[i].left) && Owns(s, i, s.companies[i].right)
  {
    if s.companies[i].pc == Hire { HiresBoth(w, n, k, s, i); }
  }

  /**
    In every run of either program a company has as many billable days as it has
    let go of its two interns again, and one more while it still has one after
    hiring: no pass through the locks is without its hire, and none has two.
   */
  lemma {:induction false} DaysAreCounted(w: Program, n: nat, k: nat, ss: seq<State>, es: seq<Event>, i: nat, m: nat)
    requires k > 0 && IsRun(w, ss, es) && ss[0] == Init(n, k) && i < n && m <= |es|
    ensures forall l :: 0 <= l < |ss| ==> i < |ss[l].companies|
    ensures ss[m].companies[i].days == Passes(ss, es, i, m) + if Hired(ss[m].companies[i].pc) then 1 else 0
  {
    forall l | 0 <= l < |ss| ensures i < |ss[l].companies| {
      SameCompanies(w, ss, es, l);
    }
    if m == 0 {
    } else {
      DaysAreCounted(w, n, k, ss, es, i, m - 1);
      InitInv(w, n, k);
      RunKeeps(w, n, k, ss, es, m - 1);
      assert Step(w, ss[m - 1], es[m - 1]) == Some(ss[m]);
      hide Inv, Step, IsRun;
      DaysStep(w, n, k, ss[m - 1], es[m - 1], i);
    }
  }

  /** Inside the body of the loop. */
  predicate InLoop(pc: Pc)
  {
    pc != Top && pc != Done
  }

  /** What one step of anybody does to a company's place. */
  lemma PlaceStep(w: Program, n: nat, k: nat, s: State, e: Event, i: nat)
    requires Inv(w, n, k, s) && Step(w, s, e).Some? && i < n && i < |s.companies|
    requires w == Bad ==> s.companies[i].pc != Meet
    ensures i < |Step(w, s, e).value.companies|
    ensures var c, d := s.companies[i], Step(w, s, e).value.companies[i];
            && (w == Bad ==> d.pc != Meet)
            && (e != Act(i) ==> d.pc == c.pc)
            && (e == Act(i) ==>
                  && InLoop(d.pc) == ((c.pc == Top && s.running) || (InLoop(c.pc) && c.pc != LastPlace(w)))
                  && (c.pc == LockFirst ==> d.pc == LockSecond) && (c.pc == LockSecond ==> d.pc == Hire)
                  && (c.pc == Hire ==> d.pc == UnlockRight) && (c.pc == UnlockRight ==> d.pc == UnlockLeft))
  {
    CanHire(w, n, k, s, i);
    hide Inv;
    if e == Act(i) {
    } else {
      hide Step;
      OthersStep(w, s, e, i);
    }
  }

  /** Where the body of the loop ends: a meeting in good_company.c, the second unlock in bad_company.c. */
  function LastPlace(w: Program): Pc
  {
    if w == Good then Meet else UnlockLeft
  }

  /** How often it has found `running` set and gone into the loop. */
  ghost function Rounds(ss: seq<State>, es: seq<Event>, i: nat, m: nat): nat
    requires |ss| == |es| + 1 && m <= |es| && forall l :: 0 <= l < |ss| ==> i < |ss[l].companies|
  {
    if m == 0 then 0
    else
      Rounds(ss, es, i, m - 1)
      + (if es[m - 1] == Act(i) && ss[m - 1].companies[i].pc == Top && ss[m - 1].running then 1 else 0)
  }

  /**
    Every round of the loop ends in its last place once: in good_company.c a company
    has held as many board meetings as it has begun rounds, the present one apart;
    in bad_company.c it has given its interns back as often, and holds no meetings.
   */
  lemma {:induction false} RoundsAreCounted(w: Program, n: nat, k: nat, ss: seq<State>, es: seq<Event>, i: nat, m: nat)
    requires k > 0 && IsRun(w, ss, es) && ss[0] == Init(n, k) && i < n && m <= |es|
    ensures forall l :: 0 <= l < |ss| ==> i < |ss[l].companies|
    ensures w == Bad ==> ss[m].companies[i].pc != Meet
    ensures Rounds(ss, es, i, m) ==
            Times(ss, es, i, LastPlace(w), m) + if InLoop(ss[m].companies[i].pc) then 1 else 0
  {
    forall l | 0 <= l < |ss| ensures i < |ss[l].companies| {
      SameCompanies(w, ss, es, l);
    }
    if m == 0 {
    } else {
      RoundsAreCounted(w, n, k, ss, es, i, m - 1);
      InitInv(w, n, k);
      RunKeeps(w, n, k, ss, es, m - 1);
      assert Step(w, ss[m - 1], es[m - 1]) == Some(ss[m]);
      hide Inv, Step, IsRun;
      PlaceStep(w, n, k, ss[m - 1], es[m - 1], i);
    }
  }

  /** With two interns or more every company can have a billable day. */
  lemma EverybodyCanHire(w: Program, n: nat, k: nat, i: nat) returns (s: State)
    requires k >= 2 && i < n
    ensures Reached(w, n, k, s) && i < |s.companies| && s.companies[i].days == 1
  {
    Interns(i, k);
    s := Init(n, k);
    ReachedInit(w, n, k);
    var c := s.companies[i];
    s := Acted(w, n, k, s, i);
    assert s.companies[i] == c.(pc := Fetch) && s.interns == Init(n, k).interns;
    s := Acted(w, n, k, s, i);
    assert s.companies[i] == c.(pc := LockFirst) && s.interns == Init(n, k).interns;
    s := Acted(w, n, k, s, i);
    assert s.companies[i] == c.(pc := LockSecond) && s.interns == Init(n, k).interns[First(w, c) := Some(i)];
    s := Acted(w, n, k, s, i);
    assert s.companies[i] == c.(pc := Hire) && Owns(s, i, c.left) && Owns(s, i, c.right);
    s := Acted(w, n, k, s, i);
  }

  lemma Acted(w: Program, n: nat, k: nat, s: State, i: nat) returns (t: State)
    requires Reached(w, n, k, s) && i < |s.companies| && Next(w, s, i).Some?
    ensures Next(w, s, i) == Some(t) && Reached(w, n, k, t)
  {
    hide Reached;
    ReachedStep(w, n, k, s, Act(i));
    t := Next(w, s, i).value;
  }
}
