/**
  Calling `next_permutation` over and over from the ascending arrangement of
  n distinct values visits all n! arrangements, each once. The proof gives every
  arrangement its number in the order, and shows that a call adds one to it.
 */
module PermutationCount {
  import opened Permutation

  function Factorial(n: nat): (r: nat)
    ensures r >= 1
  {
    if n == 0 then 1 else n * Factorial(n - 1)
  }

  ghost predicate AllDifferent(s: seq<int>)
  {
    forall i, j :: 0 <= i < j < |s| ==> s[i] != s[j]
  }

  /** How many of the values are less than `x`. */
  ghost function Below(x: int, s: seq<int>): (r: nat)
    ensures r <= |s|
  {
    if s == [] then 0 else (if s[0] < x then 1 else 0) + Below(x, s[1..])
  }

  /** The number of arrangements of the same values that come before `s`. */
  ghost function Rank(s: seq<int>): nat
  {
    if s == [] then 0 else Below(s[0], s[1..]) * Factorial(|s| - 1) + Rank(s[1..])
  }

  // ---------- counting the lesser values ----------

  lemma {:induction false} BelowConcat(x: int, a: seq<int>, b: seq<int>)
    ensures Below(x, a + b) == Below(x, a) + Below(x, b)
    decreases |a|
  {
    if a == [] {
      assert a + b == b;
    } else {
      BelowConcat(x, a[1..], b);
      assert (a + b)[1..] == a[1..] + b;
    }
  }

  lemma {:induction false} BelowValues(x: int, a: seq<int>, b: seq<int>)
    requires SameValues(a, b)
    ensures Below(x, a) == Below(x, b)
    decreases |a|
  {
    SameLength(a, b);
    if a == [] {
    } else {
      Headed(a);
      assert a[0] in multiset(b);
      var k :| 0 <= k < |b| && b[k] == a[0];
      var u, v := b[..k], b[k + 1..];
      assert b == u + [b[k]] + v;
      assert multiset(b) == multiset{a[0]} + multiset(u + v);
      Cancel(multiset{a[0]}, multiset(a[1..]), multiset(u + v));
      BelowValues(x, a[1..], u + v);
      BelowConcat(x, u, v);
      BelowConcat(x, u + [b[k]], v);
      BelowConcat(x, u, [b[k]]);
    }
  }

  lemma {:induction false} BelowGrows(x: int, y: int, s: seq<int>)
    requires x <= y
    ensures Below(x, s) <= Below(y, s)
    ensures (forall k :: 0 <= k < |s| && s[k] < y ==> s[k] < x) ==> Below(x, s) == Below(y, s)
    decreases |s|
  {
    if s == [] {
    } else {
      BelowGrows(x, y, s[1..]);
      if forall k :: 0 <= k < |s| && s[k] < y ==> s[k] < x {
        assert forall k :: 0 <= k < |s[1..]| && s[1..][k] < y ==> s[1..][k] < x by {
          assert forall k :: 0 <= k < |s[1..]| ==> s[1..][k] == s[k + 1];
        }
      }
    }
  }

  lemma {:induction false} BelowNone(x: int, s: seq<int>)
    requires forall k :: 0 <= k < |s| ==> s[k] >= x
    ensures Below(x, s) == 0
    decreases |s|
  {
    if s == [] {
    } else {
      BelowNone(x, s[1..]);
    }
  }

  lemma {:induction false} BelowAll(x: int, s: seq<int>)
    requires forall k :: 0 <= k < |s| ==> s[k] < x
    ensures Below(x, s) == |s|
    decreases |s|
  {
    if s == [] {
    } else {
      BelowAll(x, s[1..]);
    }
  }

  // ---------- the rank ----------

  lemma PlaceValue(b: nat, n: nat, f: nat, r: nat)
    requires b <= n && r < f
    ensures b * f + r < (n + 1) * f
    ensures b < n ==> b * f + r < n * f
  {
    assert b * f + f == (b + 1) * f;
    TimesGrows(b + 1, n + 1, f);
    if b < n { TimesGrows(b + 1, n, f); }
  }

  lemma TimesGrows(b: nat, n: nat, f: nat)
    requires b <= n
    ensures b * f <= n * f
  {
  }

  lemma {:induction false} RankIsSmall(s: seq<int>)
    ensures Rank(s) < Factorial(|s|)
    decreases |s|
  {
    if s == [] {
    } else {
      RankIsSmall(s[1..]);
      PlaceValue(Below(s[0], s[1..]), |s| - 1, Factorial(|s| - 1), Rank(s[1..]));
    }
  }

  lemma {:induction false} RankOfAscending(s: seq<int>)
    requires Ascending(s)
    ensures Rank(s) == 0
    decreases |s|
  {
    if s == [] {
    } else {
      RankOfAscending(s[1..]);
      BelowNone(s[0], s[1..]);
    }
  }

  lemma {:induction false} RankOfDescending(s: seq<int>)
    requires Descending(s) && AllDifferent(s)
    ensures Rank(s) == Factorial(|s|) - 1
    decreases |s|
  {
    if s == [] {
    } else {
      RankOfDescending(s[1..]);
      BelowAll(s[0], s[1..]);
      OneMore(|s| - 1, Factorial(|s| - 1));
    }
  }

  /** A common beginning adds the same to the rank of two arrangements of the rest. */
  lemma {:induction false} RankBehind(c: seq<int>, u: seq<int>, v: seq<int>)
    requires SameValues(u, v)
    ensures Rank(c + v) - Rank(c + u) == Rank(v) - Rank(u)
    decreases |c|
  {
    SameLength(u, v);
    if c == [] {
      assert c + u == u && c + v == v;
    } else {
      RankBehind(c[1..], u, v);
      assert (c + u)[1..] == c[1..] + u && (c + v)[1..] == c[1..] + v;
      BelowConcat(c[0], c[1..], u);
      BelowConcat(c[0], c[1..], v);
      BelowValues(c[0], u, v);
    }
  }

  /** A greater first value outweighs any arrangement of the rest. */
  lemma RankByHead(u: seq<int>, v: seq<int>)
    requires u != [] && v != [] && SameValues(u, v) && u[0] < v[0]
    ensures Below(u[0], u[1..]) < Below(v[0], v[1..]) && Rank(u) < Rank(v)
  {
    SameLength(u, v);
    BelowValues(v[0], u, v);
    BelowGrows(u[0], v[0], u[1..]);
    RankIsSmall(u[1..]);
    PlaceValue(Below(u[0], u[1..]), Below(v[0], v[1..]), Factorial(|u| - 1), Rank(u[1..]));
  }

  /** The rank follows the order. */
  lemma RankIsMonotone(a: seq<int>, b: seq<int>)
    requires SameValues(a, b) && Less(a, b)
    ensures Rank(a) < Rank(b)
  {
    SameLength(a, b);
    var k :| LessAt(a, b, k);
    var c := a[..k];
    TailValues(a, b, c);
    RankByHead(a[k..], b[k..]);
    RankBehind(c, a[k..], b[k..]);
    assert a == c + a[k..] && b == c + b[k..];
  }

  lemma {:induction false} LessIsTotal(a: seq<int>, b: seq<int>)
    requires |a| == |b| && a != b
    ensures Less(a, b) || Less(b, a)
    decreases |a|
  {
    if a[0] == b[0] {
      assert a == [a[0]] + a[1..] && b == [b[0]] + b[1..];
      LessIsTotal(a[1..], b[1..]);
      if Less(a[1..], b[1..]) {
        LessBehind([a[0]], a[1..], b[1..]);
      } else {
        LessBehind([a[0]], b[1..], a[1..]);
      }
    } else {
      assert LessAt(a, b, 0) || LessAt(b, a, 0);
    }
  }

  /** Two arrangements of the same values with the same rank are the same. */
  lemma RankIsInjective(a: seq<int>, b: seq<int>)
    requires SameValues(a, b) && Rank(a) == Rank(b)
    ensures a == b
  {
    SameLength(a, b);
    if a != b {
      LessIsTotal(a, b);
      if Less(a, b) { RankIsMonotone(a, b); } else { RankIsMonotone(b, a); }
    }
  }

  // ---------- a call adds one ----------

  /** One more of the values behind is less than the new head than was than the old. */
  lemma BelowStep(x: int, d: seq<int>, y: int, a: seq<int>)
    requires x < y && multiset{x} + multiset(d) == multiset{y} + multiset(a)
    requires forall k :: 0 <= k < |d| ==> d[k] != x && (d[k] > x ==> d[k] >= y)
    ensures Below(y, a) == Below(x, d) + 1
  {
    var u, v := [x] + d, [y] + a;
    assert u[1..] == d && v[1..] == a;
    assert multiset(u) == multiset{x} + multiset(d) && multiset(v) == multiset{y} + multiset(a);
    BelowValues(y, u, v);
    BelowGrows(x, y, d);
  }

  lemma RankOfStep(x: int, d: seq<int>, y: int, a: seq<int>)
    requires x < y && multiset{x} + multiset(d) == multiset{y} + multiset(a)
    requires Descending(d) && AllDifferent(d) && Ascending(a) && |a| == |d|
    requires forall k :: 0 <= k < |d| ==> d[k] != x && (d[k] > x ==> d[k] >= y)
    ensures Rank([y] + a) == Rank([x] + d) + 1
  {
    hide Below, Factorial, Rank;
    BelowStep(x, d, y, a);
    RankOfDescending(d);
    RankOfAscending(a);
    RankHeaded(x, d);
    RankHeaded(y, a);
    OneMore(Below(x, d), Factorial(|d|));
  }

  lemma RankHeaded(x: int, d: seq<int>)
    ensures Rank([x] + d) == Below(x, d) * Factorial(|d|) + Rank(d)
  {
    assert ([x] + d)[1..] == d;
  }

  lemma OneMore(b: nat, f: nat)
    ensures (b + 1) * f == b * f + f
  {
  }

  /** A tail of different values, seen from the whole. */
  lemma DifferentTail(s: seq<int>, pre: seq<int>, x: int, d: seq<int>)
    requires s == pre + [x] + d && AllDifferent(s)
    ensures AllDifferent(d) && forall k :: 0 <= k < |d| ==> d[k] != x
  {
    var n := |pre| + 1;
    assert s[n - 1] == x;
    forall i, j | 0 <= i < j < |d| ensures d[i] != d[j] {
      assert s[n + i] == d[i] && s[n + j] == d[j];
    }
    forall k | 0 <= k < |d| ensures d[k] != x {
      assert s[n + k] == d[k];
    }
  }

  lemma RankOfNext(s: seq<int>)
    requires Next(s).0 && AllDifferent(s)
    ensures Rank(Next(s).1) == Rank(s) + 1
  {
    var pre, x, d, y, a := NextShape(s);
    RankOfShape(s, Next(s).1, pre, x, d, y, a);
  }

  lemma RankOfShape(s: seq<int>, t: seq<int>, pre: seq<int>, x: int, d: seq<int>, y: int, a: seq<int>)
    requires StepShape(s, t, pre, x, d, y, a) && AllDifferent(s)
    ensures Rank(t) == Rank(s) + 1
  {
    var u, v := [x] + d, [y] + a;
    assert s == pre + u && t == pre + v;
    assert multiset(u) == multiset{x} + multiset(d) && multiset(v) == multiset{y} + multiset(a);
    SameLength(u, v);
    DifferentTail(s, pre, x, d);
    RankOfStep(x, d, y, a);
    RankBehind(pre, u, v);
  }

  lemma Twice(b: seq<int>, i: nat, j: nat)
    requires i < j < |b| && b[i] == b[j]
    ensures multiset(b)[b[i]] >= 2
  {
    assert b == b[..i] + [b[i]] + b[i + 1..j] + [b[j]] + b[j + 1..];
  }

  lemma DifferentValues(a: seq<int>, b: seq<int>)
    requires SameValues(a, b) && AllDifferent(a)
    ensures AllDifferent(b)
  {
    forall i, j | 0 <= i < j < |b| ensures b[i] != b[j] {
      Occurs(a, b[i]);
      if b[i] == b[j] {
        Twice(b, i, j);
      }
    }
  }

  lemma {:induction false} Occurs(a: seq<int>, x: int)
    requires AllDifferent(a)
    ensures multiset(a)[x] <= 1
    decreases |a|
  {
    if a == [] {
    } else {
      Headed(a);
      Occurs(a[1..], x);
      if x == a[0] {
        assert x !in a[1..];
        assert x !in multiset(a[1..]);
      }
    }
  }

  /** There is a next arrangement exactly when the rank is not the last one. */
  lemma LastRank(s: seq<int>)
    requires AllDifferent(s)
    ensures Next(s).0 <==> Rank(s) + 1 < Factorial(|s|)
  {
    if Next(s).0 {
      RankOfNext(s);
      NextIsSuccessor(s);
      SameLength(Next(s).1, s);
      RankIsSmall(Next(s).1);
    } else if |s| >= 2 {
      StepsDescend(s);
      RankOfDescending(s);
    } else {
      assert Factorial(1) == 1;
    }
  }

  /** The array after `k` calls. */
  ghost function After(s: seq<int>, k: nat): seq<int>
  {
    if k == 0 then s else Next(After(s, k - 1)).1
  }

  lemma {:induction false} AfterHasRank(s: seq<int>, k: nat, f: nat)
    requires Ascending(s) && AllDifferent(s) && f == Factorial(|s|) && k < f
    ensures SameValues(After(s, k), s) && AllDifferent(After(s, k)) && Rank(After(s, k)) == k
    decreases k
  {
    hide Next, Rank, AllDifferent, Ascending, Factorial;
    if k == 0 {
      RankOfAscending(s);
    } else {
      AfterHasRank(s, k - 1, f);
      CallFrom(s, After(s, k - 1), k - 1, f);
    }
  }

  /** One more call, from the arrangement with rank `k`. */
  lemma CallFrom(s: seq<int>, t: seq<int>, k: nat, f: nat)
    requires SameValues(t, s) && AllDifferent(t) && Rank(t) == k && f == Factorial(|s|) && k + 1 < f
    ensures var u := Next(t).1; SameValues(u, s) && AllDifferent(u) && Rank(u) == k + 1
  {
    hide Next, Rank, AllDifferent, Factorial;
    MoreCalls(s, t);
    OneCall(t);
  }

  lemma MoreCalls(s: seq<int>, t: seq<int>)
    requires SameValues(t, s) && AllDifferent(t)
    ensures Next(t).0 <==> Rank(t) + 1 < Factorial(|s|)
  {
    SameLength(t, s);
    LastRank(t);
  }

  lemma OneCall(t: seq<int>)
    requires Next(t).0 && AllDifferent(t)
    ensures SameValues(Next(t).1, t) && AllDifferent(Next(t).1) && Rank(Next(t).1) == Rank(t) + 1
  {
    RankOfNext(t);
    NextIsSuccessor(t);
    DifferentValues(t, Next(t).1);
  }

  /**
    From the ascending arrangement of distinct values, the states before and
    after the n! - 1 calls that answer true are all the arrangements, each once;
    the next call answers false.
   */
  lemma VisitsAllOnce(s: seq<int>)
    requires Ascending(s) && AllDifferent(s)
    ensures forall k :: 0 <= k < Factorial(|s|) ==>
      SameValues(After(s, k), s) && (Next(After(s, k)).0 <==> k + 1 < Factorial(|s|))
    ensures forall p :: SameValues(p, s) ==> Visited(s, p, Factorial(|s|))
    ensures forall i, j :: 0 <= i < j < Factorial(|s|) ==> After(s, i) != After(s, j)
  {
    forall k | 0 <= k < Factorial(|s|)
      ensures SameValues(After(s, k), s) && Rank(After(s, k)) == k
      ensures Next(After(s, k)).0 <==> k + 1 < Factorial(|s|) {
      AfterHasRank(s, k, Factorial(|s|));
      MoreCalls(s, After(s, k));
    }
    forall p | SameValues(p, s) ensures Visited(s, p, Factorial(|s|)) {
      IsVisited(s, p);
    }
  }

  /** Fewer than `n` calls lead to `p`. */
  ghost predicate Visited(s: seq<int>, p: seq<int>, n: nat)
  {
    exists k :: 0 <= k < n && After(s, k) == p
  }

  lemma IsVisited(s: seq<int>, p: seq<int>)
    requires Ascending(s) && AllDifferent(s) && SameValues(p, s)
    ensures Visited(s, p, Factorial(|s|))
  {
    SameLength(p, s);
    RankIsSmall(p);
    AfterHasRank(s, Rank(p), Factorial(|s|));
    RankIsInjective(After(s, Rank(p)), p);
  }

  // ---------- values that repeat ----------

  lemma {:induction false} AfterNext(t: seq<int>, k: nat)
    ensures After(Next(t).1, k) == After(t, k + 1)
  {
    hide Next;
    if k == 0 {
      assert After(t, 1) == Next(After(t, 0)).1;
    } else {
      AfterNext(t, k - 1);
    }
  }

  /** `k` calls from `t`, all of them true, lead to `u`. */
  ghost predicate Leads(t: seq<int>, k: nat, u: seq<int>)
  {
    After(t, k) == u && forall j :: 0 <= j < k ==> Next(After(t, j)).0
  }

  /** From an arrangement the calls come to every one that is not before it. */
  lemma {:induction false} ComesTo(t: seq<int>, p: seq<int>) returns (k: nat)
    requires SameValues(p, t) && LessEq(t, p)
    ensures Leads(t, k, p)
    decreases Rank(p) - Rank(t)
  {
    hide Next, Rank, Less;
    if t == p {
      k := 0;
    } else {
      TrueIffNotGreatest(t);
      NextIsSuccessor(t);
      RankIsMonotone(t, p);
      var u := Next(t).1;
      RankIsMonotone(t, u);
      NotAfter(u, p);
      var m := ComesTo(u, p);
      k := m + 1;
      AfterNext(t, m);
      forall j | 0 <= j < k ensures Next(After(t, j)).0 {
        if j > 0 { AfterNext(t, j - 1); }
      }
    }
  }

  lemma NotAfter(u: seq<int>, p: seq<int>)
    requires SameValues(u, p) && LessEq(u, p)
    ensures Rank(u) <= Rank(p)
  {
    if u != p { RankIsMonotone(u, p); }
  }

  /** Calls that answer true go up in the order. */
  lemma {:induction false} CallsRise(s: seq<int>, i: nat, j: nat)
    requires i <= j && forall k :: 0 <= k < j ==> Next(After(s, k)).0
    ensures SameValues(After(s, j), s) && Rank(After(s, i)) + j - i <= Rank(After(s, j))
    decreases j
  {
    hide Next, Rank;
    if j == 0 {
      assert After(s, 0) == s;
    } else if i == j {
      CallsRise(s, i - 1, j - 1);
      NextIsSuccessor(After(s, j - 1));
    } else {
      CallsRise(s, i, j - 1);
      NextIsSuccessor(After(s, j - 1));
      RankIsMonotone(After(s, j - 1), After(s, j));
    }
  }

  /**
    From the ascending arrangement of any values, repeats included, the states
    before the first call that answers false are all the arrangements, each once.
   */
  lemma VisitsEachOnce(s: seq<int>) returns (n: nat)
    requires Ascending(s)
    ensures n > 0 && forall k :: 0 <= k < n ==> SameValues(After(s, k), s) && (Next(After(s, k)).0 <==> k + 1 < n)
    ensures forall p :: SameValues(p, s) ==> Visited(s, p, n)
    ensures forall i, j :: 0 <= i < j < n ==> After(s, i) != After(s, j)
  {
    hide Next, Rank, Less, Ascending;
    var g, last := GreatestIsReached(s);
    n := last + 1;
    forall k | 0 <= k < n ensures SameValues(After(s, k), s) && (Next(After(s, k)).0 <==> k + 1 < n) {
      CallsRise(s, k, k);
    }
    forall p | SameValues(p, s) ensures Visited(s, p, n) {
      AscendingIsLeast(s, p);
      var k := ComesTo(s, p);
      assert k < n && After(s, k) == p;
    }
    forall i, j | 0 <= i < j < n ensures After(s, i) != After(s, j) {
      CallsRise(s, i, j);
    }
  }

  lemma GreatestIsReached(s: seq<int>) returns (g: seq<int>, k: nat)
    requires Ascending(s)
    ensures SameValues(g, s) && !Next(g).0 && Leads(s, k, g)
  {
    g := Reversed(s);
    ReversedValues(s);
    AscendingIsLeast(s, g);
    k := ComesTo(s, g);
    ReversedDescends(s);
    DescendingIsLast(g);
  }

  lemma ReversedDescends(s: seq<int>)
    requires Ascending(s)
    ensures Descending(Reversed(s))
  {
  }

  lemma DescendingIsLast(g: seq<int>)
    requires Descending(g)
    ensures !Next(g).0
  {
    if |g| >= 2 {
      var i := PivotFrom(g, |g| - 2);
      assert i >= 0 ==> Rises(g, i);
    }
  }
}
