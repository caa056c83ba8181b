/**
  `next_permutation` of algorithm.c: the lexicographic successor among the
  arrangements of the same values, computed in place.
 */
module Permutation {

  // ---------- the order ----------

  /** `a` comes before `b`, which first differs from it at `i`. */
  ghost predicate LessAt(a: seq<int>, b: seq<int>, i: int)
  {
    0 <= i < |a| && i < |b| && a[..i] == b[..i] && a[i] < b[i]
  }

  ghost predicate Less(a: seq<int>, b: seq<int>)
  {
    exists i :: LessAt(a, b, i)
  }

  ghost predicate LessEq(a: seq<int>, b: seq<int>)
  {
    a == b || Less(a, b)
  }

  ghost predicate Ascending(s: seq<int>)
  {
    forall i, j :: 0 <= i < j < |s| ==> s[i] <= s[j]
  }

  ghost predicate Descending(s: seq<int>)
  {
    forall i, j :: 0 <= i < j < |s| ==> s[i] >= s[j]
  }

  ghost predicate SameValues(a: seq<int>, b: seq<int>)
  {
    multiset(a) == multiset(b)
  }

  lemma LessBehind(c: seq<int>, a: seq<int>, b: seq<int>)
    requires LessEq(a, b)
    ensures LessEq(c + a, c + b)
  {
    if a != b {
      var i :| LessAt(a, b, i);
      assert (c + a)[..|c| + i] == c + a[..i];
      assert (c + b)[..|c| + i] == c + b[..i];
      assert LessAt(c + a, c + b, |c| + i);
    }
  }

  lemma Headed(s: seq<int>)
    requires s != []
    ensures s == [s[0]] + s[1..] && multiset(s) == multiset{s[0]} + multiset(s[1..])
  {
    assert s == [s[0]] + s[1..];
  }

  lemma Cancel(a: multiset<int>, b: multiset<int>, c: multiset<int>)
    requires a + b == a + c
    ensures b == c
  {
    forall x ensures b[x] == c[x] {
      assert (a + b)[x] == (a + c)[x];
    }
  }

  lemma SameLength(a: seq<int>, b: seq<int>)
    requires SameValues(a, b)
    ensures |a| == |b|
  {
    assert |multiset(a)| == |a| && |multiset(b)| == |b|;
  }

  /** An ascending sequence is the least arrangement of its values. */
  lemma {:induction false} AscendingIsLeast(a: seq<int>, b: seq<int>)
    requires Ascending(a) && SameValues(a, b)
    ensures LessEq(a, b)
    decreases |a|
  {
    SameLength(a, b);
    if a == [] {
    } else {
      Headed(a);
      Headed(b);
      assert b[0] in multiset(a);
      if a[0] == b[0] {
        Cancel(multiset{a[0]}, multiset(a[1..]), multiset(b[1..]));
        AscendingIsLeast(a[1..], b[1..]);
        LessBehind([a[0]], a[1..], b[1..]);
      } else {
        assert LessAt(a, b, 0);
      }
    }
  }

  /** A descending one is the greatest. */
  lemma {:induction false} DescendingIsGreatest(a: seq<int>, b: seq<int>)
    requires Descending(a) && SameValues(a, b)
    ensures LessEq(b, a)
    decreases |a|
  {
    SameLength(a, b);
    if a == [] {
    } else {
      Headed(a);
      Headed(b);
      assert b[0] in multiset(a);
      if a[0] == b[0] {
        Cancel(multiset{a[0]}, multiset(a[1..]), multiset(b[1..]));
        DescendingIsGreatest(a[1..], b[1..]);
        LessBehind([a[0]], b[1..], a[1..]);
      } else {
        assert LessAt(b, a, 0);
      }
    }
  }

  lemma LessAtExcludes(a: seq<int>, b: seq<int>, i: int, j: int)
    requires LessAt(a, b, i)
    ensures !LessAt(b, a, j)
  {
    if 0 <= j < i {
      assert a[j] == a[..i][j] && b[j] == b[..i][j];
    }
    if i < j && j <= |a| && j <= |b| {
      assert a[i] == a[..j][i] && b[i] == b[..j][i];
    }
  }

  lemma LessIsIrreflexive(a: seq<int>, b: seq<int>)
    requires Less(a, b)
    ensures a != b && !Less(b, a)
  {
    var i :| LessAt(a, b, i);
    forall j ensures !LessAt(b, a, j) {
      LessAtExcludes(a, b, i, j);
    }
  }

  lemma EqualIsNotLess(a: seq<int>)
    ensures !Less(a, a)
  {
  }

  // ---------- what the code computes ----------

  predicate Rises(s: seq<int>, k: int)
    requires 0 <= k && k + 1 < |s|
  {
    s[k] < s[k + 1]
  }

  /** The last position at or below `i` whose value is less than the next one, or -1. */
  function PivotFrom(s: seq<int>, i: int): (r: int)
    requires -1 <= i < |s| - 1 || i == -1
    ensures -1 <= r <= i
    ensures r >= 0 ==> Rises(s, r)
    ensures forall k :: r < k <= i ==> !Rises(s, k)
    decreases i + 1
  {
    if i == -1 || Rises(s, i) then i else PivotFrom(s, i - 1)
  }

  /** The last position at or below `j` whose value exceeds that at `i`. */
  function LastAbove(s: seq<int>, i: nat, j: nat): (r: nat)
    requires i + 1 < |s| && i < j < |s| && s[i] < s[i + 1]
    ensures i < r <= j && s[i] < s[r]
    ensures forall k :: r < k <= j ==> s[k] <= s[i]
    decreases j
  {
    if s[i] < s[j] then j else LastAbove(s, i, j - 1)
  }

  function Swapped(s: seq<int>, i: nat, j: nat): seq<int>
    requires i < |s| && j < |s|
  {
    s[i := s[j]][j := s[i]]
  }

  function Reversed(s: seq<int>): (r: seq<int>)
    ensures |r| == |s|
    ensures forall k :: 0 <= k < |s| ==> r[k] == s[|s| - 1 - k]
  {
    seq(|s|, k requires 0 <= k < |s| => s[|s| - 1 - k])
  }

  /** The step at the pivot `i`: exchange it with the last greater value, and turn what is behind it. */
  function StepOf(s: seq<int>, i: nat): seq<int>
    requires i + 1 < |s| && s[i] < s[i + 1]
  {
    var t := Swapped(s, i, LastAbove(s, i, |s| - 1));
    t[..i + 1] + Reversed(t[i + 1..])
  }

  function Next(s: seq<int>): (r: (bool, seq<int>))
  {
    if |s| < 2 then (false, s)
    else
      var i := PivotFrom(s, |s| - 2);
      if i == -1 then (false, Reversed(s))
      else (true, StepOf(s, i))
  }

  // ---------- it is the successor ----------

  lemma {:induction false} StepsDescend(s: seq<int>)
    requires forall k :: 0 <= k < |s| - 1 ==> !Rises(s, k)
    ensures Descending(s)
    decreases |s|
  {
    if |s| <= 1 {
    } else {
      forall k | 0 <= k < |s| - 2 ensures !Rises(s[1..], k) {
        assert !Rises(s, k + 1);
      }
      StepsDescend(s[1..]);
      assert !Rises(s, 0);
      forall i, j | 0 <= i < j < |s| ensures s[i] >= s[j] {
        assert s[1] == s[1..][0] && s[j] == s[1..][j - 1];
        if i > 0 { assert s[i] == s[1..][i - 1]; }
      }
    }
  }

  lemma {:induction false} ReversedValues(s: seq<int>)
    ensures SameValues(Reversed(s), s)
    decreases |s|
  {
    if s != [] {
      ReversedValues(s[1..]);
      Headed(s);
      assert Reversed(s) == Reversed(s[1..]) + [s[0]];
    } else {
      assert Reversed(s) == [];
    }
  }

  /**
    The shape of a successful step: behind a common part `pre`, the value `x`
    gives way to `y`, the least of those behind it that exceed it, and the rest,
    which was descending, is put in ascending order.
   */
  ghost predicate StepShape(s: seq<int>, t: seq<int>, pre: seq<int>, x: int, d: seq<int>, y: int, a: seq<int>)
  {
    && s == pre + [x] + d && t == pre + [y] + a && a != []
    && Descending(d) && Ascending(a)
    && x < y && y in d && (forall k :: 0 <= k < |d| && d[k] > x ==> d[k] >= y)
    && multiset{x} + multiset(d) == multiset{y} + multiset(a)
  }

  lemma SwappedParts(s: seq<int>, i: nat, j: nat)
    requires i < j < |s|
    ensures s == s[..i] + [s[i]] + s[i + 1..]
    ensures Swapped(s, i, j)[..i + 1] == s[..i] + [s[j]]
    ensures Swapped(s, i, j)[i + 1..] == s[i + 1..][j - i - 1 := s[i]]
  {
  }

  /** The result of a successful step, piece by piece. */
  lemma StepParts(s: seq<int>, i: nat, j: nat)
    requires i + 1 < |s| && s[i] < s[i + 1] && j == LastAbove(s, i, |s| - 1)
    ensures StepOf(s, i) == s[..i] + [s[j]] + Reversed(s[i + 1..][j - i - 1 := s[i]])
  {
    hide Reversed, LastAbove;
    SwappedParts(s, i, j);
    var t := Swapped(s, i, j);
    var u, v := t[..i + 1], t[i + 1..];
    assert StepOf(s, i) == u + Reversed(v);
  }

  lemma NextShape(s: seq<int>) returns (pre: seq<int>, x: int, d: seq<int>, y: int, a: seq<int>)
    requires Next(s).0
    ensures StepShape(s, Next(s).1, pre, x, d, y, a)
  {
    hide StepOf, StepShape;
    pre, x, d, y, a := StepHasShape(s, PivotFrom(s, |s| - 2));
  }

  lemma StepHasShape(s: seq<int>, i: nat) returns (pre: seq<int>, x: int, d: seq<int>, y: int, a: seq<int>)
    requires |s| >= 2 && i == PivotFrom(s, |s| - 2)
    ensures StepShape(s, StepOf(s, i), pre, x, d, y, a)
  {
    hide StepOf, Reversed, Descending, Ascending, Swapped, PivotFrom, LastAbove;
    var j := LastAbove(s, i, |s| - 1);
    pre, x, d, y := s[..i], s[i], s[i + 1..], s[j];
    StepParts(s, i, j);
    SwappedParts(s, i, j);
    TailShape(s, i, j, d);
    a := TailStep(d, j - i - 1, x);
  }

  lemma TailStep(d: seq<int>, e: nat, x: int) returns (a: seq<int>)
    requires Descending(d) && e < |d| && d[e] > x && forall k :: e < k < |d| ==> d[k] <= x
    ensures a == Reversed(d[e := x]) && a != [] && Ascending(a) && d[e] in d
    ensures multiset{x} + multiset(d) == multiset{d[e]} + multiset(a)
  {
    a := Reversed(d[e := x]);
    SwapDescends(d, e, x);
    SwapValues(d, e, x);
  }

  lemma SwapValues(d: seq<int>, e: nat, x: int)
    requires e < |d|
    ensures multiset{x} + multiset(d) == multiset{d[e]} + multiset(Reversed(d[e := x]))
  {
    ReversedValues(d[e := x]);
    assert multiset(d[e := x]) == multiset(d) - multiset{d[e]} + multiset{x};
  }

  /** What the two searches say about the part `d` behind the pivot. */
  lemma TailShape(s: seq<int>, i: nat, j: nat, d: seq<int>)
    requires |s| >= 2 && i == PivotFrom(s, |s| - 2) && j == LastAbove(s, i, |s| - 1) && d == s[i + 1..]
    ensures Descending(d) && d[j - i - 1] == s[j]
    ensures forall k :: 0 <= k < |d| && d[k] > s[i] ==> d[k] >= s[j]
    ensures forall k :: j - i - 1 < k < |d| ==> d[k] <= s[i]
  {
    forall k | 0 <= k < |d| - 1 ensures !Rises(d, k) {
      assert d[k] == s[i + 1 + k] && d[k + 1] == s[i + 2 + k];
      assert !Rises(s, i + 1 + k);
    }
    StepsDescend(d);
    assert d[j - i - 1] == s[j];
    forall k | 0 <= k < |d| && d[k] > s[i] ensures d[k] >= s[j] {
      assert d[k] == s[i + 1 + k];
    }
  }

  lemma SwapDescends(d: seq<int>, j: nat, x: int)
    requires Descending(d) && j < |d| && d[j] > x && forall k :: j < k < |d| ==> d[k] <= x
    ensures Descending(d[j := x]) && Ascending(Reversed(d[j := x]))
  {
    var d' := d[j := x];
    forall p, q | 0 <= p < q < |d| ensures d'[p] >= d'[q] {
      assert d[p] >= d[q];
      if q == j { assert d[p] >= d[j]; }
    }
    var r := Reversed(d');
    forall p, q | 0 <= p < q < |r| ensures r[p] <= r[q] {
      assert r[p] == d'[|d| - 1 - p] && r[q] == d'[|d| - 1 - q];
    }
  }

  /** Every later arrangement of the same values is the result or comes after it. */
  lemma NothingBetween(s: seq<int>, p: seq<int>)
    requires Next(s).0 && SameValues(p, s) && Less(s, p)
    ensures LessEq(Next(s).1, p)
  {
    var pre, x, d, y, a := NextShape(s);
    NothingBetweenShape(s, Next(s).1, p, pre, x, d, y, a);
  }

  lemma NothingBetweenShape(s: seq<int>, t: seq<int>, p: seq<int>,
                            pre: seq<int>, x: int, d: seq<int>, y: int, a: seq<int>)
    requires StepShape(s, t, pre, x, d, y, a) && SameValues(p, s) && Less(s, p)
    ensures LessEq(t, p)
  {
    SameLength(p, s);
    var k :| LessAt(s, p, k);
    DiffersByPivot(s, p, pre, x, d, k);
    if k < |pre| {
      assert s == pre + ([x] + d) && t == pre + ([y] + a);
      BeforePivot(p, pre, [x] + d, [y] + a, k);
    } else {
      assert p[..k] == s[..k] == pre;
      AtPivot(p, pre, x, d, y, a);
    }
  }

  /** A first difference in the common part is one with the result too. */
  lemma BeforePivot(p: seq<int>, pre: seq<int>, u: seq<int>, v: seq<int>, k: int)
    requires LessAt(pre + u, p, k) && k < |pre|
    ensures LessAt(pre + v, p, k)
  {
    assert (pre + v)[..k] == pre[..k] == (pre + u)[..k];
  }

  /** The case of a first difference at the pivot. */
  lemma AtPivot(p: seq<int>, pre: seq<int>, x: int, d: seq<int>, y: int, a: seq<int>)
    requires StepShape(pre + [x] + d, pre + [y] + a, pre, x, d, y, a)
    requires |pre| < |p| && p[..|pre|] == pre && p[|pre|] > x && SameValues(p, pre + [x] + d)
    ensures LessEq(pre + [y] + a, p)
  {
    var n, s := |pre|, pre + [x] + d;
    var q := p[n..];
    SameLength(p, s);
    assert s[..n] == pre && s[n..] == [x] + d;
    TailValues(p, s, pre);
    assert p == pre + q && pre + [y] + a == pre + ([y] + a);
    AtHead(q, x, d, y, a);
    LessBehind(pre, [y] + a, q);
  }

  lemma AtHead(q: seq<int>, x: int, d: seq<int>, y: int, a: seq<int>)
    requires q != [] && q[0] > x && SameValues(q, [x] + d) && Ascending(a) && a != []
    requires forall k :: 0 <= k < |d| && d[k] > x ==> d[k] >= y
    requires multiset{x} + multiset(d) == multiset{y} + multiset(a)
    ensures LessEq([y] + a, q)
  {
    Headed(q);
    assert multiset([x] + d) == multiset{x} + multiset(d);
    assert q[0] in multiset(q);
    assert q[0] in d;
    if q[0] == y {
      Cancel(multiset{y}, multiset(a), multiset(q[1..]));
      AscendingIsLeast(a, q[1..]);
      LessBehind([y], a, q[1..]);
    } else {
      assert LessAt([y] + a, q, 0);
    }
  }

  lemma TailValues(p: seq<int>, s: seq<int>, c: seq<int>)
    requires SameValues(p, s) && |c| <= |p| == |s| && p[..|c|] == c == s[..|c|]
    ensures SameValues(p[|c|..], s[|c|..])
  {
    assert p == c + p[|c|..] && s == c + s[|c|..];
    assert multiset(p) == multiset(c) + multiset(p[|c|..]);
    assert multiset(s) == multiset(c) + multiset(s[|c|..]);
    Cancel(multiset(c), multiset(p[|c|..]), multiset(s[|c|..]));
  }

  /** The first difference cannot lie in the descending part. */
  lemma DiffersByPivot(s: seq<int>, p: seq<int>, pre: seq<int>, x: int, d: seq<int>, k: nat)
    requires s == pre + [x] + d && Descending(d) && SameValues(p, s) && |p| == |s|
    requires LessAt(s, p, k)
    ensures k <= |pre|
  {
    var c := pre + [x];
    if k >= |c| {
      assert s[..|c|] == c && s[|c|..] == d;
      assert p[..|c|] == p[..k][..|c|] && s[..|c|] == s[..k][..|c|];
      TailValues(p, s, c);
      var q := p[|c|..];
      assert d[..k - |c|] == s[..k][|c|..] && q[..k - |c|] == p[..k][|c|..];
      assert LessAt(d, q, k - |c|);
      LessIsIrreflexive(d, q);
      DescendingIsGreatest(d, q);
      assert false;
    }
  }

  /**
    When the answer is true the result is an arrangement of the same values, the
    very next one: strictly later, with nothing in between.
   */
  lemma NextIsSuccessor(s: seq<int>)
    requires Next(s).0
    ensures SameValues(Next(s).1, s) && Less(s, Next(s).1)
    ensures forall p :: SameValues(p, s) && Less(s, p) ==> LessEq(Next(s).1, p)
  {
    var pre, x, d, y, a := NextShape(s);
    var t := Next(s).1;
    ShapeSteps(s, t, pre, x, d, y, a);
    forall p | SameValues(p, s) && Less(s, p) ensures LessEq(t, p) {
      NothingBetween(s, p);
    }
  }

  lemma ShapeSteps(s: seq<int>, t: seq<int>, pre: seq<int>, x: int, d: seq<int>, y: int, a: seq<int>)
    requires StepShape(s, t, pre, x, d, y, a)
    ensures SameValues(t, s) && Less(s, t)
  {
    assert multiset(s) == multiset(pre) + (multiset{x} + multiset(d));
    assert multiset(t) == multiset(pre) + (multiset{y} + multiset(a));
    assert s[..|pre|] == t[..|pre|];
    assert LessAt(s, t, |pre|);
  }

  /** When it is false the input was the greatest arrangement, and the result is the least. */
  lemma NextWraps(s: seq<int>)
    requires !Next(s).0
    ensures SameValues(Next(s).1, s)
    ensures forall p :: SameValues(p, s) ==> LessEq(p, s) && LessEq(Next(s).1, p)
  {
    var t := Next(s).1;
    if |s| >= 2 {
      ReversedValues(s);
      StepsDescend(s);
      forall i, j | 0 <= i < j < |t| ensures t[i] <= t[j] {
        assert s[|s| - 1 - j] >= s[|s| - 1 - i];
      }
    }
    forall p | SameValues(p, s) ensures LessEq(p, s) && LessEq(t, p) {
      DescendingIsGreatest(s, p);
      AscendingIsLeast(t, p);
    }
  }

  /** The answer is true exactly when a later arrangement exists. */
  lemma TrueIffNotGreatest(s: seq<int>)
    ensures Next(s).0 <==> exists p :: SameValues(p, s) && Less(s, p)
  {
    if Next(s).0 {
      NextIsSuccessor(s);
    } else {
      NextWraps(s);
      forall p | SameValues(p, s) ensures !Less(s, p) {
        if p != s {
          LessIsIrreflexive(p, s);
        } else {
          EqualIsNotLess(s);
        }
      }
    }
  }

  // ---------- the code ----------

  method Swap(a: array<int>, i: nat, j: nat)
    requires i < a.Length && j < a.Length
    modifies a
    ensures a[..] == Swapped(old(a[..]), i, j)
  {
    var tmp := a[i];
    a[i] := a[j];
    a[j] := tmp;
  }

  /** A sequence with one stretch of it turned around. */
  function Turned(w: seq<int>, begin: nat, end: nat): seq<int>
    requires begin <= end <= |w|
  {
    w[..begin] + Reversed(w[begin..end]) + w[end..]
  }

  lemma TurnedLength(w: seq<int>, begin: nat, end: nat)
    requires begin <= end <= |w|
    ensures |Turned(w, begin, end)| == |w|
  {
  }

  lemma TurnedAt(w: seq<int>, begin: nat, end: nat, k: nat)
    requires begin <= end <= |w| && k < |w|
    ensures |Turned(w, begin, end)| == |w|
    ensures Turned(w, begin, end)[k] == if begin <= k < end then w[begin + end - 1 - k] else w[k]
  {
  }

  lemma IsTurned(w: seq<int>, v: seq<int>, begin: nat, end: nat)
    requires begin <= end <= |w| == |v|
    requires forall k :: 0 <= k < |w| ==> v[k] == if begin <= k < end then w[begin + end - 1 - k] else w[k]
    ensures v == Turned(w, begin, end)
  {
    hide Turned;
    TurnedLength(w, begin, end);
    forall k | 0 <= k < |w| ensures v[k] == Turned(w, begin, end)[k] {
      TurnedAt(w, begin, end, k);
    }
  }

  method Reverse(a: array<int>, begin: nat, end: nat)
    requires begin <= end <= a.Length
    modifies a
    ensures a[..] == Turned(old(a[..]), begin, end)
  {
    hide Turned;
    var lo, tail := begin, end - 1;
    while lo <= tail
      invariant begin <= lo <= tail + 2 && lo + tail == begin + end - 1
      invariant forall k :: 0 <= k < a.Length ==>
                  a[k] == if begin <= k < lo || tail < k < end then old(a[begin + end - 1 - k]) else old(a[k])
    {
      Swap(a, lo, tail);
      lo, tail := lo + 1, tail - 1;
    }
    IsTurned(old(a[..]), a[..], begin, end);
  }

  lemma SwappedAt(s: seq<int>, i: nat, j: nat)
    requires i < |s| && j < |s|
    ensures |Swapped(s, i, j)| == |s|
    ensures forall k :: 0 <= k < |s| ==>
              Swapped(s, i, j)[k] == if k == j then s[i] else if k == i then s[j] else s[k]
  {
  }

  /** Exchanging inside a stretch is exchanging in the stretch. */
  lemma SwapInside(w: seq<int>, begin: nat, end: nat, i: nat, j: nat)
    requires begin <= i < end && begin <= j < end <= |w|
    ensures |Swapped(w, i, j)| == |w|
    ensures Swapped(w, i, j)[begin..end] == Swapped(w[begin..end], i - begin, j - begin)
    ensures Swapped(w, i, j)[..begin] == w[..begin] && Swapped(w, i, j)[end..] == w[end..]
  {
    hide Swapped;
    SwappedAt(w, i, j);
    SwappedAt(w[begin..end], i - begin, j - begin);
    var l, r := Swapped(w, i, j)[begin..end], Swapped(w[begin..end], i - begin, j - begin);
    forall k | 0 <= k < end - begin ensures l[k] == r[k] {
      assert l[k] == Swapped(w, i, j)[begin + k] && w[begin..end][k] == w[begin + k];
    }
    assert l == r;
  }

  /** Turning the end of a stretch is turning it in the stretch. */
  lemma TurnInside(v: seq<int>, begin: nat, m: nat, end: nat)
    requires begin <= m <= end <= |v|
    ensures |Turned(v, m, end)| == |v|
    ensures var s := v[begin..end]; Turned(v, m, end)[begin..end] == s[..m - begin] + Reversed(s[m - begin..])
    ensures Turned(v, m, end)[..begin] == v[..begin] && Turned(v, m, end)[end..] == v[end..]
  {
    hide Turned;
    var s, t := v[begin..end], Turned(v, m, end);
    TurnedLength(v, m, end);
    forall k | 0 <= k < |v|
      ensures (k < m || end <= k ==> t[k] == v[k]) && (m <= k < end ==> t[k] == v[m + end - 1 - k]) {
      TurnedAt(v, m, end, k);
    }
    var l, r := t[begin..end], s[..m - begin] + Reversed(s[m - begin..]);
    forall k | 0 <= k < end - begin ensures l[k] == r[k] {
      assert l[k] == t[begin + k];
    }
  }

  /** The step on the whole array is the step on the stretch, and nothing else moves. */
  lemma StepInside(w: seq<int>, begin: nat, end: nat, i: nat, j: nat)
    requires begin <= i < j < end <= |w| && i + 1 < end && w[i] < w[i + 1]
    requires j - begin == LastAbove(w[begin..end], i - begin, end - begin - 1)
    ensures |Swapped(w, i, j)| == |w|
    ensures var u := Turned(Swapped(w, i, j), i + 1, end);
            && |u| == |w| && u[begin..end] == StepOf(w[begin..end], i - begin)
            && u[..begin] == w[..begin] && u[end..] == w[end..]
  {
    hide Swapped, Turned, Reversed, LastAbove;
    SwapInside(w, begin, end, i, j);
    TurnInside(Swapped(w, i, j), begin, i + 1, end);
  }

  /** The exchange and the turn, once the pivot `i` is found: lines 30-35. */
  method StepAt(a: array<int>, begin: nat, end: nat, i: nat)
    requires begin <= i && i + 1 < end <= a.Length && a[i] < a[i + 1]
    modifies a
    ensures a[begin..end] == StepOf(old(a[begin..end]), i - begin)
    ensures a[..begin] == old(a[..begin]) && a[end..] == old(a[end..])
  {
    hide Swapped, Turned, StepOf, LastAbove;
    ghost var w := a[..];
    WindowOf(a, begin, end);
    var j := FindLast(a, begin, end, i, w[begin..end]);
    StepInside(w, begin, end, i, j);
    SwapAndReverse(a, i, j, end);
    WindowOf(a, begin, end);
  }

  method SwapAndReverse(a: array<int>, i: nat, j: nat, end: nat)
    requires i < j < end <= a.Length
    modifies a
    ensures |Swapped(old(a[..]), i, j)| == a.Length && a[..] == Turned(Swapped(old(a[..]), i, j), i + 1, end)
  {
    hide Swapped, Turned;
    Swap(a, i, j);
    Reverse(a, i + 1, end);
  }

  lemma WindowOf(a: array<int>, begin: nat, end: nat)
    requires begin <= end <= a.Length
    ensures a[begin..end] == a[..][begin..end] && a[..begin] == a[..][..begin] && a[end..] == a[..][end..]
  {
  }

  /** The search of line 31. */
  method FindLast(a: array<int>, begin: nat, end: nat, i: nat, ghost s: seq<int>) returns (j: nat)
    requires begin <= i && i + 1 < end <= a.Length && s == a[begin..end] && a[i] < a[i + 1]
    ensures i < j < end
    ensures j - begin == LastAbove(s, i - begin, end - begin - 1)
  {
    j := end - 1;
    while !(a[i] < a[j])
      invariant i < j < end
      invariant LastAbove(s, i - begin, end - begin - 1) == LastAbove(s, i - begin, j - begin)
      decreases j
    {
      j := j - 1;
    }
  }

  /** The search of lines 22-42: `i` is the pivot if there is one. */
  method FindPivot(a: array<int>, begin: nat, end: nat, ghost s: seq<int>) returns (more: bool, i: nat)
    requires begin + 2 <= end <= a.Length && s == a[begin..end]
    ensures more ==> begin <= i && i - begin == PivotFrom(s, |s| - 2)
    ensures !more ==> PivotFrom(s, |s| - 2) == -1
  {
    i := end;
    i := i - 1;
    while true
      invariant begin < i < end
      invariant PivotFrom(s, |s| - 2) == PivotFrom(s, i - begin - 1)
      decreases i
    {
      var ii := i;
      i := i - 1;
      if a[i] < a[ii] {
        return true, i;
      }
      if i == begin {
        return false, i;
      }
    }
  }

  /** `next_permutation` on the part of the array from `begin` to `end`. */
  method NextPermutation(a: array<int>, begin: nat, end: nat) returns (more: bool)
    requires begin <= end <= a.Length
    modifies a
    ensures (more, a[begin..end]) == Next(old(a[begin..end]))
    ensures a[..begin] == old(a[..begin]) && a[end..] == old(a[end..])
  {
    hide StepOf, PivotFrom, Reversed;
    if begin == end { return false; }
    if begin + 1 == end { return false; }
    var i;
    ghost var s := a[begin..end];
    more, i := FindPivot(a, begin, end, s);
    if more {
      assert a[i] == s[i - begin] && a[i + 1] == s[i - begin + 1];
      StepAt(a, begin, end, i);
    } else {
      Turn(a, begin, end);
    }
  }

  /** The greatest arrangement is turned into the least: lines 39-40. */
  method Turn(a: array<int>, begin: nat, end: nat)
    requires begin <= end <= a.Length
    modifies a
    ensures a[begin..end] == Reversed(old(a[begin..end]))
    ensures a[..begin] == old(a[..begin]) && a[end..] == old(a[end..])
  {
    hide Turned, Reversed;
    WindowOf(a, begin, end);
    TurnAll(a[..], begin, end);
    Reverse(a, begin, end);
    WindowOf(a, begin, end);
  }

  lemma TurnAll(w: seq<int>, begin: nat, end: nat)
    requires begin <= end <= |w|
    ensures var u := Turned(w, begin, end);
            |u| == |w| && u[begin..end] == Reversed(w[begin..end]) && u[..begin] == w[..begin] && u[end..] == w[end..]
  {
    TurnInside(w, begin, begin, end);
    var s := w[begin..end];
    assert s[..0] == [] && s[0..] == s;
  }
}
