/**
  The translation lookaside buffer of tlb.c on values, and what it is an exact
  account of: the most recently used pages, sixteen at most. The one oddity is
  the node of zeroes the list starts with, here the sentinel: it takes up a
  slot, matches page 0 of process 0, and has no frame to offer.
 */
module TlbModel {
  import opened Prelude

  const MAX_NODES: nat := 16

  datatype Page = Page(key: bv64, pid: nat)

  /** One node of the list; the frame is 0 in the sentinel only. */
  datatype Line = Line(page: Page, frame: nat)

  const ZERO_PAGE := Page(0, 0)
  const SENTINEL := Line(ZERO_PAGE, 0)

  // ---------- what the two functions do ----------

  function Find(lines: seq<Line>, p: Page): (i: nat)
    ensures i <= |lines|
    ensures i < |lines| ==> lines[i].page == p
    ensures forall k :: 0 <= k < i ==> lines[k].page != p
  {
    if lines == [] || lines[0].page == p then 0 else 1 + Find(lines[1..], p)
  }

  function ToFront<T>(s: seq<T>, i: nat): (r: seq<T>)
    requires i < |s|
    ensures |r| == |s|
  {
    [s[i]] + s[..i] + s[i + 1..]
  }

  /** `TLB_get_physical_address`: the list after it, and the answer. */
  function Lookup(lines: seq<Line>, p: Page): (seq<Line>, nat)
  {
    var i := Find(lines, p);
    if i == |lines| then (lines, 0) else (ToFront(lines, i), lines[i].frame)
  }

  function FirstOf<T>(s: seq<T>, n: nat): seq<T>
  {
    if |s| <= n then s else s[..n]
  }

  /** `TLB_add_physical_address` */
  function Add(lines: seq<Line>, p: Page, frame: nat): seq<Line>
  {
    [Line(p, frame)] + FirstOf(lines, MAX_NODES - 1)
  }

  /** A translation: a lookup, and an addition when it misses. */
  function Access(lines: seq<Line>, p: Page, frame: nat): seq<Line>
  {
    var (found, v) := Lookup(lines, p);
    if v != 0 then found else Add(found, p, frame)
  }

  // ---------- the recency list without a bound ----------

  /** The pages of a history, the last used first. */
  function Recency(h: seq<Page>): seq<Page>
    decreases |h|
  {
    if h == [] then [] else
      var p, before := h[|h| - 1], Recency(h[..|h| - 1]);
      [p] + Without(before, p)
  }

  function Without(s: seq<Page>, p: Page): seq<Page>
  {
    if s == [] then [] else if s[0] == p then Without(s[1..], p) else [s[0]] + Without(s[1..], p)
  }

  lemma {:induction false} WithoutHas(s: seq<Page>, p: Page)
    ensures forall q :: q in Without(s, p) <==> q in s && q != p
    decreases |s|
  {
    if s == [] {
    } else {
      WithoutHas(s[1..], p);
      assert s == [s[0]] + s[1..];
    }
  }

  /** The last time a page was used, or -1. */
  function LastUse(h: seq<Page>, p: Page): (t: int)
    ensures -1 <= t < |h|
    ensures t >= 0 ==> h[t] == p
    ensures forall k :: t < k < |h| ==> h[k] != p
    decreases |h|
  {
    if h == [] then -1 else if h[|h| - 1] == p then |h| - 1 else LastUse(h[..|h| - 1], p)
  }

  ghost predicate ByLastUse(s: seq<Page>, h: seq<Page>)
  {
    forall i, j :: 0 <= i < j < |s| ==> LastUse(h, s[i]) > LastUse(h, s[j])
  }

  lemma {:induction false} WithoutOrder(s: seq<Page>, p: Page, h: seq<Page>)
    requires ByLastUse(s, h)
    ensures ByLastUse(Without(s, p), h)
    decreases |s|
  {
    if s == [] {
    } else {
      var rest := s[1..];
      assert forall k :: 0 <= k < |rest| ==> rest[k] == s[k + 1];
      WithoutOrder(rest, p, h);
      WithoutHas(rest, p);
      var r := Without(rest, p);
      forall j | 0 <= j < |r| ensures LastUse(h, s[0]) > LastUse(h, r[j]) {
        assert r[j] in rest;
        var k :| 0 <= k < |rest| && rest[k] == r[j];
      }
      if s[0] != p {
        var o := [s[0]] + r;
        assert forall k :: 0 < k < |o| ==> o[k] == r[k - 1];
      }
    }
  }

  lemma LastUseNext(g: seq<Page>, p: Page, q: Page)
    ensures LastUse(g + [p], q) == if q == p then |g| else LastUse(g, q)
  {
    assert (g + [p])[..|g|] == g;
  }

  /** The recency list holds the pages that were used, each once, in the order of their last use. */
  lemma {:induction false} RecencyIsByLastUse(h: seq<Page>)
    ensures forall p :: p in Recency(h) <==> p in h
    ensures ByLastUse(Recency(h), h)
    decreases |h|
  {
    if h == [] {
    } else {
      var g, p := h[..|h| - 1], h[|h| - 1];
      RecencyIsByLastUse(g);
      assert h == g + [p];
      WithoutOrder(Recency(g), p, g);
      WithoutHas(Recency(g), p);
      UsedAgain(Without(Recency(g), p), g, p);
    }
  }

  lemma UsedAgain(r: seq<Page>, g: seq<Page>, p: Page)
    requires ByLastUse(r, g) && p !in r
    ensures ByLastUse([p] + r, g + [p])
  {
    var o, h := [p] + r, g + [p];
    forall i, j | 0 <= i < j < |o| ensures LastUse(h, o[i]) > LastUse(h, o[j]) {
      LastUseNext(g, p, o[i]);
      LastUseNext(g, p, o[j]);
      assert o[j] == r[j - 1] && o[j] in r;
      if i > 0 { assert o[i] == r[i - 1] && o[i] in r; }
    }
  }

  // ---------- with the sentinel ----------

  function IndexOf<T(==)>(s: seq<T>, x: T): (i: nat)
    ensures i <= |s|
    ensures i < |s| ==> s[i] == x
    ensures forall k :: 0 <= k < i ==> s[k] != x
  {
    if s == [] || s[0] == x then 0 else 1 + IndexOf(s[1..], x)
  }

  /**
    The list as it would be if nothing were ever evicted; None is the sentinel.
    Page zero is found in the sentinel when it is not there itself, and takes it
    along to the front if the sentinel is still within reach.
   */
  function Use(u: seq<Option<Page>>, p: Page): seq<Option<Page>>
  {
    var i, n := IndexOf(u, Some(p)), IndexOf(u, None);
    if i < |u| then ToFront(u, i)
    else if p == ZERO_PAGE && n < MAX_NODES && n < |u| then [Some(p)] + ToFront(u, n)
    else [Some(p)] + u
  }

  function Unbounded(h: seq<Page>): seq<Option<Page>>
    decreases |h|
  {
    if h == [] then [None] else Use(Unbounded(h[..|h| - 1]), h[|h| - 1])
  }

  function Pages(lines: seq<Line>): (r: seq<Option<Page>>)
    ensures |r| == |lines|
  {
    seq(|lines|, i requires 0 <= i < |lines| => if lines[i].frame == 0 then None else Some(lines[i].page))
  }

  /** One sentinel, no page twice, and page zero in front of the sentinel. */
  ghost predicate Tidy(u: seq<Option<Page>>)
  {
    && (forall i, j :: 0 <= i < j < |u| ==> u[i] != u[j])
    && IndexOf(u, None) < |u|
    && (Some(ZERO_PAGE) in u ==> IndexOf(u, Some(ZERO_PAGE)) < IndexOf(u, None))
  }

  lemma IndexUnique<T>(s: seq<T>, x: T, i: nat)
    requires forall k, l :: 0 <= k < l < |s| ==> s[k] != s[l]
    requires i < |s| && s[i] == x
    ensures IndexOf(s, x) == i
  {
  }

  lemma ToFrontAt<T>(s: seq<T>, i: nat)
    requires i < |s|
    ensures forall k {:trigger ToFront(s, i)[k]} :: 0 <= k < |s| ==>
              ToFront(s, i)[k] == if k == 0 then s[i] else if k <= i then s[k - 1] else s[k]
  {
  }

  lemma ToFrontDistinct<T>(s: seq<T>, i: nat)
    requires i < |s| && forall k, l :: 0 <= k < l < |s| ==> s[k] != s[l]
    ensures var r := ToFront(s, i); forall k, l :: 0 <= k < l < |r| ==> r[k] != r[l]
  {
    ToFrontAt(s, i);
  }

  /** Where an entry is after another was moved to the front. */
  lemma ToFrontIndex<T>(s: seq<T>, i: nat, x: T)
    requires i < |s| && forall k, l :: 0 <= k < l < |s| ==> s[k] != s[l]
    ensures var n := IndexOf(s, x);
            n < |s| ==> IndexOf(ToFront(s, i), x) == if n == i then 0 else if n < i then n + 1 else n
  {
    hide ToFront, IndexOf;
    var n, r := IndexOf(s, x), ToFront(s, i);
    if n < |s| {
      ToFrontAt(s, i);
      var m := if n == i then 0 else if n < i then n + 1 else n;
      assert r[m] == x;
      ToFrontDistinct(s, i);
      IndexUnique(r, x, m);
    }
  }

  lemma ToFrontHas<T>(s: seq<T>, i: nat, x: T)
    requires i < |s| && x in ToFront(s, i)
    ensures x in s
  {
    var r := ToFront(s, i);
    ToFrontAt(s, i);
    var k :| 0 <= k < |r| && r[k] == x;
    assert x == if k == 0 then s[i] else if k <= i then s[k - 1] else s[k];
  }

  /** Moving another entry to the front keeps page zero ahead of the sentinel. */
  lemma ToFrontTidy(u: seq<Option<Page>>, i: nat)
    requires Tidy(u) && i < |u| && u[i].Some?
    ensures Tidy(ToFront(u, i))
  {
    ToFrontDistinct(u, i);
    ToFrontIndex(u, i, None);
    if Some(ZERO_PAGE) in ToFront(u, i) {
      ToFrontHas(u, i, Some(ZERO_PAGE));
      ToFrontIndex(u, i, Some(ZERO_PAGE));
    }
  }

  lemma ConsTidy(u: seq<Option<Page>>, p: Page)
    requires forall i, j :: 0 <= i < j < |u| ==> u[i] != u[j]
    requires IndexOf(u, None) < |u| && Some(p) !in u
    requires p != ZERO_PAGE && Some(ZERO_PAGE) in u ==> IndexOf(u, Some(ZERO_PAGE)) < IndexOf(u, None)
    ensures Tidy([Some(p)] + u)
  {
    hide IndexOf;
    var r := [Some(p)] + u;
    IndexUnique(r, None, 1 + IndexOf(u, None));
    if p != ZERO_PAGE && Some(ZERO_PAGE) in r {
      assert Some(ZERO_PAGE) in u;
      IndexUnique(r, Some(ZERO_PAGE), 1 + IndexOf(u, Some(ZERO_PAGE)));
    }
  }

  lemma UseTidy(u: seq<Option<Page>>, p: Page)
    requires Tidy(u)
    ensures Tidy(Use(u, p))
  {
    var i, n := IndexOf(u, Some(p)), IndexOf(u, None);
    if i < |u| {
      ToFrontTidy(u, i);
    } else if p == ZERO_PAGE && n < MAX_NODES {
      ToFrontAt(u, n);
      ToFrontDistinct(u, n);
      var r := ToFront(u, n);
      IndexUnique(r, None, 0);
      ConsTidy(r, p);
    } else {
      ConsTidy(u, p);
    }
  }

  lemma {:induction false} UnboundedTidy(h: seq<Page>)
    ensures Tidy(Unbounded(h))
    decreases |h|
  {
    if h == [] {
    } else {
      UnboundedTidy(h[..|h| - 1]);
      UseTidy(Unbounded(h[..|h| - 1]), h[|h| - 1]);
    }
  }

  // ---------- the list is the first sixteen ----------

  /** The list shows the first entries of `u`, and only the sentinel has no frame. */
  ghost predicate Shows(lines: seq<Line>, u: seq<Option<Page>>)
  {
    && Pages(lines) == FirstOf(u, MAX_NODES)
    && forall i :: 0 <= i < |lines| && lines[i].frame == 0 ==> lines[i] == SENTINEL
  }

  lemma FirstOfFront<T>(s: seq<T>, i: nat, n: nat)
    requires i < n && i < |s|
    ensures i < |FirstOf(s, n)| && FirstOf(ToFront(s, i), n) == ToFront(FirstOf(s, n), i)
  {
  }

  lemma FirstOfDropped<T>(s: seq<T>, i: nat, n: nat)
    requires 1 <= n <= i < |s|
    ensures FirstOf(ToFront(s, i), n) == [s[i]] + FirstOf(FirstOf(s, n), n - 1)
  {
  }

  lemma PagesToFront(lines: seq<Line>, i: nat)
    requires i < |lines|
    ensures Pages(ToFront(lines, i)) == ToFront(Pages(lines), i)
  {
  }

  ghost predicate LineShows(line: Line, e: Option<Page>)
  {
    if line.frame == 0 then e == None && line == SENTINEL else e == Some(line.page)
  }

  lemma LinesShow(lines: seq<Line>, u: seq<Option<Page>>)
    requires Shows(lines, u)
    ensures |lines| == (if |u| <= MAX_NODES then |u| else MAX_NODES)
    ensures forall k :: 0 <= k < |lines| ==> LineShows(lines[k], u[k])
  {
    forall k | 0 <= k < |lines| ensures LineShows(lines[k], u[k]) {
      assert Pages(lines)[k] == u[k];
    }
  }

  /** Where the lookup finds a page, in terms of the recency list. */
  lemma FindShows(lines: seq<Line>, u: seq<Option<Page>>, p: Page)
    requires Tidy(u) && Shows(lines, u)
    ensures var i, n, f := IndexOf(u, Some(p)), IndexOf(u, None), Find(lines, p);
            && (i < MAX_NODES && i < |u| ==> f == i && lines[f].frame != 0)
            && (!(i < MAX_NODES && i < |u|) && p == ZERO_PAGE && i == |u| && n < MAX_NODES ==>
                  f == n < |lines| && lines[f].frame == 0)
            && (!(i < MAX_NODES && i < |u|) && !(p == ZERO_PAGE && i == |u| && n < MAX_NODES) ==> f == |lines|)
  {
    var i, n, f := IndexOf(u, Some(p)), IndexOf(u, None), Find(lines, p);
    LinesShow(lines, u);
    hide Pages, FirstOf, IndexOf, Find, Shows;
    if f < |lines| {
      assert LineShows(lines[f], u[f]);
    }
    if i < MAX_NODES && i < |u| {
      assert LineShows(lines[i], u[i]);
    } else if n < MAX_NODES {
      assert LineShows(lines[n], u[n]);
    }
  }

  /** Moving a line to the front shows moving its entry there. */
  lemma FoundShows(lines: seq<Line>, u: seq<Option<Page>>, i: nat)
    requires Shows(lines, u) && i < |lines| && i < MAX_NODES && i < |u|
    ensures Shows(ToFront(lines, i), ToFront(u, i)) && ToFront(lines, i)[0] == lines[i]
  {
    FirstOfFront(u, i, MAX_NODES);
    PagesToFront(lines, i);
    ToFrontAt(lines, i);
  }

  /**
    A translation does to the list what it does to the recency list, and hits
    exactly when the page is among the first sixteen.
   */
  lemma AccessShows(lines: seq<Line>, u: seq<Option<Page>>, p: Page, frame: nat)
    requires Tidy(u) && Shows(lines, u) && frame != 0
    ensures Shows(Access(lines, p, frame), Use(u, p))
    ensures Lookup(lines, p).1 != 0 <==> IndexOf(u, Some(p)) < MAX_NODES && Some(p) in u
  {
    FindShows(lines, u, p);
    var i, n, f := IndexOf(u, Some(p)), IndexOf(u, None), Find(lines, p);
    if i < MAX_NODES && i < |u| {
      FoundShows(lines, u, i);
    } else if p == ZERO_PAGE && i == |u| && n < MAX_NODES {
      FoundShows(lines, u, n);
      AddShows(ToFront(lines, f), ToFront(u, n), p, frame);
    } else {
      AddShows(lines, u, p, frame);
      if i < |u| { FirstOfDropped(u, i, MAX_NODES); }
    }
  }

  lemma AddShows(lines: seq<Line>, u: seq<Option<Page>>, p: Page, frame: nat)
    requires Shows(lines, u) && frame != 0
    ensures Shows(Add(lines, p, frame), [Some(p)] + u)
    ensures Pages(Add(lines, p, frame)) == [Some(p)] + FirstOf(FirstOf(u, MAX_NODES), MAX_NODES - 1)
  {
    var a := Add(lines, p, frame);
    var e := FirstOf(u, MAX_NODES);
    assert FirstOf([Some(p)] + u, MAX_NODES) == [Some(p)] + FirstOf(e, MAX_NODES - 1);
    assert forall k :: 0 <= k < |lines| ==> Pages(lines)[k] == e[k];
    assert forall k :: 0 < k < |a| ==> a[k] == lines[k - 1];
  }

  // ---------- the recency list and the sentinel ----------

  /** The pages of a list, without the sentinel. */
  function Reals(u: seq<Option<Page>>): seq<Page>
  {
    if u == [] then [] else (if u[0].Some? then [u[0].value] else []) + Reals(u[1..])
  }

  lemma {:induction false} RealsHas(u: seq<Option<Page>>)
    ensures forall p :: p in Reals(u) <==> Some(p) in u
    decreases |u|
  {
    if u == [] {
    } else {
      RealsHas(u[1..]);
      assert u == [u[0]] + u[1..];
    }
  }

  lemma {:induction false} RealsConcat(a: seq<Option<Page>>, b: seq<Option<Page>>)
    ensures Reals(a + b) == Reals(a) + Reals(b)
    decreases |a|
  {
    if a == [] {
      assert a + b == b;
    } else {
      RealsConcat(a[1..], b);
      var c := a + b;
      assert c[0] == a[0] && c[1..] == a[1..] + b;
      Regroup(if a[0].Some? then [a[0].value] else [], Reals(a[1..]), Reals(b));
    }
  }

  lemma {:induction false} WithoutConcat(a: seq<Page>, b: seq<Page>, p: Page)
    ensures Without(a + b, p) == Without(a, p) + Without(b, p)
    decreases |a|
  {
    if a == [] {
      assert a + b == b;
    } else {
      WithoutConcat(a[1..], b, p);
      assert (a + b)[1..] == a[1..] + b;
    }
  }

  lemma {:induction false} WithoutAbsent(s: seq<Page>, p: Page)
    requires p !in s
    ensures Without(s, p) == s
    decreases |s|
  {
    if s == [] {
    } else {
      WithoutAbsent(s[1..], p);
    }
  }

  lemma RealsOfThree(a: seq<Option<Page>>, b: seq<Option<Page>>, c: seq<Option<Page>>)
    ensures Reals(a + b + c) == Reals(a) + Reals(b) + Reals(c)
  {
    RealsConcat(a + b, c);
    RealsConcat(a, b);
  }

  lemma RealsSplit(u: seq<Option<Page>>, i: nat)
    requires i < |u|
    ensures Reals(u) == Reals(u[..i]) + Reals([u[i]]) + Reals(u[i + 1..])
  {
    hide Reals;
    SplitAround(u, i);
    RealsOfThree(u[..i], [u[i]], u[i + 1..]);
  }

  lemma SplitAround<T>(u: seq<T>, i: nat)
    requires i < |u|
    ensures u == u[..i] + [u[i]] + u[i + 1..]
  {
  }

  lemma RealsFront(u: seq<Option<Page>>, i: nat)
    requires i < |u|
    ensures Reals(ToFront(u, i)) == Reals([u[i]]) + Reals(u[..i]) + Reals(u[i + 1..])
  {
    RealsOfThree([u[i]], u[..i], u[i + 1..]);
  }

  lemma WithoutMiddle(a: seq<Page>, p: Page, b: seq<Page>)
    requires p !in a && p !in b
    ensures Without(a + [p] + b, p) == a + b
  {
    WithoutConcat(a + [p], b, p);
    WithoutConcat(a, [p], p);
    WithoutAbsent(a, p);
    WithoutAbsent(b, p);
    var s := [p];
    assert s[1..] == [] && Without(s[1..], p) == [];
    assert a + Without(s, p) == a;
  }

  lemma UseReals(u: seq<Option<Page>>, p: Page)
    requires Tidy(u)
    ensures Reals(Use(u, p)) == [p] + Without(Reals(u), p)
  {
    var i := IndexOf(u, Some(p));
    if i < |u| {
      FrontReals(u, i, p);
    } else {
      UseNewReals(u, p);
    }
  }

  lemma FrontReals(u: seq<Option<Page>>, i: nat, p: Page)
    requires i < |u| && u[i] == Some(p) && forall k, l :: 0 <= k < l < |u| ==> u[k] != u[l]
    ensures Reals(ToFront(u, i)) == [p] + Without(Reals(u), p)
  {
    var a, b := u[..i], u[i + 1..];
    var x, y := Reals(a), Reals(b);
    RealsSplit(u, i);
    RealsFront(u, i);
    RealsOne(u[i]);
    assert Some(p) !in a && Some(p) !in b;
    RealsHas(a);
    RealsHas(b);
    WithoutMiddle(x, p, y);
    Regroup([p], x, y);
  }

  lemma Regroup(a: seq<Page>, b: seq<Page>, c: seq<Page>)
    ensures a + b + c == a + (b + c)
  {
  }

  lemma RealsOne(e: Option<Page>)
    ensures Reals([e]) == if e.Some? then [e.value] else []
  {
    assert Reals([]) == [];
  }

  lemma UseNewReals(u: seq<Option<Page>>, p: Page)
    requires Some(p) !in u
    ensures Reals(Use(u, p)) == [p] + Without(Reals(u), p)
  {
    var n := IndexOf(u, None);
    RealsHas(u);
    WithoutAbsent(Reals(u), p);
    RealsOne(Some(p));
    if p == ZERO_PAGE && n < MAX_NODES && n < |u| {
      SentinelToFront(u, n);
      RealsConcat([Some(p)], ToFront(u, n));
    } else {
      RealsConcat([Some(p)], u);
    }
  }

  lemma SentinelToFront(u: seq<Option<Page>>, n: nat)
    requires n < |u| && u[n] == None
    ensures Reals(ToFront(u, n)) == Reals(u) == Reals(u[..n]) + Reals(u[n + 1..])
  {
    RealsSplit(u, n);
    RealsFront(u, n);
    RealsOne(u[n]);
    var x, y, z := Reals(u[..n]), Reals([u[n]]), Reals(u[n + 1..]);
    assert x + y == x && y + x == x;
  }

  /** Without the sentinel, it is the recency list. */
  lemma {:induction false} UnboundedIsRecency(h: seq<Page>)
    ensures Reals(Unbounded(h)) == Recency(h)
    decreases |h|
  {
    if h == [] {
    } else {
      UnboundedIsRecency(h[..|h| - 1]);
      UnboundedTidy(h[..|h| - 1]);
      UseReals(Unbounded(h[..|h| - 1]), h[|h| - 1]);
    }
  }

  lemma {:induction false} RealsOfRealList(u: seq<Option<Page>>)
    requires None !in u
    ensures |Reals(u)| == |u| && forall k :: 0 <= k < |u| ==> u[k] == Some(Reals(u)[k])
    decreases |u|
  {
    if u == [] {
    } else {
      RealsOfRealList(u[1..]);
      assert forall k :: 0 <= k < |u| - 1 ==> u[1..][k] == u[k + 1];
    }
  }

  // ---------- the buffer over a history ----------

  /** The list after a history of translations, each page having the frame `frames` says. */
  ghost function After(h: seq<Page>, frames: Page -> nat): seq<Line>
    decreases |h|
  {
    if h == [] then [SENTINEL]
    else Access(After(h[..|h| - 1], frames), h[|h| - 1], frames(h[|h| - 1]))
  }

  lemma {:induction false} AfterShows(h: seq<Page>, frames: Page -> nat)
    requires forall p :: frames(p) != 0
    ensures Shows(After(h, frames), Unbounded(h))
    decreases |h|
  {
    if h == [] {
    } else {
      var g, p := h[..|h| - 1], h[|h| - 1];
      AfterShows(g, frames);
      UnboundedTidy(g);
      AccessShows(After(g, frames), Unbounded(g), p, frames(p));
    }
  }

  /**
    Exact LRU. The list never has more than sixteen nodes and no page twice. Its
    pages are the most recently used ones, in order: all sixteen slots once the
    sentinel is gone, and all but the sentinel's slot before; and nothing is
    evicted while there is room.
   */
  lemma ExactlyLru(h: seq<Page>, frames: Page -> nat)
    requires forall p :: frames(p) != 0
    ensures var lines, r := After(h, frames), Recency(h);
      && 1 <= |lines| <= MAX_NODES
      && (forall i, j :: 0 <= i < j < |lines| && lines[i].frame != 0 && lines[j].frame != 0 ==>
            lines[i].page != lines[j].page)
      && (SENTINEL !in lines ==> |lines| == MAX_NODES <= |r| && Pages(lines) == AsEntries(r[..MAX_NODES]))
      && (SENTINEL in lines ==>
            var n := if |r| < MAX_NODES then |r| else MAX_NODES - 1;
            |lines| == n + 1 && Reals(Pages(lines)) == r[..n])
  {
    AfterShows(h, frames);
    UnboundedTidy(h);
    UnboundedIsRecency(h);
    LruFromShows(After(h, frames), Unbounded(h), Recency(h));
  }

  function AsEntries(r: seq<Page>): (e: seq<Option<Page>>)
    ensures |e| == |r|
  {
    seq(|r|, i requires 0 <= i < |r| => Some(r[i]))
  }

  lemma LruFromShows(lines: seq<Line>, u: seq<Option<Page>>, r: seq<Page>)
    requires Tidy(u) && Shows(lines, u) && Reals(u) == r
    ensures
      && 1 <= |lines| <= MAX_NODES
      && (forall i, j :: 0 <= i < j < |lines| && lines[i].frame != 0 && lines[j].frame != 0 ==>
            lines[i].page != lines[j].page)
      && (SENTINEL !in lines ==> |lines| == MAX_NODES <= |r| && Pages(lines) == AsEntries(r[..MAX_NODES]))
      && (SENTINEL in lines ==>
            var n := if |r| < MAX_NODES then |r| else MAX_NODES - 1;
            |lines| == n + 1 && Reals(Pages(lines)) == r[..n])
  {
    var n := IndexOf(u, None);
    assert forall k :: 0 <= k < |lines| ==> Pages(lines)[k] == u[k];
    forall i, j | 0 <= i < j < |lines| && lines[i].frame != 0 && lines[j].frame != 0
      ensures lines[i].page != lines[j].page {
      assert Pages(lines)[i] == Some(lines[i].page) && Pages(lines)[j] == Some(lines[j].page);
    }
    RealsOfAll(u);
    if n < |lines| {
      assert Pages(lines)[n] == None && lines[n] == SENTINEL;
      RealsOfFirst(u, |lines|);
    } else {
      forall k | 0 <= k < |lines| ensures lines[k] != SENTINEL {
        assert Pages(lines)[k] != None;
      }
      RealsOfPrefix(u, |lines|);
    }
  }

  /** All entries but the sentinel are pages. */
  lemma RealsOfAll(u: seq<Option<Page>>)
    requires (forall i, j :: 0 <= i < j < |u| ==> u[i] != u[j]) && IndexOf(u, None) < |u|
    ensures |Reals(u)| == |u| - 1
  {
    var n := IndexOf(u, None);
    SentinelToFront(u, n);
    RealsOfRealList(u[..n]);
    RealsOfRealList(u[n + 1..]);
  }

  lemma RealsPrefix(u: seq<Option<Page>>, m: nat)
    requires m <= |u|
    ensures |Reals(u[..m])| <= |Reals(u)| && Reals(u[..m]) == Reals(u)[..|Reals(u[..m])|]
  {
    assert u == u[..m] + u[m..];
    RealsConcat(u[..m], u[m..]);
  }

  /** The first entries, with the sentinel among them. */
  lemma RealsOfFirst(u: seq<Option<Page>>, m: nat)
    requires Tidy(u) && IndexOf(u, None) < m <= |u|
    ensures |Reals(u)| >= m - 1 && Reals(u[..m]) == Reals(u)[..m - 1]
  {
    var n, e := IndexOf(u, None), u[..m];
    IndexUnique(e, None, n);
    RealsOfAll(e);
    RealsPrefix(u, m);
  }

  /** The first entries, without the sentinel. */
  lemma RealsOfPrefix(u: seq<Option<Page>>, m: nat)
    requires Tidy(u) && m <= |u| && m <= IndexOf(u, None)
    ensures |Reals(u)| >= m && u[..m] == AsEntries(Reals(u)[..m])
  {
    assert None !in u[..m];
    RealsOfRealList(u[..m]);
    RealsPrefix(u, m);
  }

  lemma EntriesToFront(r: seq<Page>, i: nat)
    requires i < |r|
    ensures ToFront(AsEntries(r) + [None], i) == AsEntries([r[i]] + (r[..i] + r[i + 1..])) + [None]
  {
    var o := ToFront(AsEntries(r) + [None], i);
    ToFrontAt(AsEntries(r) + [None], i);
    var t := AsEntries([r[i]] + (r[..i] + r[i + 1..])) + [None];
    assert forall k :: 0 <= k < |o| ==> o[k] == t[k];
  }

  /** Until page zero of process zero is used, the sentinel is simply the oldest entry. */
  lemma {:induction false} SentinelIsOldest(h: seq<Page>)
    requires ZERO_PAGE !in h
    ensures Unbounded(h) == AsEntries(Recency(h)) + [None]
    decreases |h|
  {
    if h == [] {
      assert AsEntries([]) == [];
    } else {
      var g, p := h[..|h| - 1], h[|h| - 1];
      SentinelIsOldest(g);
      RecencyIsByLastUse(g);
      OldestStays(Recency(g), p, g);
    }
  }

  lemma {:induction false} OldestStays(r: seq<Page>, p: Page, g: seq<Page>)
    requires p != ZERO_PAGE && ByLastUse(r, g)
    ensures Use(AsEntries(r) + [None], p) == AsEntries([p] + Without(r, p)) + [None]
  {
    EntriesIndex(r, p);
    if p in r {
      forall k, l | 0 <= k < l < |r| ensures r[k] != r[l] {
        assert LastUse(g, r[k]) > LastUse(g, r[l]);
      }
      UsedBefore(r, IndexOf(r, p));
    } else {
      WithoutAbsent(r, p);
      EntriesCons(r, p);
    }
  }

  lemma {:induction false} EntriesIndex(r: seq<Page>, p: Page)
    ensures var u, i := AsEntries(r) + [None], IndexOf(r, p);
            && (p in r ==> i < |r| && IndexOf(u, Some(p)) == i)
            && (p !in r ==> IndexOf(u, Some(p)) == |u|)
    decreases |r|
  {
    if r == [] {
      var u := AsEntries(r) + [None];
      assert u[0] == None && u[1..] == [];
    } else {
      EntriesIndex(r[1..], p);
      assert (AsEntries(r) + [None])[1..] == AsEntries(r[1..]) + [None];
      assert r == [r[0]] + r[1..];
    }
  }

  lemma {:induction false} EntriesCons(r: seq<Page>, p: Page)
    ensures [Some(p)] + (AsEntries(r) + [None]) == AsEntries([p] + r) + [None]
  {
    var o, t := [Some(p)] + (AsEntries(r) + [None]), AsEntries([p] + r) + [None];
    assert forall k :: 0 <= k < |o| ==> o[k] == t[k];
  }

  lemma {:induction false} UsedBefore(r: seq<Page>, i: nat)
    requires i < |r| && forall k, l :: 0 <= k < l < |r| ==> r[k] != r[l]
    ensures ToFront(AsEntries(r) + [None], i) == AsEntries([r[i]] + Without(r, r[i])) + [None]
  {
    var a, b := r[..i], r[i + 1..];
    assert r == a + [r[i]] + b;
    assert r[i] !in a && r[i] !in b;
    WithoutMiddle(a, r[i], b);
    EntriesToFront(r, i);
  }
}
