/**
  Where the sentinel of the buffer is after any history. It ages like a page used
  when page zero of process zero was used first, provided it was still among the
  sixteen entries then; if not, or if that page was never used, it is the oldest.
 */
module TlbSentinel {
  import opened Prelude
  import opened Sequences
  import opened TlbModel

  /** The first use of page zero finds the sentinel. */
  ghost predicate Refreshed(h: seq<Page>)
  {
    ZERO_PAGE in h && |Recency(h[..IndexOf(h, ZERO_PAGE)])| < MAX_NODES
  }

  /** How many different pages were used after the sentinel was. */
  ghost function SentinelAt(h: seq<Page>): nat
  {
    if Refreshed(h) then |Recency(h[IndexOf(h, ZERO_PAGE)..])| else |Recency(h)|
  }

  /** The recency list with the sentinel at place `k`. */
  ghost function Marked(r: seq<Page>, k: nat): seq<Option<Page>>
    requires k <= |r|
  {
    InsertAt(AsEntries(r), k, None)
  }

  lemma MarkedAt(r: seq<Page>, k: nat)
    requires k <= |r|
    ensures |Marked(r, k)| == |r| + 1
    ensures forall i {:trigger Marked(r, k)[i]} :: 0 <= i <= |r| ==>
              Marked(r, k)[i] == if i < k then Some(r[i]) else if i == k then None else Some(r[i - 1])
  {
    hide InsertAt;
    InsertedAt(AsEntries(r), k, None);
  }

  ghost predicate Different(r: seq<Page>)
  {
    forall i, j :: 0 <= i < j < |r| ==> r[i] != r[j]
  }

  lemma FoundAt<T>(s: seq<T>, x: T, i: nat)
    requires i < |s| && s[i] == x && forall k :: 0 <= k < i ==> s[k] != x
    ensures IndexOf(s, x) == i
  {
  }

  lemma NotFound<T>(s: seq<T>, x: T)
    requires forall k :: 0 <= k < |s| ==> s[k] != x
    ensures IndexOf(s, x) == |s|
  {
  }

  /** Where things are in a marked list. */
  lemma MarkedIndex(r: seq<Page>, k: nat, p: Page)
    requires k <= |r| && Different(r)
    ensures IndexOf(Marked(r, k), None) == k
    ensures var i := IndexOf(r, p);
            IndexOf(Marked(r, k), Some(p)) == if i == |r| then |r| + 1 else if i < k then i else i + 1
  {
    hide Marked, IndexOf;
    MarkedAt(r, k);
    var u, i := Marked(r, k), IndexOf(r, p);
    FoundAt(u, None, k);
    if i == |r| {
      NotFound(u, Some(p));
    } else {
      FoundAt(u, Some(p), if i < k then i else i + 1);
    }
  }

  /** A page used again moves to the front, past the sentinel if it was behind it. */
  lemma MarkedToFront(r: seq<Page>, k: nat, i: nat)
    requires k <= |r| && i < |r|
    ensures |ToFront(r, i)| == |Marked(r, k)| - 1 == |r|
    ensures ToFront(Marked(r, k), if i < k then i else i + 1) == Marked(ToFront(r, i), if i < k then k else k + 1)
  {
    hide Marked, ToFront;
    MarkedAt(r, k);
    var iu, k' := if i < k then i else i + 1, if i < k then k else k + 1;
    ToFrontAt(r, i);
    ToFrontAt(Marked(r, k), iu);
    MarkedAt(ToFront(r, i), k');
    var a, b := ToFront(Marked(r, k), iu), Marked(ToFront(r, i), k');
    forall j | 0 <= j <= |r| ensures a[j] == b[j] {
    }
  }

  lemma MarkedCons(r: seq<Page>, k: nat, p: Page)
    requires k <= |r|
    ensures [Some(p)] + Marked(r, k) == Marked([p] + r, k + 1)
  {
    hide Marked;
    MarkedAt(r, k);
    MarkedAt([p] + r, k + 1);
  }

  /** Page zero comes in front, and takes the sentinel along. */
  lemma MarkedZero(r: seq<Page>, p: Page)
    ensures |Marked(r, |r|)| == |r| + 1
    ensures [Some(p)] + ToFront(Marked(r, |r|), |r|) == Marked([p] + r, 1)
  {
    hide Marked, ToFront;
    MarkedAt(r, |r|);
    ToFrontAt(Marked(r, |r|), |r|);
    MarkedAt([p] + r, 1);
  }

  // ---------- one use after the other ----------

  lemma WithoutIsToFront(r: seq<Page>, p: Page)
    requires Different(r)
    ensures p in r ==> [p] + Without(r, p) == ToFront(r, IndexOf(r, p))
    ensures p !in r ==> Without(r, p) == r
  {
    hide Without;
    if p in r {
      var i := IndexOf(r, p);
      OnlyHere(r, i);
      WithoutMiddle(r[..i], p, r[i + 1..]);
      Regroup([p], r[..i], r[i + 1..]);
    } else {
      WithoutAbsent(r, p);
    }
  }

  lemma OnlyHere(r: seq<Page>, i: nat)
    requires Different(r) && i < |r|
    ensures r[i] !in r[..i] && r[i] !in r[i + 1..] && r == r[..i] + [r[i]] + r[i + 1..]
  {
    var b := r[i + 1..];
    assert forall k :: 0 <= k < |b| ==> b[k] == r[i + 1 + k];
  }

  lemma {:induction false} FirstUseStays(g: seq<Page>, p: Page)
    ensures ZERO_PAGE in g ==> IndexOf(g + [p], ZERO_PAGE) == IndexOf(g, ZERO_PAGE)
    ensures ZERO_PAGE !in g && p == ZERO_PAGE ==> IndexOf(g + [p], ZERO_PAGE) == |g|
  {
    var h, f := g + [p], IndexOf(g, ZERO_PAGE);
    if ZERO_PAGE in g {
      FoundAt(h, ZERO_PAGE, f);
    } else if p == ZERO_PAGE {
      FoundAt(h, ZERO_PAGE, |g|);
    }
  }

  /** What is known of the place: the pages in front of the sentinel are those used since it was. */
  ghost predicate Placed(h: seq<Page>)
  {
    var r, k := Recency(h), SentinelAt(h);
    && k <= |r| && Unbounded(h) == Marked(r, k) && Different(r)
    && (Refreshed(h) ==> r[..k] == Recency(h[IndexOf(h, ZERO_PAGE)..]))
  }

  lemma RecencyNext(g: seq<Page>, p: Page)
    requires Different(Recency(g))
    ensures var r := Recency(g); Recency(g + [p]) == if p in r then ToFront(r, IndexOf(r, p)) else [p] + r
    ensures Unbounded(g + [p]) == Use(Unbounded(g), p)
  {
    hide Without, ToFront, IndexOf, Use;
    assert (g + [p])[..|g|] == g;
    WithoutIsToFront(Recency(g), p);
  }

  lemma RecencyDiffers(h: seq<Page>)
    ensures Different(Recency(h)) && forall p :: p in Recency(h) <==> p in h
  {
    hide Recency, LastUse;
    RecencyIsByLastUse(h);
  }

  /** The place after one more use. */
  ghost function PlaceAfter(r: seq<Page>, k: nat, p: Page): nat
  {
    if p in r then (if IndexOf(r, p) < k then k else k + 1)
    else if p == ZERO_PAGE && |r| < MAX_NODES then 1
    else k + 1
  }

  /** One use does the same to the marked list as to the list without a bound. */
  lemma UseMarked(r: seq<Page>, k: nat, p: Page)
    requires k <= |r| && Different(r) && (p == ZERO_PAGE && p !in r ==> k == |r|)
    ensures var r' := if p in r then ToFront(r, IndexOf(r, p)) else [p] + r;
            PlaceAfter(r, k, p) <= |r'| && Use(Marked(r, k), p) == Marked(r', PlaceAfter(r, k, p))
  {
    hide Marked, ToFront, IndexOf;
    MarkedIndex(r, k, p);
    MarkedAt(r, k);
    if p in r {
      InIndex(r, p);
      MarkedToFront(r, k, IndexOf(r, p));
    } else {
      NotFound(r, p);
      if p == ZERO_PAGE && k < MAX_NODES {
        MarkedZero(r, p);
      } else {
        MarkedCons(r, k, p);
      }
    }
  }

  lemma InIndex(r: seq<Page>, p: Page)
    requires p in r
    ensures IndexOf(r, p) < |r|
  {
  }

  lemma FrontOfNearer(r: seq<Page>, k: nat, i: nat)
    requires i < k <= |r|
    ensures ToFront(r[..k], i) == ToFront(r, i)[..k]
  {
    ToFrontAt(r, i);
    ToFrontAt(r[..k], i);
    hide ToFront;
    forall j | 0 <= j < k ensures ToFront(r, i)[..k][j] == ToFront(r[..k], i)[j] {
      assert ToFront(r, i)[..k][j] == ToFront(r, i)[j];
    }
  }

  lemma FrontOfFarther(r: seq<Page>, k: nat, i: nat)
    requires k <= i < |r|
    ensures [r[i]] + r[..k] == ToFront(r, i)[..k + 1]
  {
    ToFrontAt(r, i);
    hide ToFront;
    forall j | 0 <= j <= k ensures ToFront(r, i)[..k + 1][j] == ([r[i]] + r[..k])[j] {
      assert ToFront(r, i)[..k + 1][j] == ToFront(r, i)[j];
    }
  }

  /** The pages in front of the sentinel after one more use. */
  lemma FrontNext(r: seq<Page>, k: nat, p: Page)
    requires k <= |r| && Different(r)
    ensures var f := r[..k];
            var r' := if p in r then ToFront(r, IndexOf(r, p)) else [p] + r;
            var f' := if p in f then ToFront(f, IndexOf(f, p)) else [p] + f;
            var k' := if p in r && IndexOf(r, p) < k then k else k + 1;
            k' <= |r'| && f' == r'[..k']
  {
    hide ToFront, IndexOf;
    var f := r[..k];
    if p in r {
      var i := IndexOf(r, p);
      InIndex(r, p);
      if i < k {
        assert f[i] == p;
        FoundAt(f, p, i);
        FrontOfNearer(r, k, i);
      } else {
        FrontOfFarther(r, k, i);
      }
    }
  }

  /** Page zero was used before: what was used since is one use longer. */
  lemma SinceNext(g: seq<Page>, p: Page)
    requires Placed(g) && Refreshed(g)
    ensures Refreshed(g + [p])
    ensures var r, k, h := Recency(g), SentinelAt(g), g + [p];
            && SentinelAt(h) == PlaceAfter(r, k, p) <= |Recency(h)|
            && Recency(h)[..SentinelAt(h)] == Recency(h[IndexOf(h, ZERO_PAGE)..])
  {
    hide Unbounded, Marked, Recency, IndexOf, ToFront;
    var r, k, f, h := Recency(g), SentinelAt(g), IndexOf(g, ZERO_PAGE), g + [p];
    FirstUseStays(g, p);
    assert h[..f] == g[..f] && h[f..] == g[f..] + [p] && ZERO_PAGE in h;
    RecencyDiffers(g);
    RecencyDiffers(g[f..]);
    RecencyNext(g, p);
    RecencyNext(g[f..], p);
    FrontNext(r, k, p);
  }

  /** Page zero was not used before, or too late. */
  lemma PlaceNext(g: seq<Page>, p: Page)
    requires Placed(g) && !Refreshed(g)
    ensures var r, k, h := Recency(g), SentinelAt(g), g + [p];
            && SentinelAt(h) == PlaceAfter(r, k, p) <= |Recency(h)|
            && (Refreshed(h) ==> Recency(h)[..SentinelAt(h)] == Recency(h[IndexOf(h, ZERO_PAGE)..]))
  {
    hide Unbounded, Marked, ToFront, Recency, IndexOf;
    var r, h := Recency(g), g + [p];
    RecencyDiffers(g);
    RecencyNext(g, p);
    FirstUseStays(g, p);
    if ZERO_PAGE in g {
      assert h[..IndexOf(g, ZERO_PAGE)] == g[..IndexOf(g, ZERO_PAGE)];
    } else if p == ZERO_PAGE {
      assert h[..|g|] == g && h[|g|..] == [p];
      OneUse(p);
    }
  }

  lemma OneUse(p: Page)
    ensures Recency([p]) == [p]
  {
    assert [p][..0] == [] && Recency([]) == [];
  }

  lemma PlacedNext(g: seq<Page>, p: Page)
    requires Placed(g)
    ensures Placed(g + [p])
  {
    var r, k := Recency(g), SentinelAt(g);
    RecencyDiffers(g);
    RecencyDiffers(g + [p]);
    RecencyNext(g, p);
    if Refreshed(g) {
      SinceNext(g, p);
    } else {
      PlaceNext(g, p);
    }
    hide Marked, Recency, Unbounded, Use, SentinelAt, Refreshed;
    ZeroWasUsed(g, p);
    UseMarked(r, k, p);
  }

  /** Page zero is new only while the sentinel is the oldest. */
  lemma ZeroWasUsed(g: seq<Page>, p: Page)
    ensures p == ZERO_PAGE && p !in Recency(g) ==> SentinelAt(g) == |Recency(g)|
  {
    RecencyDiffers(g);
  }

  /**
    After any history the list without a bound is the recency list with the
    sentinel behind the pages used since page zero was used first, if the
    sentinel was within reach then, and at its end otherwise.
   */
  lemma {:induction false} SentinelIsPlaced(h: seq<Page>)
    ensures Placed(h)
    decreases |h|
  {
    if h == [] {
      assert Marked([], 0) == [None];
    } else {
      var g, p := h[..|h| - 1], h[|h| - 1];
      SentinelIsPlaced(g);
      PlacedNext(g, p);
      assert g + [p] == h;
    }
  }

  /** The sentinel is in the list exactly while fewer than sixteen pages are in front of it. */
  lemma SentinelIsListed(h: seq<Page>, lines: seq<Line>)
    requires Shows(lines, Unbounded(h))
    ensures SENTINEL in lines <==> SentinelAt(h) < 16
  {
    SentinelIsPlaced(h);
    hide Marked, Recency, Unbounded, SentinelAt;
    var r, k, u := Recency(h), SentinelAt(h), Unbounded(h);
    MarkedAt(r, k);
    assert forall i :: 0 <= i < |lines| ==> Pages(lines)[i] == FirstOf(u, MAX_NODES)[i] == u[i];
    forall i | 0 <= i < |lines| ensures lines[i] == SENTINEL <==> i == k {
      assert Pages(lines)[i] == u[i];
    }
    assert |lines| == |Pages(lines)| == if |u| <= MAX_NODES then |u| else MAX_NODES;
    assert k < MAX_NODES ==> k < |lines| && lines[k] == SENTINEL;
  }

  /** Whether the next use of `p` is a hit: it is one of the entries in reach, the sentinel counted where it is. */
  lemma HitExactly(h: seq<Page>, p: Page)
    ensures Some(p) in Unbounded(h) && IndexOf(Unbounded(h), Some(p)) < 16 <==>
            var r := Recency(h);
            p in h && IndexOf(r, p) + (if IndexOf(r, p) < SentinelAt(h) then 0 else 1) < 16
  {
    SentinelIsPlaced(h);
    RecencyDiffers(h);
    hide Marked, Recency, Unbounded, SentinelAt, IndexOf;
    MarkedIndex(Recency(h), SentinelAt(h), p);
    MarkedAt(Recency(h), SentinelAt(h));
    if p in h {
      InIndex(Recency(h), p);
    } else {
      NotFound(Recency(h), p);
    }
  }

  /** The list, from the history alone: the first sixteen of the recency list with the sentinel in its place. */
  lemma ListIsExactly(h: seq<Page>, frames: Page -> nat)
    requires forall p :: frames(p) != 0
    ensures SentinelAt(h) <= |Recency(h)|
    ensures Pages(After(h, frames)) == FirstOf(Marked(Recency(h), SentinelAt(h)), 16)
  {
    hide Marked, Recency, Unbounded, SentinelAt;
    AfterShows(h, frames);
    SentinelIsPlaced(h);
  }
}
