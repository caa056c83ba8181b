/**
  What holds between the translation buffer, the tables and the counters of
  mmu.c after any history of translations.
 */
module MmuModel {
  import opened Prelude
  import opened TlbModel
  import opened TlbSentinel
  import opened AddressBits
  import opened PageTables

  /** The page is among the sixteen the buffer shows, so its translation is a hit. */
  ghost predicate Buffered(h: seq<Page>, p: Page)
  {
    var u := Unbounded(h);
    Some(p) in u && IndexOf(u, Some(p)) < MAX_NODES
  }

  /** Those are the pages used last, sixteen of them, or fifteen while the sentinel is in front. */
  lemma BufferedIsRecent(h: seq<Page>, p: Page)
    ensures Buffered(h, p) <==>
            p in h && IndexOf(Recency(h), p) + (if IndexOf(Recency(h), p) < SentinelAt(h) then 0 else 1) < 16
  {
    hide Recency, Unbounded, SentinelAt, IndexOf;
    HitExactly(h, p);
  }

  /** How often a history has missed. */
  ghost function Misses(h: seq<Page>): nat
    decreases |h|
  {
    if h == [] then 0
    else Misses(h[..|h| - 1]) + if Buffered(h[..|h| - 1], h[|h| - 1]) then 0 else 1
  }

  /** The translations of a history that were not of one of the sixteen latest entries then. */
  ghost function MissedAt(h: seq<Page>): set<nat>
  {
    set i: nat | i < |h| && !Buffered(h[..i], h[i])
  }

  lemma MissedNext(g: seq<Page>, p: Page)
    ensures MissedAt(g + [p]) == MissedAt(g) + if Buffered(g, p) then {} else {|g|}
  {
    hide Buffered;
    var h := g + [p];
    forall i: nat ensures i in MissedAt(h) <==> i in MissedAt(g) || (i == |g| && !Buffered(g, p)) {
      if i < |g| {
        assert h[..i] == g[..i] && h[i] == g[i];
      } else if i == |g| {
        assert h[..i] == g && h[i] == p;
      }
    }
  }

  lemma {:induction false} MissesAreCounted(h: seq<Page>)
    ensures Misses(h) == |MissedAt(h)|
    decreases |h|
  {
    if h == [] {
    } else {
      var g, p := h[..|h| - 1], h[|h| - 1];
      MissesAreCounted(g);
      assert g + [p] == h;
      MissedNext(g, p);
      hide Buffered;
    }
  }

  /** Every line but the sentinel gives the frame the tables give. */
  ghost predicate Backed(lines: seq<Line>, nodes: Nodes)
  {
    forall i :: 0 <= i < |lines| && lines[i].frame != 0 ==>
      FramePath(lines[i].page) in nodes && lines[i].frame == nodes[FramePath(lines[i].page)]
  }

  ghost predicate Extends(newer: Nodes, older: Nodes)
  {
    forall x :: x in older ==> x in newer && newer[x] == older[x]
  }

  lemma NodesAreNotNull(nodes: Nodes, blocks: Blocks, x: Path)
    requires Tree(nodes, blocks) && x in nodes
    ensures nodes[x] > 0
  {
  }

  lemma BackedGrows(lines: seq<Line>, nodes: Nodes, newer: Nodes)
    requires Backed(lines, nodes) && Extends(newer, nodes)
    ensures Backed(lines, newer)
  {
  }

  lemma BackedLookup(lines: seq<Line>, nodes: Nodes, p: Page)
    requires Backed(lines, nodes)
    ensures Backed(Lookup(lines, p).0, nodes)
    ensures Lookup(lines, p).1 != 0 ==> FramePath(p) in nodes && Lookup(lines, p).1 == nodes[FramePath(p)]
  {
    var i := Find(lines, p);
    if i < |lines| { ToFrontAt(lines, i); }
  }

  lemma BackedAdd(lines: seq<Line>, nodes: Nodes, p: Page, frame: nat)
    requires Backed(lines, nodes) && FramePath(p) in nodes && frame == nodes[FramePath(p)]
    ensures Backed(Add(lines, p, frame), nodes)
  {
    var a := Add(lines, p, frame);
    assert forall k :: 0 < k < |a| ==> a[k] == lines[k - 1];
  }

  lemma HistoryNext(h: seq<Page>, p: Page)
    ensures (h + [p])[..|h|] == h
    ensures Unbounded(h + [p]) == Use(Unbounded(h), p)
    ensures Prefixes(h + [p]) == Prefixes(h) + Needed(p)
    ensures Misses(h + [p]) == Misses(h) + if Buffered(h, p) then 0 else 1
  {
    assert (h + [p])[..|h|] == h;
  }

  /** Nothing new is needed for a page that has its frame. */
  lemma NothingNeeded(nodes: Nodes, blocks: Blocks, p: Page)
    requires Tree(nodes, blocks) && FramePath(p) in nodes
    ensures BelowBase(nodes) + Needed(p) == BelowBase(nodes)
  {
    FrameHasNeeded(nodes, blocks, p);
  }

  // ---------- the whole account ----------

  /** The tables with their counter, the buffer with its counter, and the translations so far. */
  datatype Account = Account(tables: Tables, lines: seq<Line>, misses: nat, history: seq<Page>)

  /** The buffer and the counters are what the history makes them. */
  ghost predicate Accounted(c: Account)
  {
    && Shows(c.lines, Unbounded(c.history)) && Backed(c.lines, c.tables.nodes)
    && c.misses == Misses(c.history)
    && c.tables.faults == |Prefixes(c.history)|
    && BelowBase(c.tables.nodes) == Prefixes(c.history)
  }

  lemma EmptyAccount(c: Account)
    requires c.lines == [SENTINEL] && c.history == [] && c.misses == 0 == c.tables.faults
    requires BelowBase(c.tables.nodes) == {}
    ensures Accounted(c)
  {
    assert Pages([SENTINEL]) == [None];
  }

  lemma LinesFit(c: Account)
    requires Accounted(c)
    ensures |c.lines| <= MAX_NODES
  {
    assert |Pages(c.lines)| == |c.lines|;
  }

  /** One translation: an answer from the buffer, or a walk whose frame goes into the buffer. */
  ghost predicate Translated(c: Account, d: Account, p: Page, frame: int)
  {
    var (found, v) := Lookup(c.lines, p);
    && d.history == c.history + [p]
    && if v != 0 then
         d == c.(lines := found, history := d.history) && frame == v
       else
         && Grown(c.tables, d.tables, Needed(p))
         && FramePath(p) in d.tables.nodes && frame == d.tables.nodes[FramePath(p)] && frame > 0
         && d.lines == Add(found, p, frame) && d.misses == c.misses + 1
  }

  lemma IsHit(c: Account, d: Account, p: Page, frame: int)
    requires (d.lines, frame) == Lookup(c.lines, p) && frame != 0
    requires d == c.(lines := d.lines, history := c.history + [p])
    ensures Translated(c, d, p, frame)
  {
  }

  lemma IsMiss(c: Account, d: Account, p: Page, frame: int)
    requires frame >= 0 && Lookup(c.lines, p).1 == 0 && d.lines == Add(Lookup(c.lines, p).0, p, frame)
    requires d.history == c.history + [p] && d.misses == c.misses + 1 && Grown(c.tables, d.tables, Needed(p))
    requires FramePath(p) in d.tables.nodes && frame == d.tables.nodes[FramePath(p)] > 0
    ensures Translated(c, d, p, frame)
  {
  }

  lemma TranslatedKeeps(c: Account, d: Account, p: Page, frame: int)
    requires Tree(c.tables.nodes, c.tables.blocks) && Accounted(c) && Translated(c, d, p, frame)
    ensures Accounted(d) && FramePath(p) in d.tables.nodes && frame == d.tables.nodes[FramePath(p)]
    ensures Extends(d.tables.nodes, c.tables.nodes)
    ensures Outside(d.tables.blocks, d.tables.nodes) == Outside(c.tables.blocks, c.tables.nodes)
  {
    if Lookup(c.lines, p).1 != 0 {
      HitKeeps(c.lines, c.history, c.tables.nodes, c.tables.blocks, p);
    } else {
      MissKeeps(c.lines, c.history, d.tables.nodes, c.tables.nodes, p);
    }
  }

  // ---------- the answers given ----------

  datatype Request = Request(pid: nat, low: bv64)

  /** Every answer is what the tables say, for a request in its low 51 bits. */
  ghost predicate Answered(answers: map<Request, int>, nodes: Nodes)
  {
    forall r :: r in answers ==> AnswerIs(r, answers[r], nodes)
  }

  ghost predicate AnswerIs(r: Request, a: int, nodes: Nodes)
  {
    && Low51(r.low) == r.low
    && FramePath(Page(Key(r.low), r.pid)) in nodes
    && a == Physical(nodes[FramePath(Page(Key(r.low), r.pid))], r.low)
  }

  lemma LowIsEnough(va: bv64)
    ensures Low51(Low51(va)) == Low51(va) && Key(Low51(va)) == Key(va) && Low51(va) & 0x7FFF == va & 0x7FFF
  {
  }

  /** The answer to a request, and that it is the one given before. */
  lemma AnsweredNext(answers: map<Request, int>, nodes: Nodes, va: bv64, pid: nat, a: int)
    requires Answered(answers, nodes) && FramePath(Page(Key(va), pid)) in nodes
    requires a == Physical(nodes[FramePath(Page(Key(va), pid))], va)
    ensures var r := Request(pid, Low51(va));
            Answered(answers[r := a], nodes) && (r in answers ==> answers[r] == a)
  {
    hide FramePath;
    LowIsEnough(va);
    var r := Request(pid, Low51(va));
    assert AnswerIs(r, a, nodes);
    assert r in answers ==> AnswerIs(r, answers[r], nodes);
  }

  lemma AnsweredGrows(answers: map<Request, int>, nodes: Nodes, newer: Nodes)
    requires Answered(answers, nodes) && Extends(newer, nodes)
    ensures Answered(answers, newer)
  {
    forall r | r in answers ensures AnswerIs(r, answers[r], newer) {
      assert AnswerIs(r, answers[r], nodes);
    }
  }

  /** No two requests have the same answer. */
  lemma AnswersDiffer(answers: map<Request, int>, nodes: Nodes, blocks: Blocks, r: Request, s: Request)
    requires Tree(nodes, blocks) && Answered(answers, nodes) && r in answers && s in answers
    ensures answers[r] == answers[s] <==> r == s
  {
    hide Physical, Low51, Key, FramePath, Tree;
    assert AnswerIs(r, answers[r], nodes) && AnswerIs(s, answers[s], nodes);
    TranslationIsInjective(nodes, blocks, r.low, r.pid, s.low, s.pid);
  }

  // ---------- memory that is not the tables' ----------

  ghost function Outside(blocks: Blocks, nodes: Nodes): Blocks
  {
    Left(blocks, nodes, nodes.Keys)
  }

  lemma AtGrows(nodes: Nodes, c: Path, a: int)
    requires c !in nodes
    ensures At(nodes[c := a], nodes[c := a].Keys) == At(nodes, nodes.Keys) + {a}
  {
    var newer := nodes[c := a];
    forall q ensures q in At(newer, newer.Keys) <==> q in At(nodes, nodes.Keys) + {a} {
      if q in At(nodes, nodes.Keys) {
        var x :| x in nodes && nodes[x] == q;
        assert newer[x] == q;
      }
      if q == a { assert newer[c] == a; }
    }
  }

  /** A new block that becomes a node leaves the rest of the memory as it was. */
  lemma OutsideGrows(nodes: Nodes, blocks: Blocks, c: Path, a: int, words: seq<int>)
    requires c !in nodes && a !in blocks
    ensures Outside(blocks[a := words], nodes[c := a]) == Outside(blocks, nodes)
  {
    AtGrows(nodes, c, a);
    hide At;
    var l, r := Outside(blocks[a := words], nodes[c := a]), Outside(blocks, nodes);
    forall q ensures q in l <==> q in r {
    }
    assert l == r;
  }

  /** And so does a word written into a node. */
  lemma OutsideWritten(nodes: Nodes, blocks: Blocks, x: Path, words: seq<int>)
    requires x in nodes && nodes[x] in blocks
    ensures Outside(blocks[nodes[x] := words], nodes) == Outside(blocks, nodes)
  {
    assert nodes[x] in At(nodes, nodes.Keys);
  }

  lemma BelowBaseGrows(nodes: Nodes, c: Path, a: int)
    requires c !in nodes && c.v != []
    ensures BelowBase(nodes[c := a]) == BelowBase(nodes) + {c} && c !in BelowBase(nodes)
  {
  }

  /** What the tables, the memory they live in and the fault counter amount to. */
  datatype Tables = Tables(nodes: Nodes, blocks: Blocks, faults: nat)

  /**
    From `t` to `u` the nodes `needs` were made where they were missing, each at
    the cost of one fault; what was there before has stayed, in and out of the tree.
   */
  ghost predicate Grown(t: Tables, u: Tables, needs: set<Path>)
  {
    && Extends(u.nodes, t.nodes)
    && BelowBase(u.nodes) == BelowBase(t.nodes) + needs
    && u.faults - |BelowBase(u.nodes)| == t.faults - |BelowBase(t.nodes)|
    && Outside(u.blocks, u.nodes) == Outside(t.blocks, t.nodes)
  }

  /** A new child made on a page fault. */
  lemma ChildGrows(nodes: Nodes, blocks: Blocks, faults: nat, x: Path, i: nat, c: int, words: seq<int>)
    requires Tree(nodes, blocks) && x in nodes && |x.v| < 3 && i < PAGETABLE_SIZE && Child(x, i) !in nodes
    requires Free(blocks, c) && |words| == PAGETABLE_SIZE && (|x.v| < 2 ==> words == Zeroes())
    ensures var p, held := nodes[x], blocks[c := words];
            && p in held && i < |held[p]| && held[p] == blocks[p]
            && Tree(nodes[Child(x, i) := c], held[p := held[p][i := c]])
    ensures c !in blocks && c != 0
    ensures Grown(Tables(nodes, blocks, faults),
                  Tables(nodes[Child(x, i) := c], blocks[c := words][nodes[x] := blocks[nodes[x]][i := c]], faults + 1),
                  {Child(x, i)})
  {
    var p, held := nodes[x], blocks[c := words];
    AllocateKeeps(nodes, blocks, c, words);
    TreeGrows(nodes, held, x, i, c);
    OutsideGrows(nodes, blocks, Child(x, i), c, words);
    OutsideWritten(nodes[Child(x, i) := c], held, x, held[p][i := c]);
    BelowBaseGrows(nodes, Child(x, i), c);
    hide Tree, Word, Outside, At;
  }

  lemma GrownTwice(t: Tables, u: Tables, w: Tables, a: set<Path>, b: set<Path>)
    requires Grown(t, u, a) && Grown(u, w, b)
    ensures Grown(t, w, a + b)
  {
  }

  lemma GrownThrice(s: Tables, t: Tables, u: Tables, w: Tables, a: Path, b: Path, c: Path)
    requires Grown(s, t, {a}) && Grown(t, u, {b}) && Grown(u, w, {c})
    ensures Grown(s, w, {a} + {b} + {c})
  {
    GrownTwice(s, t, u, {a}, {b});
    GrownTwice(s, u, w, {a} + {b}, {c});
  }

  /** The three steps of a walk lead to the frame, by way of all that it needs. */
  lemma StepsToFrame(va: bv64, pid: nat)
    ensures var p := Page(Key(va), pid);
            var i1, i2, i3 := Index(Vpn1(va)), Index(Vpn2(va)), Index(Vpn3(va));
            var x1 := Child(Path(pid, []), i1);
            var x2 := Child(x1, i2);
            && i1 < PAGETABLE_SIZE && i2 < PAGETABLE_SIZE && i3 < PAGETABLE_SIZE
            && Child(x2, i3) == FramePath(p) && {x1} + {x2} + {Child(x2, i3)} == Needed(p)
  {
    FramePathOf(va, pid);
    NeededAreThree(Page(Key(va), pid));
  }

  /** A hit: nothing is needed but the line that is there. */
  lemma HitKeeps(lines: seq<Line>, h: seq<Page>, nodes: Nodes, blocks: Blocks, p: Page)
    requires Tree(nodes, blocks) && Shows(lines, Unbounded(h)) && Backed(lines, nodes)
    requires Lookup(lines, p).1 != 0 && BelowBase(nodes) == Prefixes(h)
    ensures Shows(Lookup(lines, p).0, Unbounded(h + [p])) && Backed(Lookup(lines, p).0, nodes)
    ensures FramePath(p) in nodes && Lookup(lines, p).1 == nodes[FramePath(p)]
    ensures Misses(h + [p]) == Misses(h) && Prefixes(h + [p]) == Prefixes(h)
  {
    UnboundedTidy(h);
    AccessShows(lines, Unbounded(h), p, 1);
    BackedLookup(lines, nodes, p);
    HistoryNext(h, p);
    NothingNeeded(nodes, blocks, p);
  }

  /** A miss: the walk has made what was needed, and its frame goes in front. */
  lemma MissKeeps(lines: seq<Line>, h: seq<Page>, nodes: Nodes, older: Nodes, p: Page)
    requires Shows(lines, Unbounded(h)) && Backed(lines, older) && Extends(nodes, older)
    requires Lookup(lines, p).1 == 0 && BelowBase(older) == Prefixes(h)
    requires FramePath(p) in nodes && nodes[FramePath(p)] > 0 && BelowBase(nodes) == BelowBase(older) + Needed(p)
    ensures var added := Add(Lookup(lines, p).0, p, nodes[FramePath(p)]);
            Shows(added, Unbounded(h + [p])) && Backed(added, nodes)
    ensures Misses(h + [p]) == Misses(h) + 1 && BelowBase(nodes) == Prefixes(h + [p])
  {
    UnboundedTidy(h);
    AccessShows(lines, Unbounded(h), p, nodes[FramePath(p)]);
    BackedGrows(lines, older, nodes);
    BackedLookup(lines, nodes, p);
    BackedAdd(Lookup(lines, p).0, nodes, p, nodes[FramePath(p)]);
    HistoryNext(h, p);
  }

  /** A child that is there already changes nothing. */
  lemma ChildIsThere(nodes: Nodes, x: Path, i: nat)
    requires Child(x, i) in nodes
    ensures nodes[Child(x, i) := nodes[Child(x, i)]] == nodes
    ensures BelowBase(nodes) + {Child(x, i)} == BelowBase(nodes)
  {
    ChildParent(x, i);
  }

  /** A base table for a process that had none. */
  lemma BaseGrows(nodes: Nodes, blocks: Blocks, pid: nat, a: int)
    requires Tree(nodes, blocks) && Free(blocks, a) && pid < MAX_PROCESS_ID && Path(pid, []) !in nodes
    ensures Tree(nodes[Path(pid, []) := a], blocks[a := Zeroes()])
    ensures Outside(blocks[a := Zeroes()], nodes[Path(pid, []) := a]) == Outside(blocks, nodes)
    ensures BelowBase(nodes[Path(pid, []) := a]) == BelowBase(nodes)
  {
    AllocateKeeps(nodes, blocks, a, Zeroes());
    var r := Path(pid, []);
    var newer, grown := nodes[r := a], blocks[a := Zeroes()];
    forall x, i | x in newer && |x.v| < 3 && 0 <= i < PAGETABLE_SIZE
      ensures grown[newer[x]][i] == Word(newer, Child(x, i)) {
      ChildParent(x, i);
      assert Child(x, i) != r;
      if x == r { assert Child(x, i) !in nodes; }
    }
    OutsideGrows(nodes, blocks, r, a, Zeroes());
    hide Outside, Word, Zeroes, Apart, IsPath;
  }
}
