/**
  The page tables in memory. Memory is explicit here: blocks of 4096 words that
  the allocator has handed out, so that sharing, stale pointers and double
  frees are things that could be said to happen. `nodes` gives the address of
  every table and frame of the three-level tree.
 */
module PageTables {
  import opened TlbModel
  import opened AddressBits

  type Blocks = map<int, seq<int>>
  type Nodes = map<Path, int>

  const MAX_PROCESS_ID: nat := 32768

  predicate Apart(p: int, q: int)
  {
    p + BLOCK_SIZE <= q || q + BLOCK_SIZE <= p
  }

  /** What the allocator may return: not null, and clear of every block in use. */
  predicate Free(blocks: Blocks, p: int)
  {
    p > 0 && forall q :: q in blocks ==> Apart(p, q)
  }

  ghost predicate WellAllocated(blocks: Blocks)
  {
    && (forall p :: p in blocks ==> p > 0 && |blocks[p]| == PAGETABLE_SIZE)
    && (forall p, q :: p in blocks && q in blocks && p != q ==> Apart(p, q))
  }

  ghost predicate IsPath(x: Path)
  {
    x.pid < MAX_PROCESS_ID && |x.v| <= 3 && forall i :: 0 <= i < |x.v| ==> x.v[i] < PAGETABLE_SIZE
  }

  /** The word for a node: its address, or NULL. */
  ghost function Word(nodes: Nodes, x: Path): int
  {
    if x in nodes then nodes[x] else 0
  }

  /**
    The blocks hold the tables of `nodes`: a tree in which no block is reached
    twice, whose words are exactly the addresses of the children.
   */
  ghost predicate Tree(nodes: Nodes, blocks: Blocks)
  {
    && WellAllocated(blocks)
    && (forall x :: x in nodes ==> IsPath(x) && nodes[x] in blocks)
    && (forall x, y :: x in nodes && y in nodes && x != y ==> nodes[x] != nodes[y])
    && (forall x :: x in nodes && x.v != [] ==> Parent(x) in nodes)
    && (forall x, i :: x in nodes && |x.v| < 3 && 0 <= i < PAGETABLE_SIZE ==>
          blocks[nodes[x]][i] == Word(nodes, Child(x, i)))
  }

  function Zeroes(): seq<int>
  {
    seq(PAGETABLE_SIZE, _ => 0)
  }

  lemma ChildParent(x: Path, i: nat)
    ensures Parent(Child(x, i)) == x && |Child(x, i).v| == |x.v| + 1
  {
    assert (x.v + [i])[..|x.v|] == x.v;
  }

  lemma ChildIsUnique(x: Path, i: nat, y: Path, j: nat)
    requires Child(x, i) == Child(y, j)
    ensures x == y && i == j
  {
    ChildParent(x, i);
    ChildParent(y, j);
    assert Child(x, i).v[|x.v|] == i && Child(y, j).v[|y.v|] == j;
  }

  lemma AllocateKeeps(nodes: Nodes, blocks: Blocks, a: int, words: seq<int>)
    requires Tree(nodes, blocks) && Free(blocks, a) && |words| == PAGETABLE_SIZE
    ensures Tree(nodes, blocks[a := words]) && a !in blocks
    ensures forall x :: x in nodes ==> nodes[x] != a
  {
    assert a in blocks ==> Apart(a, a);
  }

  lemma ChildIsPath(x: Path, i: nat)
    requires IsPath(x) && |x.v| < 3 && i < PAGETABLE_SIZE
    ensures IsPath(Child(x, i))
  {
    forall k | 0 <= k < |x.v| + 1 ensures Child(x, i).v[k] < PAGETABLE_SIZE {
      assert k < |x.v| ==> Child(x, i).v[k] == x.v[k];
    }
  }

  /** Any word of any table after a new child has been linked in. */
  lemma WordAfter(nodes: Nodes, blocks: Blocks, x: Path, i: nat, a: int, y: Path, j: nat)
    requires Tree(nodes, blocks) && x in nodes && |x.v| < 3 && i < PAGETABLE_SIZE && Child(x, i) !in nodes
    requires a in blocks && (forall z :: z in nodes ==> nodes[z] != a)
    requires |x.v| < 2 ==> blocks[a] == Zeroes()
    requires y in nodes[Child(x, i) := a] && |y.v| < 3 && j < PAGETABLE_SIZE
    ensures var newer := nodes[Child(x, i) := a];
            blocks[nodes[x] := blocks[nodes[x]][i := a]][newer[y]][j] == Word(newer, Child(y, j))
  {
    ChildParent(x, i);
    ChildParent(y, j);
    if y == Child(x, i) {
      assert Child(y, j) !in nodes && Child(y, j) != Child(x, i);
    } else if Child(y, j) == Child(x, i) {
      ChildIsUnique(y, j, x, i);
    } else {
      assert y != x ==> nodes[y] != nodes[x];
    }
  }

  /** A new child: its block is zeroes unless it is a frame, and its parent's word points to it. */
  lemma TreeGrows(nodes: Nodes, blocks: Blocks, x: Path, i: nat, a: int)
    requires Tree(nodes, blocks) && x in nodes && |x.v| < 3 && i < PAGETABLE_SIZE && Child(x, i) !in nodes
    requires a in blocks && (forall y :: y in nodes ==> nodes[y] != a)
    requires |x.v| < 2 ==> blocks[a] == Zeroes()
    ensures Tree(nodes[Child(x, i) := a], blocks[nodes[x] := blocks[nodes[x]][i := a]])
  {
    var newer, grown := nodes[Child(x, i) := a], blocks[nodes[x] := blocks[nodes[x]][i := a]];
    ChildParent(x, i);
    ChildIsPath(x, i);
    forall y, j | y in newer && |y.v| < 3 && 0 <= j < PAGETABLE_SIZE
      ensures grown[newer[y]][j] == Word(newer, Child(y, j)) {
      WordAfter(nodes, blocks, x, i, a, y, j);
    }
    hide Word, IsPath, Child, Zeroes, Apart;
  }

  /** Three tables, one after the other, by these words of theirs. */
  ghost predicate WalksBy(blocks: Blocks, base: int, i1: nat, i2: nat, i3: nat, frame: int)
  {
    && i1 < PAGETABLE_SIZE && i2 < PAGETABLE_SIZE && i3 < PAGETABLE_SIZE
    && base in blocks && i1 < |blocks[base]|
    && blocks[base][i1] in blocks && i2 < |blocks[blocks[base][i1]]|
    && blocks[blocks[base][i1]][i2] in blocks && i3 < |blocks[blocks[blocks[base][i1]][i2]]|
    && blocks[blocks[blocks[base][i1]][i2]][i3] == frame
  }

  /** The walk through three tables that a hit in the buffer saves, by the bits of the address. */
  ghost predicate Walks(blocks: Blocks, base: int, va: bv64, frame: int)
  {
    WalksBy(blocks, base, ((va >> 39) & 0xFFF) as nat, ((va >> 27) & 0xFFF) as nat, ((va >> 15) & 0xFFF) as nat, frame)
  }

  lemma IndicesAre(va: bv64)
    ensures Index(Vpn1(va)) == ((va >> 39) & 0xFFF) as nat
    ensures Index(Vpn2(va)) == ((va >> 27) & 0xFFF) as nat
    ensures Index(Vpn3(va)) == ((va >> 15) & 0xFFF) as nat
  {
    BitsOf(va);
    IndexIsValue(Vpn1(va));
    IndexIsValue(Vpn2(va));
    IndexIsValue(Vpn3(va));
  }

  lemma TreeIsWalked(nodes: Nodes, blocks: Blocks, pid: nat, i1: nat, i2: nat, i3: nat)
    requires Tree(nodes, blocks) && i1 < PAGETABLE_SIZE && i2 < PAGETABLE_SIZE && i3 < PAGETABLE_SIZE
    requires Child(Child(Child(Path(pid, []), i1), i2), i3) in nodes
    ensures Path(pid, []) in nodes
    ensures WalksBy(blocks, nodes[Path(pid, [])], i1, i2, i3, nodes[Child(Child(Child(Path(pid, []), i1), i2), i3)])
  {
    var x0 := Path(pid, []);
    var x1, x2, x3 := Child(x0, i1), Child(Child(x0, i1), i2), Child(Child(Child(x0, i1), i2), i3);
    ChildParent(x2, i3);
    ChildParent(x1, i2);
    ChildParent(x0, i1);
    assert blocks[nodes[x0]][i1] == Word(nodes, x1);
    assert blocks[nodes[x1]][i2] == Word(nodes, x2);
    assert blocks[nodes[x2]][i3] == Word(nodes, x3);
  }

  lemma FrameIsWalked(nodes: Nodes, blocks: Blocks, va: bv64, pid: nat)
    requires Tree(nodes, blocks) && FramePath(Page(Key(va), pid)) in nodes
    ensures Path(pid, []) in nodes
    ensures Walks(blocks, nodes[Path(pid, [])], va, nodes[FramePath(Page(Key(va), pid))])
  {
    FramePathOf(va, pid);
    IndicesAre(va);
    hide Index, FramePath, Key, Vpn1, Vpn2, Vpn3, Tree, WalksBy;
    var i1, i2, i3 := Index(Vpn1(va)), Index(Vpn2(va)), Index(Vpn3(va));
    assert Child(Child(Child(Path(pid, []), i1), i2), i3) == FramePath(Page(Key(va), pid));
    TreeIsWalked(nodes, blocks, pid, i1, i2, i3);
  }

  /** Different pages have different frames, and frames do not overlap: translation is injective. */
  lemma TranslationIsInjective(nodes: Nodes, blocks: Blocks, a: bv64, p: nat, b: bv64, q: nat)
    requires Tree(nodes, blocks)
    requires FramePath(Page(Key(a), p)) in nodes && FramePath(Page(Key(b), q)) in nodes
    ensures Physical(nodes[FramePath(Page(Key(a), p))], a) == Physical(nodes[FramePath(Page(Key(b), q))], b)
            <==> p == q && Low51(a) == Low51(b)
  {
    hide FramePath, Key, Low51, Offset, Index, Physical;
    var x, y := FramePath(Page(Key(a), p)), FramePath(Page(Key(b), q));
    FramePathOf(a, p);
    FramePathOf(b, q);
    PathAndOffset(a, p, b, q);
    PhysicalIs(nodes[x], a);
    PhysicalIs(nodes[y], b);
    IndexIsInjective(Offset(a), Offset(b));
    if x != y {
      assert Apart(nodes[x], nodes[y]);
    }
  }

  // ---------- which nodes there are ----------

  /** The nodes the translation of a page needs, below the base table. */
  ghost function Needed(p: Page): set<Path>
  {
    var x := FramePath(p);
    {Path(x.pid, x.v[..1]), Path(x.pid, x.v[..2]), x}
  }

  /** The distinct prefixes (pid, vpn1), (pid, vpn1, vpn2) and (pid, vpn1, vpn2, vpn3) of a history. */
  ghost function Prefixes(h: seq<Page>): set<Path>
    decreases |h|
  {
    if h == [] then {} else Prefixes(h[..|h| - 1]) + Needed(h[|h| - 1])
  }

  ghost function BelowBase(nodes: Nodes): set<Path>
  {
    set x | x in nodes && x.v != []
  }

  lemma NeededAreThree(p: Page)
    ensures var x := FramePath(p);
            var a, b := Path(x.pid, x.v[..1]), Path(x.pid, x.v[..2]);
            a == Child(Path(x.pid, []), x.v[0]) && b == Child(a, x.v[1]) && x == Child(b, x.v[2])
  {
  }

  /** The tree has all that a frame in it needs. */
  lemma FrameHasNeeded(nodes: Nodes, blocks: Blocks, p: Page)
    requires Tree(nodes, blocks) && FramePath(p) in nodes
    ensures forall x :: x in Needed(p) ==> x in nodes && x.v != []
  {
    NeededAreThree(p);
    var x := FramePath(p);
    var a, b := Path(x.pid, x.v[..1]), Path(x.pid, x.v[..2]);
    ChildParent(b, x.v[2]);
    ChildParent(a, x.v[1]);
  }

  /** The prefixes by their length: what the fault counter adds up. */
  lemma PrefixesByLevel(h: seq<Page>)
    ensures |Prefixes(h)| == |AtLevel(h, 1)| + |AtLevel(h, 2)| + |AtLevel(h, 3)|
  {
    PrefixLengths(h);
    var s, a, b, c := Prefixes(h), AtLevel(h, 1), AtLevel(h, 2), AtLevel(h, 3);
    assert s == a + b + c && a !! b && (a + b) !! c;
  }

  ghost function AtLevel(h: seq<Page>, n: nat): set<Path>
  {
    set x | x in Prefixes(h) && |x.v| == n
  }

  lemma NeededAtLevel(p: Page, n: nat)
    requires 1 <= n <= 3
    ensures |FramePath(p).v| == 3
    ensures (set x | x in Needed(p) && |x.v| == n) == {Path(p.pid, FramePath(p).v[..n])}
  {
    var v := FramePath(p).v;
    assert v[..3] == v;
  }

  /** Those of length `n` are the first `n` indices of the pages in the history, each counted once. */
  lemma {:induction false} LevelIsOfHistory(h: seq<Page>, n: nat)
    requires 1 <= n <= 3
    ensures AtLevel(h, n) == set p | p in h :: Path(p.pid, FramePath(p).v[..n])
    decreases |h|
  {
    if h == [] {
    } else {
      var g, p := h[..|h| - 1], h[|h| - 1];
      LevelIsOfHistory(g, n);
      assert h == g + [p];
      NeededAtLevel(p, n);
      hide Needed, FramePath;
      assert AtLevel(h, n) == AtLevel(g, n) + (set x | x in Needed(p) && |x.v| == n);
    }
  }

  lemma {:induction false} PrefixLengths(h: seq<Page>)
    ensures forall x :: x in Prefixes(h) ==> 1 <= |x.v| <= 3
    decreases |h|
  {
    if h == [] {
    } else {
      PrefixLengths(h[..|h| - 1]);
    }
  }

  // ---------- taking the tree apart ----------

  /** The nodes strictly below `x` by way of its first `n` words. */
  ghost function Under(nodes: Nodes, x: Path, n: nat): set<Path>
  {
    set y | y in nodes && y.pid == x.pid && |y.v| > |x.v| && y.v[..|x.v|] == x.v && y.v[|x.v|] < n
  }

  /** Their addresses. */
  ghost function At(nodes: Nodes, s: set<Path>): set<int>
  {
    set x | x in s && x in nodes :: nodes[x]
  }

  lemma {:induction false} AncestorIsNode(nodes: Nodes, blocks: Blocks, y: Path, k: nat)
    requires Tree(nodes, blocks) && y in nodes && k <= |y.v|
    ensures Path(y.pid, y.v[..k]) in nodes
    decreases |y.v|
  {
    if k == |y.v| {
      assert y.v[..k] == y.v;
    } else {
      var p := Parent(y);
      AncestorIsNode(nodes, blocks, p, k);
      assert p.v[..k] == y.v[..k];
    }
  }

  /** Whether `y` is reached from `x` by way of its word `n`. */
  ghost predicate Through(x: Path, n: nat, y: Path)
  {
    y.pid == x.pid && |y.v| > |x.v| && y.v[..|x.v|] == x.v && y.v[|x.v|] == n
  }

  lemma ThroughChild(x: Path, n: nat, y: Path)
    ensures var c := Child(x, n);
            Through(x, n, y) <==> y == c || (y.pid == c.pid && |y.v| > |c.v| && y.v[..|c.v|] == c.v)
  {
    var c := Child(x, n);
    if Through(x, n, y) {
      assert y.v[..|c.v|] == c.v;
      if |y.v| == |c.v| { assert y.v == c.v; }
    }
    if y.pid == c.pid && |y.v| > |c.v| && y.v[..|c.v|] == c.v {
      assert y.v[..|x.v|] == y.v[..|c.v|][..|x.v|] == x.v;
      assert y.v[|x.v|] == y.v[..|c.v|][|x.v|] == n;
    }
  }

  lemma NextIsThrough(nodes: Nodes, x: Path, n: nat, y: Path)
    ensures y in Under(nodes, x, n + 1) <==> y in Under(nodes, x, n) || (y in nodes && Through(x, n, y))
  {
  }

  lemma ThroughIsUnder(nodes: Nodes, blocks: Blocks, x: Path, n: nat, y: Path)
    requires Tree(nodes, blocks)
    ensures var c := Child(x, n);
            y in nodes && Through(x, n, y) <==> c in nodes && (y == c || y in Under(nodes, c, PAGETABLE_SIZE))
  {
    var c := Child(x, n);
    ThroughChild(x, n, y);
    if y in nodes && Through(x, n, y) {
      assert y.v[..|c.v|] == c.v && Path(y.pid, c.v) == c;
      AncestorIsNode(nodes, blocks, y, |c.v|);
    }
  }

  /** One more word brings its child and all that is below it. */
  lemma UnderNext(nodes: Nodes, blocks: Blocks, x: Path, n: nat)
    requires Tree(nodes, blocks)
    ensures var c := Child(x, n);
            Under(nodes, x, n + 1) ==
            Under(nodes, x, n) + if c in nodes then {c} + Under(nodes, c, PAGETABLE_SIZE) else {}
  {
    var c := Child(x, n);
    var more := if c in nodes then {c} + Under(nodes, c, PAGETABLE_SIZE) else {};
    forall y ensures y in Under(nodes, x, n + 1) <==> y in Under(nodes, x, n) + more {
      NextIsThrough(nodes, x, n, y);
      ThroughIsUnder(nodes, blocks, x, n, y);
    }
  }

  lemma FramesAreLeaves(nodes: Nodes, blocks: Blocks, x: Path)
    requires Tree(nodes, blocks) && |x.v| >= 3
    ensures Under(nodes, x, PAGETABLE_SIZE) == {}
  {
  }

  /** What is left of the blocks when those of `gone` have been freed. */
  ghost function Left(blocks: Blocks, nodes: Nodes, gone: set<Path>): Blocks
  {
    blocks - At(nodes, gone)
  }

  /** A block not yet freed is still there, and freeing it takes just it away. */
  lemma FreeingOne(nodes: Nodes, blocks: Blocks, gone: set<Path>, y: Path)
    requires Tree(nodes, blocks) && y in nodes && y !in gone
    ensures nodes[y] in Left(blocks, nodes, gone)
    ensures Left(blocks, nodes, gone)[nodes[y]] == blocks[nodes[y]]
    ensures Left(blocks, nodes, gone) - {nodes[y]} == Left(blocks, nodes, gone + {y})
  {
    assert At(nodes, gone + {y}) == At(nodes, gone) + {nodes[y]};
  }

  ghost function OfProcesses(nodes: Nodes, n: nat): set<Path>
  {
    set y | y in nodes && y.pid < n
  }

  lemma NoProcesses(nodes: Nodes, blocks: Blocks)
    ensures Left(blocks, nodes, OfProcesses(nodes, 0)) == blocks
  {
    assert OfProcesses(nodes, 0) == {};
  }

  lemma OneMoreProcess(nodes: Nodes, blocks: Blocks, n: nat)
    requires Tree(nodes, blocks) && Path(n, []) in nodes
    ensures var r := Path(n, []);
            && OfProcesses(nodes, n + 1) == OfProcesses(nodes, n) + Under(nodes, r, PAGETABLE_SIZE) + {r}
            && OfProcesses(nodes, n) !! Under(nodes, r, PAGETABLE_SIZE) + {r}
  {
    var r := Path(n, []);
    forall y
      ensures y in OfProcesses(nodes, n + 1) <==> y in OfProcesses(nodes, n) + Under(nodes, r, PAGETABLE_SIZE) + {r} {
      if y in nodes && y.pid == n {
        assert y.v[..0] == [];
        assert y.v == [] ==> y == r;
      }
    }
  }

  lemma AllProcesses(nodes: Nodes, blocks: Blocks)
    requires Tree(nodes, blocks)
    ensures OfProcesses(nodes, MAX_PROCESS_ID) == nodes.Keys
  {
  }

  /** With the blocks of `gone` freed, what remains to do at word `i` of table `x`, and how the next block is freed. */
  lemma NextToFree(nodes: Nodes, blocks: Blocks, gone: set<Path>, x: Path, i: nat)
    requires Tree(nodes, blocks) && x in nodes && |x.v| < 3 && i < PAGETABLE_SIZE && x !in gone
    ensures var p, left := nodes[x], Left(blocks, nodes, gone);
            p in left && |left[p]| == PAGETABLE_SIZE && left[p][i] == Word(nodes, Child(x, i))
    ensures Child(x, i) in nodes ==> nodes[Child(x, i)] != 0
  {
    FreeingOne(nodes, blocks, gone, x);
  }

  lemma NothingUnderYet(nodes: Nodes, x: Path)
    ensures Under(nodes, x, 0) == {}
  {
  }

  /** What is below the next child has not been freed with what came before it. */
  lemma NextIsApart(nodes: Nodes, x: Path, n: nat, gone: set<Path>)
    requires gone !! Under(nodes, x, PAGETABLE_SIZE) + {x} && n < PAGETABLE_SIZE && Child(x, n) in nodes
    ensures var c := Child(x, n);
            gone + Under(nodes, x, n) !! Under(nodes, c, PAGETABLE_SIZE) + {c} && c !in Under(nodes, c, PAGETABLE_SIZE)
  {
    var c := Child(x, n);
    forall y | y in Under(nodes, c, PAGETABLE_SIZE) + {c} ensures y !in gone + Under(nodes, x, n) {
      ThroughChild(x, n, y);
      assert y in Under(nodes, x, PAGETABLE_SIZE);
    }
  }

  lemma TableIsNotUnder(nodes: Nodes, x: Path, n: nat)
    ensures x !in Under(nodes, x, n)
  {
  }
}
