/** mmu.c and page_table.c: the MMU over its tables, its buffer and its counters. */
module MmuClass {
  import opened TlbModel
  import opened TlbClass
  import opened AddressBits
  import opened PageTables
  import opened PageMemory
  import opened MmuModel

  class Mmu {
    const memory: Memory
    const basePts: array<int>
    const tlb: Tlb
    var numPageFaults: nat
    var numTlbMisses: nat
    ghost var nodes: Nodes
    ghost var history: seq<Page>
    ghost var answers: map<Request, int>

    ghost predicate BasesAre(nodes: Nodes)
      reads basePts
    {
      && basePts.Length == MAX_PROCESS_ID
      && forall pid :: 0 <= pid < MAX_PROCESS_ID ==> Path(pid, []) in nodes && basePts[pid] == nodes[Path(pid, [])]
    }

    /** The tables, and the base table of every process. */
    ghost predicate Rooted()
      reads this`nodes, memory, basePts
    {
      Tree(nodes, memory.blocks) && BasesAre(nodes)
    }

    ghost function Now(): Tables
      reads this`nodes, this`numPageFaults, memory
    {
      Tables(nodes, memory.blocks, numPageFaults)
    }

    ghost function Book(): Account
      reads this, memory, tlb
    {
      Account(Now(), Lines(tlb.spine), numTlbMisses, history)
    }

    ghost predicate Valid()
      reads this, memory, basePts, tlb, tlb.spine
    {
      Rooted() && tlb.Valid() && Accounted(Book()) && Answered(answers, nodes)
    }

    /** `MMU_create`: lines 6-16. */
    constructor (memory: Memory)
      requires WellAllocated(memory.blocks)
      modifies memory
      ensures Valid() && this.memory == memory && history == [] && answers == map[]
      ensures fresh(basePts) && fresh(tlb) && fresh(tlb.Repr())
      ensures Outside(memory.blocks, nodes) == old(memory.blocks)
    {
      this.memory, basePts := memory, new int[MAX_PROCESS_ID];
      tlb := new Tlb();
      numPageFaults, numTlbMisses := 0, 0;
      nodes, history, answers := map[], [], map[];
      new;
      SetUp();
    }

    /** With no tables yet and the buffer as it is made. */
    method SetUp()
      requires nodes == map[] && history == [] && answers == map[] && numPageFaults == numTlbMisses == 0
      requires WellAllocated(memory.blocks) && basePts.Length == MAX_PROCESS_ID
      requires tlb.Valid() && Lines(tlb.spine) == [SENTINEL]
      modifies this`nodes, memory, basePts
      ensures Valid() && Outside(memory.blocks, nodes) == old(memory.blocks)
    {
      hide Rooted, Bases, Tlb.Valid, Outside, Accounted, Lines;
      NoTables();
      CreateTables();
      TablesMade();
      EmptyAccount(Book());
    }

    lemma NoTables()
      requires WellAllocated(memory.blocks) && nodes == map[] && basePts.Length == MAX_PROCESS_ID
      ensures Bases(0) && Outside(memory.blocks, nodes) == memory.blocks
    {
    }

    lemma TablesMade()
      requires Bases(MAX_PROCESS_ID) && basePts.Length == MAX_PROCESS_ID
      ensures Rooted() && BelowBase(nodes) == {}
    {
      assert forall x :: x in nodes ==> x.v == [];
    }

    /** The base tables of the first `n` processes are all there is. */
    ghost predicate Bases(n: nat)
      reads this`nodes, basePts, memory
    {
      && Tree(nodes, memory.blocks) && n <= basePts.Length
      && (forall x :: x in nodes ==> x.v == [] && x.pid < n)
      && forall pid :: 0 <= pid < n ==> Path(pid, []) in nodes && basePts[pid] == nodes[Path(pid, [])]
    }

    method CreateTables()
      requires Bases(0) && basePts.Length == MAX_PROCESS_ID
      modifies this`nodes, memory, basePts
      ensures Bases(MAX_PROCESS_ID)
      ensures Outside(memory.blocks, nodes) == old(Outside(memory.blocks, nodes))
    {
      var i := 0;
      while i < MAX_PROCESS_ID
        invariant i <= MAX_PROCESS_ID && Bases(i)
        invariant Outside(memory.blocks, nodes) == old(Outside(memory.blocks, nodes))
      {
        CreateTable(i);
        i := i + 1;
      }
    }

    method CreateTable(i: nat)
      requires Bases(i) && i < basePts.Length == MAX_PROCESS_ID
      modifies this`nodes, memory, basePts
      ensures Bases(i + 1)
      ensures Outside(memory.blocks, nodes) == old(Outside(memory.blocks, nodes))
    {
      hide Tree, Outside, BelowBase, PageTables.Free;
      var a := memory.NewTable();
      BaseGrows(nodes, old(memory.blocks), i, a);
      nodes := nodes[Path(i, []) := a];
      basePts[i] := a;
    }

    /** A page fault at word `i` of table `p`: lines 57-59, 65-67 and 72-74. */
    method Fault(p: int, i: nat, table: bool, ghost x: Path) returns (c: int)
      requires Tree(nodes, memory.blocks) && x in nodes && |x.v| < 3 && nodes[x] == p && i < PAGETABLE_SIZE
      requires table == (|x.v| < 2) && Child(x, i) !in nodes
      modifies memory, this`nodes, this`numPageFaults
      ensures Tree(nodes, memory.blocks) && Grown(old(Now()), Now(), {Child(x, i)})
      ensures c !in old(memory.blocks) && nodes == old(nodes)[Child(x, i) := c]
    {
      hide Tree, Grown, Word, Apart, PageTables.Free;
      numPageFaults := numPageFaults + 1;
      if table {
        c := memory.NewTable();
      } else {
        c := memory.NewFrame();
      }
      ChildGrows(nodes, old(memory.blocks), old(numPageFaults), x, i, c, memory.blocks[c]);
      memory.SetEntry(p, i, c);
      nodes := nodes[Child(x, i) := c];
    }

    /**
      One level of the walk: the child of table `p` behind word `i`, made on a
      page fault, a table or a frame. mmu.c has this three times.
     */
    method Descend(p: int, i: nat, table: bool, ghost x: Path) returns (c: int)
      requires Tree(nodes, memory.blocks) && x in nodes && |x.v| < 3 && nodes[x] == p && i < PAGETABLE_SIZE
      requires table == (|x.v| < 2)
      modifies memory, this`nodes, this`numPageFaults
      ensures Tree(nodes, memory.blocks) && Grown(old(Now()), Now(), {Child(x, i)})
      ensures Child(x, i) in nodes && c == nodes[Child(x, i)]
      ensures Child(x, i) !in old(nodes) ==> c !in old(memory.blocks)
    {
      c := memory.Entry(p, i);
      assert c == Word(nodes, Child(x, i));
      if c == 0 {
        c := Fault(p, i, table, x);
      } else {
        ChildIsThere(nodes, x, i);
      }
    }

    /** The walk through the tables on a miss: lines 53-75. */
    method Walk(va: bv64, pid: nat) returns (frame: int)
      requires Rooted() && pid < MAX_PROCESS_ID
      modifies memory, this`nodes, this`numPageFaults
      ensures Rooted() && Grown(old(Now()), Now(), Needed(Page(Key(va), pid)))
      ensures FramePath(Page(Key(va), pid)) in nodes && frame == nodes[FramePath(Page(Key(va), pid))]
    {
      ghost var x0 := Path(pid, []);
      hide Rooted, BasesAre, Tree, Grown, Needed, FramePath, Key, Vpn1, Vpn2, Vpn3, Index;
      BaseOf(pid);
      StepsToFrame(va, pid);
      var i1, i2, i3 := Index(Vpn1(va)), Index(Vpn2(va)), Index(Vpn3(va));
      ghost var x1 := Child(x0, i1);
      ghost var x2 := Child(x1, i2);
      var idx := Descend(basePts[pid], i1, true, x0);
      ghost var t1 := Now();
      idx := Descend(idx, i2, true, x1);
      ghost var t2 := Now();
      frame := Descend(idx, i3, false, x2);
      GrownThrice(old(Now()), t1, t2, Now(), x1, x2, Child(x2, i3));
      StaysRooted(old(Now()), Needed(Page(Key(va), pid)));
    }

    lemma BaseOf(pid: nat)
      requires Rooted() && pid < MAX_PROCESS_ID
      ensures Tree(nodes, memory.blocks) && BasesAre(nodes) && pid < basePts.Length
      ensures Path(pid, []) in nodes && basePts[pid] == nodes[Path(pid, [])]
    {
      hide Tree;
    }

    /** The bases `t` had are still the bases. */
    lemma StaysRooted(t: Tables, needs: set<Path>)
      requires Tree(nodes, memory.blocks) && Grown(t, Now(), needs) && BasesAre(t.nodes)
      ensures Rooted()
    {
      hide Tree;
    }
  
    /** Notes the translation in the ghost state. */
    ghost method Record(va: bv64, pid: nat, a: int)
      requires Answered(answers, nodes) && FramePath(Page(Key(va), pid)) in nodes
      requires a == Physical(nodes[FramePath(Page(Key(va), pid))], va)
      modifies this`history, this`answers
      ensures history == old(history) + [Page(Key(va), pid)] && Answered(answers, nodes)
      ensures var r := Request(pid, Low51(va));
              answers == old(answers)[r := a] && (r in old(answers) ==> old(answers)[r] == a)
    {
      AnsweredNext(answers, nodes, va, pid, a);
      history := history + [Page(Key(va), pid)];
      answers := answers[Request(pid, Low51(va)) := a];
    }

    lemma FrameIsNotNull(p: Page)
      requires Rooted() && FramePath(p) in nodes
      ensures nodes[FramePath(p)] > 0
    {
      NodesAreNotNull(nodes, memory.blocks, FramePath(p));
    }

    lemma WalkFinds(va: bv64, pid: nat)
      requires Rooted() && pid < MAX_PROCESS_ID && FramePath(Page(Key(va), pid)) in nodes
      ensures pid < basePts.Length && Walks(memory.blocks, basePts[pid], va, nodes[FramePath(Page(Key(va), pid))])
    {
      FrameIsWalked(nodes, memory.blocks, va, pid);
    }

    lemma TablesAreTree()
      requires Rooted()
      ensures Tree(Book().tables.nodes, Book().tables.blocks)
    {
    }

    /** What a miss does: lines 52-76. */
    method Miss(va: bv64, pid: nat) returns (frame: int)
      requires Rooted() && pid < MAX_PROCESS_ID && tlb.Valid() && |tlb.spine| <= MAX_NODES
      modifies memory, this`nodes, this`numPageFaults, this`numTlbMisses, tlb, tlb.Repr()
      ensures Rooted() && Grown(old(Now()), Now(), Needed(Page(Key(va), pid)))
      ensures FramePath(Page(Key(va), pid)) in nodes && frame == nodes[FramePath(Page(Key(va), pid))] > 0
      ensures numTlbMisses == old(numTlbMisses) + 1
      ensures tlb.Valid() && Lines(tlb.spine) == TlbModel.Add(Lines(old(tlb.spine)), Page(Key(va), pid), frame)
      ensures fresh(tlb.Repr() - old(tlb.Repr()))
    {
      hide Rooted, Tree, Tlb.Valid, TlbModel.Add, Needed, FramePath, Grown;
      numTlbMisses := numTlbMisses + 1;     // MMU_tlb_miss
      frame := Walk(va, pid);
      FrameIsNotNull(Page(Key(va), pid));
      tlb.Add(Page(Key(va), pid), frame);
    }

    /** The buffer's answer and its new order: lines 48-50. */
    method LookInBuffer(va: bv64, pid: nat) returns (frame: nat)
      requires tlb.Valid()
      modifies tlb, tlb.Repr()
      ensures tlb.Valid() && tlb.Repr() == old(tlb.Repr()) && |tlb.spine| == |old(tlb.spine)|
      ensures (Lines(tlb.spine), frame) == Lookup(Lines(old(tlb.spine)), Page(Key(va), pid))
    {
      hide Key;
      KeyOf(va);
      var key := va;
      key := key & 0x7FFFFFFFFFFFF;
      key := key >> 15;
      frame := tlb.Get(Page(key, pid));
    }

    /** The frame of a page, from the buffer or from the tables. */
    method Resolve(va: bv64, pid: nat) returns (frame: int)
      requires Rooted() && pid < MAX_PROCESS_ID && tlb.Valid() && |tlb.spine| <= MAX_NODES
      modifies memory, this`nodes, this`numPageFaults, this`numTlbMisses, tlb, tlb.Repr()
      ensures Rooted() && tlb.Valid()
      ensures Translated(old(Book()), Book().(history := history + [Page(Key(va), pid)]), Page(Key(va), pid), frame)
      ensures fresh(tlb.Repr() - old(tlb.Repr()))
    {
      hide Rooted, Tree, Tlb.Valid, Lines, Lookup, TlbModel.Add, Needed, FramePath, Grown, Accounted, Translated, Key;
      ghost var c, p := Book(), Page(Key(va), pid);
      frame := LookInBuffer(va, pid);
      if frame == 0 {
        frame := Miss(va, pid);
        IsMiss(c, Book().(history := history + [p]), p, frame);
      } else {
        IsHit(c, Book().(history := history + [p]), p, frame);
      }
    }

    /** `MMU_get_physical_address` */
    method Translate(va: bv64, pid: nat) returns (a: int)
      requires Valid() && pid < MAX_PROCESS_ID
      modifies this, memory, tlb, tlb.Repr()
      ensures Valid() && Extends(nodes, old(nodes))
      ensures fresh(tlb.Repr() - old(tlb.Repr()))
      ensures history == old(history) + [Page(Key(va), pid)]
      ensures Walks(memory.blocks, basePts[pid], va, a - (va & 0x7FFF) as int)
      ensures var r := Request(pid, Low51(va));
              answers == old(answers)[r := a] && (r in old(answers) ==> old(answers)[r] == a)
      ensures Outside(memory.blocks, nodes) == old(Outside(memory.blocks, nodes))
    {
      hide Rooted, Tree, Tlb.Valid, Translated, Accounted, Answered, Walks, Outside, Extends, FramePath, Index;
      var offset := va & 0x7FFF;
      ghost var p, c := Page(Key(va), pid), Book();
      LinesFit(c);
      TablesAreTree();
      var frame := Resolve(va, pid);
      TranslatedKeeps(c, Book().(history := history + [p]), p, frame);
      AnsweredGrows(answers, old(nodes), nodes);
      a := frame + offset as int;
      WalkFinds(va, pid);
      Record(va, pid, a);
    }
  
    // ---------- taking it down: page_table.c, lines 19-39 ----------

    /** The frames of a last table: lines 27-30. */
    method FreeFrames(p: int, ghost blocks: Blocks, ghost x: Path, ghost gone: set<Path>)
      requires Tree(nodes, blocks) && x in nodes && |x.v| == 2 && nodes[x] == p
      requires gone !! Under(nodes, x, PAGETABLE_SIZE) + {x}
      requires memory.blocks == Left(blocks, nodes, gone)
      modifies memory
      ensures memory.blocks == Left(blocks, nodes, gone + Under(nodes, x, PAGETABLE_SIZE))
    {
      hide Tree, Left, Under;
      NothingUnderYet(nodes, x);
      assert gone + Under(nodes, x, 0) == gone;
      var k := 0;
      while k < PAGETABLE_SIZE
        invariant k <= PAGETABLE_SIZE
        invariant memory.blocks == Left(blocks, nodes, gone + Under(nodes, x, k))
      {
        FreeFrame(p, k, blocks, x, gone);
        k := k + 1;
      }
    }

    method FreeFrame(p: int, k: nat, ghost blocks: Blocks, ghost x: Path, ghost gone: set<Path>)
      requires Tree(nodes, blocks) && x in nodes && |x.v| == 2 && nodes[x] == p && k < PAGETABLE_SIZE
      requires gone !! Under(nodes, x, PAGETABLE_SIZE) + {x}
      requires memory.blocks == Left(blocks, nodes, gone + Under(nodes, x, k))
      modifies memory
      ensures memory.blocks == Left(blocks, nodes, gone + Under(nodes, x, k + 1))
    {
      hide Tree, Left, Under;
      ghost var child, done := Child(x, k), gone + Under(nodes, x, k);
      TableIsNotUnder(nodes, x, k);
      NextToFree(nodes, blocks, done, x, k);
      UnderNext(nodes, blocks, x, k);
      var c := memory.Entry(p, k);
      if c != 0 {
        NextIsApart(nodes, x, k, gone);
        FramesAreLeaves(nodes, blocks, child);
        assert done + Under(nodes, child, PAGETABLE_SIZE) == done;
        FreeingOne(nodes, blocks, done + Under(nodes, child, PAGETABLE_SIZE), child);
        memory.Release(c);
        assert done + Under(nodes, child, PAGETABLE_SIZE) + {child} == gone + Under(nodes, x, k + 1);
      } else {
        assert done == gone + Under(nodes, x, k + 1);
      }
    }

    /** The last tables of a middle table, with their frames: lines 24-33. */
    method FreeLast(p: int, ghost blocks: Blocks, ghost x: Path, ghost gone: set<Path>)
      requires Tree(nodes, blocks) && x in nodes && |x.v| == 1 && nodes[x] == p
      requires gone !! Under(nodes, x, PAGETABLE_SIZE) + {x}
      requires memory.blocks == Left(blocks, nodes, gone)
      modifies memory
      ensures memory.blocks == Left(blocks, nodes, gone + Under(nodes, x, PAGETABLE_SIZE))
    {
      hide Tree, Left, Under;
      NothingUnderYet(nodes, x);
      assert gone + Under(nodes, x, 0) == gone;
      var j := 0;
      while j < PAGETABLE_SIZE
        invariant j <= PAGETABLE_SIZE
        invariant memory.blocks == Left(blocks, nodes, gone + Under(nodes, x, j))
      {
        FreeLastOne(p, j, blocks, x, gone);
        j := j + 1;
      }
    }

    method FreeLastOne(p: int, j: nat, ghost blocks: Blocks, ghost x: Path, ghost gone: set<Path>)
      requires Tree(nodes, blocks) && x in nodes && |x.v| == 1 && nodes[x] == p && j < PAGETABLE_SIZE
      requires gone !! Under(nodes, x, PAGETABLE_SIZE) + {x}
      requires memory.blocks == Left(blocks, nodes, gone + Under(nodes, x, j))
      modifies memory
      ensures memory.blocks == Left(blocks, nodes, gone + Under(nodes, x, j + 1))
    {
      hide Tree, Left, Under;
      ghost var child, done := Child(x, j), gone + Under(nodes, x, j);
      TableIsNotUnder(nodes, x, j);
      NextToFree(nodes, blocks, done, x, j);
      UnderNext(nodes, blocks, x, j);
      var c := memory.Entry(p, j);
      if c != 0 {
        NextIsApart(nodes, x, j, gone);
        FreeFrames(c, blocks, child, done);
        FreeingOne(nodes, blocks, done + Under(nodes, child, PAGETABLE_SIZE), child);
        memory.Release(c);
        assert done + Under(nodes, child, PAGETABLE_SIZE) + {child} == gone + Under(nodes, x, j + 1);
      } else {
        assert done == gone + Under(nodes, x, j + 1);
      }
    }

    /** The middle tables of a base table, with all below them: lines 21-36. */
    method FreeMiddle(p: int, ghost blocks: Blocks, ghost x: Path, ghost gone: set<Path>)
      requires Tree(nodes, blocks) && x in nodes && |x.v| == 0 && nodes[x] == p
      requires gone !! Under(nodes, x, PAGETABLE_SIZE) + {x}
      requires memory.blocks == Left(blocks, nodes, gone)
      modifies memory
      ensures memory.blocks == Left(blocks, nodes, gone + Under(nodes, x, PAGETABLE_SIZE))
    {
      hide Tree, Left, Under;
      NothingUnderYet(nodes, x);
      assert gone + Under(nodes, x, 0) == gone;
      var i := 0;
      while i < PAGETABLE_SIZE
        invariant i <= PAGETABLE_SIZE
        invariant memory.blocks == Left(blocks, nodes, gone + Under(nodes, x, i))
      {
        FreeMiddleOne(p, i, blocks, x, gone);
        i := i + 1;
      }
    }

    method FreeMiddleOne(p: int, i: nat, ghost blocks: Blocks, ghost x: Path, ghost gone: set<Path>)
      requires Tree(nodes, blocks) && x in nodes && |x.v| == 0 && nodes[x] == p && i < PAGETABLE_SIZE
      requires gone !! Under(nodes, x, PAGETABLE_SIZE) + {x}
      requires memory.blocks == Left(blocks, nodes, gone + Under(nodes, x, i))
      modifies memory
      ensures memory.blocks == Left(blocks, nodes, gone + Under(nodes, x, i + 1))
    {
      hide Tree, Left, Under;
      ghost var child, done := Child(x, i), gone + Under(nodes, x, i);
      TableIsNotUnder(nodes, x, i);
      NextToFree(nodes, blocks, done, x, i);
      UnderNext(nodes, blocks, x, i);
      var c := memory.Entry(p, i);
      if c != 0 {
        NextIsApart(nodes, x, i, gone);
        FreeLast(c, blocks, child, done);
        FreeingOne(nodes, blocks, done + Under(nodes, child, PAGETABLE_SIZE), child);
        memory.Release(c);
        assert done + Under(nodes, child, PAGETABLE_SIZE) + {child} == gone + Under(nodes, x, i + 1);
      } else {
        assert done == gone + Under(nodes, x, i + 1);
      }
    }

    /** `Pagetable_delete_tree`: the base table comes last. */
    method DeleteTree(base: int, ghost blocks: Blocks, ghost pid: nat, ghost gone: set<Path>)
      requires Tree(nodes, blocks) && Path(pid, []) in nodes && nodes[Path(pid, [])] == base
      requires gone !! Under(nodes, Path(pid, []), PAGETABLE_SIZE) + {Path(pid, [])}
      requires memory.blocks == Left(blocks, nodes, gone)
      modifies memory
      ensures var x := Path(pid, []);
              memory.blocks == Left(blocks, nodes, gone + Under(nodes, x, PAGETABLE_SIZE) + {x})
    {
      hide Tree, Left, Under;
      ghost var x := Path(pid, []);
      NodesAreNotNull(nodes, blocks, x);
      if base != 0 {
        FreeMiddle(base, blocks, x, gone);
        TableIsNotUnder(nodes, x, PAGETABLE_SIZE);
        FreeingOne(nodes, blocks, gone + Under(nodes, x, PAGETABLE_SIZE), x);
        memory.Release(base);
      }
    }

    /**
      `MMU_delete`: gives back every table and every frame, each exactly once, and
      nothing else.
     */
    method Delete()
      requires Valid()
      modifies memory
      ensures memory.blocks == old(Outside(memory.blocks, nodes))
    {
      hide Tree, Left, Under;
      ghost var blocks := memory.blocks;
      NoProcesses(nodes, blocks);
      var i := 0;
      while i < MAX_PROCESS_ID
        invariant i <= MAX_PROCESS_ID
        invariant memory.blocks == Left(blocks, nodes, OfProcesses(nodes, i))
      {
        OneMoreProcess(nodes, blocks, i);
        DeleteTree(basePts[i], blocks, i, OfProcesses(nodes, i));
        i := i + 1;
      }
      AllProcesses(nodes, blocks);
    }
  }

  /** Whether two requests are for the same place: the same process and the same low 51 bits. */
  ghost predicate SamePlace(r: (bv64, nat), s: (bv64, nat))
  {
    r.1 == s.1 && Low51(r.0) == Low51(s.0)
  }

  /** Whether they are on one page: the same process and the same 36 bits above the offset. */
  ghost predicate OnePage(r: (bv64, nat), s: (bv64, nat))
  {
    r.1 == s.1 && (r.0 >> 15) & 0xFFFFFFFFF == (s.0 >> 15) & 0xFFFFFFFFF
  }

  function PageOf(r: (bv64, nat)): Page
  {
    Page(Key(r.0), r.1)
  }

  ghost function PagesOf(requests: seq<(bv64, nat)>): (h: seq<Page>)
    ensures |h| == |requests| && forall i :: 0 <= i < |h| ==> h[i] == PageOf(requests[i])
  {
    seq(|requests|, i requires 0 <= i < |requests| => PageOf(requests[i]))
  }

  function RequestOf(r: (bv64, nat)): Request
  {
    Request(r.1, Low51(r.0))
  }

  /** The first requests have these answers. */
  ghost predicate Served(known: map<Request, int>, requests: seq<(bv64, nat)>, answers: seq<int>)
  {
    && |answers| <= |requests|
    && forall k :: 0 <= k < |answers| ==> RequestOf(requests[k]) in known && known[RequestOf(requests[k])] == answers[k]
  }

  lemma ServedOneMore(known: map<Request, int>, requests: seq<(bv64, nat)>, answers: seq<int>, a: int)
    requires Served(known, requests, answers) && |answers| < |requests|
    requires var r := RequestOf(requests[|answers|]); r in known ==> known[r] == a
    ensures Served(known[RequestOf(requests[|answers|]) := a], requests, answers + [a])
    ensures PagesOf(requests[..|answers| + 1]) == PagesOf(requests[..|answers|]) + [PageOf(requests[|answers|])]
  {
  }

  lemma ServedApart(known: map<Request, int>, nodes: Nodes, blocks: Blocks,
                    requests: seq<(bv64, nat)>, answers: seq<int>)
    requires Tree(nodes, blocks) && Answered(known, nodes) && Served(known, requests, answers)
    ensures forall i, j :: 0 <= i < j < |answers| ==>
              (answers[i] == answers[j] <==> SamePlace(requests[i], requests[j]))
  {
    forall i, j | 0 <= i < j < |answers| ensures answers[i] == answers[j] <==> SamePlace(requests[i], requests[j]) {
      AnswersDiffer(known, nodes, blocks, RequestOf(requests[i]), RequestOf(requests[j]));
    }
  }

  lemma OnePageOneFrame(r: (bv64, nat), s: (bv64, nat))
    requires OnePage(r, s)
    ensures PageOf(r) == PageOf(s)
  {
    BitsOf(r.0);
    BitsOf(s.0);
  }

  lemma AnswerOf(known: map<Request, int>, nodes: Nodes, r: (bv64, nat))
    requires Answered(known, nodes) && RequestOf(r) in known
    ensures FramePath(PageOf(r)) in nodes
    ensures known[RequestOf(r)] == nodes[FramePath(PageOf(r))] + (r.0 & 0x7FFF) as int
  {
    LowIsEnough(r.0);
    hide FramePath;
    assert AnswerIs(RequestOf(r), known[RequestOf(r)], nodes);
  }

  /** On one page the answers are as far apart as the low 15 bits of the addresses. */
  lemma ServedInFrame(known: map<Request, int>, nodes: Nodes, requests: seq<(bv64, nat)>, answers: seq<int>)
    requires Answered(known, nodes) && Served(known, requests, answers)
    ensures forall i, j :: 0 <= i < |answers| && 0 <= j < |answers| && OnePage(requests[i], requests[j]) ==>
              answers[i] - answers[j] == (requests[i].0 & 0x7FFF) as int - (requests[j].0 & 0x7FFF) as int
  {
    hide Answered, OnePage, PageOf, RequestOf;
    forall i, j | 0 <= i < |answers| && 0 <= j < |answers| && OnePage(requests[i], requests[j])
      ensures answers[i] - answers[j] == (requests[i].0 & 0x7FFF) as int - (requests[j].0 & 0x7FFF) as int {
      AnswerOf(known, nodes, requests[i]);
      AnswerOf(known, nodes, requests[j]);
      OnePageOneFrame(requests[i], requests[j]);
    }
  }

  method Serve(mmu: Mmu, requests: seq<(bv64, nat)>) returns (answers: seq<int>)
    requires mmu.Valid() && mmu.history == []
    requires forall r :: r in requests ==> r.1 < MAX_PROCESS_ID
    modifies mmu, mmu.memory, mmu.tlb, mmu.tlb.Repr()
    ensures mmu.Valid() && mmu.history == PagesOf(requests)
    ensures |answers| == |requests| && Served(mmu.answers, requests, answers)
    ensures Outside(mmu.memory.blocks, mmu.nodes) == old(Outside(mmu.memory.blocks, mmu.nodes))
  {
    hide Mmu.Valid, Mmu.Rooted, Tlb.Valid, Outside, Extends, Walks, Served, PagesOf;
    answers := [];
    var i := 0;
    assert requests[..0] == [] && requests[..|requests|] == requests;
    NoneServed(mmu.answers, requests);
    while i < |requests|
      invariant i == |answers| <= |requests| && mmu.Valid() && fresh(mmu.tlb.Repr() - old(mmu.tlb.Repr()))
      invariant mmu.history == PagesOf(requests[..i]) && Served(mmu.answers, requests, answers)
      invariant Outside(mmu.memory.blocks, mmu.nodes) == old(Outside(mmu.memory.blocks, mmu.nodes))
    {
      ghost var known := mmu.answers;
      var a := mmu.Translate(requests[i].0, requests[i].1);
      ServedOneMore(known, requests, answers, a);
      answers := answers + [a];
      i := i + 1;
    }
  }

  lemma NoneServed(known: map<Request, int>, requests: seq<(bv64, nat)>)
    ensures Served(known, requests, []) && PagesOf([]) == []
  {
  }

  /**
    A whole life of the MMU, the processes interleaved at will: the same place has
    the same answer, different places have different ones, the counters are exact,
    and the memory is in the end what it was.
   */
  method Session(memory: Memory, requests: seq<(bv64, nat)>) returns (answers: seq<int>, faults: nat, misses: nat)
    requires WellAllocated(memory.blocks)
    requires forall r :: r in requests ==> r.1 < MAX_PROCESS_ID
    modifies memory
    ensures |answers| == |requests|
    ensures forall i, j :: 0 <= i < j < |answers| ==>
              (answers[i] == answers[j] <==> SamePlace(requests[i], requests[j]))
    ensures forall i, j :: 0 <= i < |answers| && 0 <= j < |answers| && OnePage(requests[i], requests[j]) ==>
              answers[i] - answers[j] == (requests[i].0 & 0x7FFF) as int - (requests[j].0 & 0x7FFF) as int
    ensures faults == |Prefixes(PagesOf(requests))| && misses == Misses(PagesOf(requests))
    ensures memory.blocks == old(memory.blocks)
  {
    hide Served, Outside, Tree, Prefixes, Misses, Unbounded, PagesOf, Tlb.Valid, SamePlace, OnePage, Shows, Backed;
    var mmu := new Mmu(memory);
    answers := Serve(mmu, requests);
    faults, misses := mmu.numPageFaults, mmu.numTlbMisses;
    ServedApart(mmu.answers, mmu.nodes, memory.blocks, requests, answers);
    ServedInFrame(mmu.answers, mmu.nodes, requests, answers);
    mmu.Delete();
  }
}
