/**
  The singly linked list of tlb.c with its slow and fast pointers. `spine`
  names the nodes in order; `Lines` is what they say.
 */
module TlbClass {
  import opened TlbModel

  class Node {
    const line: Line      // key, pid and value, set when the node is made
    var next: Node?

    constructor (line: Line, next: Node?)
      ensures this.line == line && this.next == next
    {
      this.line, this.next := line, next;
    }
  }

  ghost function Lines(spine: seq<Node>): (r: seq<Line>)
    ensures |r| == |spine| && forall i :: 0 <= i < |spine| ==> r[i] == spine[i].line
  {
    seq(|spine|, i requires 0 <= i < |spine| => spine[i].line)
  }

  /** The node that follows position `i`. */
  ghost function Follower(spine: seq<Node>, i: nat): Node?
  {
    if i + 1 < |spine| then spine[i + 1] else null
  }

  lemma FrontFollower(s: seq<Node>, i: nat, k: nat)
    requires 0 < i < |s| && k < |s|
    ensures Follower(ToFront(s, i), k) ==
            if k == 0 then s[0] else if k == i then Follower(s, i) else if k < i then s[k] else Follower(s, k)
  {
    ToFrontAt(s, i);
  }

  lemma LinesToFront(s: seq<Node>, i: nat)
    requires i < |s|
    ensures Lines(ToFront(s, i)) == ToFront(Lines(s), i)
  {
  }

  lemma LinesCut(s: seq<Node>, n: nat)
    requires n <= |s|
    ensures Lines(s[..n]) == Lines(s)[..n] && forall x :: x in s[..n] ==> x in s
  {
  }

  lemma LinesPushed(s: seq<Node>)
    requires s != []
    ensures Lines(s) == [s[0].line] + Lines(s[1..]) && forall x :: x in s ==> x == s[0] || x in s[1..]
  {
    assert s == [s[0]] + s[1..];
  }

  lemma NotFirst(lines: seq<Line>, p: Page)
    requires lines != [] && lines[0].page != p
    ensures Find(lines, p) >= 1
  {
  }

  lemma FirstIsFound(lines: seq<Line>, p: Page)
    requires lines != []
    ensures lines[0].page == p ==> Find(lines, p) == 0 && ToFront(lines, 0) == lines
  {
  }

  lemma PushFollower(s: seq<Node>, node: Node, k: nat)
    requires 0 < k <= |s|
    ensures Follower([node] + s, k) == Follower(s, k - 1)
  {
  }

  lemma PushDistinct(s: seq<Node>, node: Node)
    requires node !in s && forall i, j :: 0 <= i < j < |s| ==> s[i] != s[j]
    ensures var o := [node] + s; o[1..] == s && forall i, j :: 0 <= i < j < |o| ==> o[i] != o[j]
  {
    var o := [node] + s;
    assert forall k :: 0 < k < |o| ==> o[k] == s[k - 1] && o[k] in s;
  }

  class Tlb {
    var head: Node
    ghost var spine: seq<Node>

    ghost predicate Valid()
      reads this, spine
    {
      && spine != [] && head == spine[0]
      && (forall i :: 0 <= i < |spine| ==> spine[i].next == Follower(spine, i))
      && (forall i, j :: 0 <= i < j < |spine| ==> spine[i] != spine[j])
    }

    ghost function Repr(): set<Node>
      reads this
    {
      set n | n in spine
    }

    /** `TLB_create`: one node of zeroes. */
    constructor ()
      ensures Valid() && Lines(spine) == [SENTINEL] && fresh(Repr())
    {
      var node := new Node(SENTINEL, null);
      head := node;
      spine := [node];
    }

    /** Walks the slow and fast pointers to the node of `p`: lines 22-40. */
    method Walk(p: Page) returns (slow: Node, fast: Node?, ghost i: nat)
      requires Valid() && head.line.page != p
      ensures 1 <= i <= |spine| && slow == spine[i - 1] && i == Find(Lines(spine), p)
      ensures fast == Follower(spine, i - 1)
    {
      slow, fast, i := head, head.next, 1;
      ghost var lines := Lines(spine);
      NotFirst(lines, p);
      hide Find, Lines;
      while fast != null
        invariant 1 <= i <= |spine| && slow == spine[i - 1] && fast == Follower(spine, i - 1)
        invariant Find(lines, p) >= i
        decreases |spine| - i
      {
        assert fast == spine[i] && lines[i] == fast.line;
        if fast.line.page == p {
          return;
        }
        fast := fast.next;
        slow := slow.next;
        i := i + 1;
      }
    }

    /** Takes the node behind `slow` out of the list and makes it the head: lines 31-33. */
    method Promote(slow: Node, fast: Node, ghost i: nat)
      requires Valid() && 0 < i < |spine| && slow == spine[i - 1] && fast == spine[i]
      modifies this, slow`next, fast`next
      ensures Valid() && spine == ToFront(old(spine), i)
    {
      ghost var s := ToFront(spine, i);
      ToFrontDistinct(spine, i);
      Relink(slow, fast, i);
      head := fast;
      spine := s;
    }

    method Relink(slow: Node, fast: Node, ghost i: nat)
      requires Valid() && 0 < i < |spine| && slow == spine[i - 1] && fast == spine[i]
      modifies slow`next, fast`next
      ensures var s := ToFront(spine, i); s[0] == fast && forall k :: 0 <= k < |s| ==> s[k].next == Follower(s, k)
    {
      ghost var s := ToFront(spine, i);
      slow.next := fast.next;
      fast.next := head;
      ToFrontAt(spine, i);
      forall k | 0 <= k < |s| ensures s[k].next == Follower(s, k) {
        FrontFollower(spine, i, k);
        assert s[k] == if k == 0 then spine[i] else if k <= i then spine[k - 1] else spine[k];
      }
    }

    /** `TLB_get_physical_address` */
    method Get(p: Page) returns (frame: nat)
      requires Valid()
      modifies this, Repr()
      ensures Valid() && Repr() == old(Repr()) && |spine| == |old(spine)|
      ensures (Lines(spine), frame) == Lookup(Lines(old(spine)), p)
    {
      hide Tlb.Valid, Find;
      ghost var lines := Lines(spine);
      NeverEmpty();
      FirstIsFound(lines, p);
      if head.line.page == p {
        return head.line.frame;
      }
      var slow, fast;
      ghost var i;
      slow, fast, i := Walk(p);
      if fast != null {
        LinesToFront(spine, i);
        SameNodes(spine, i);
        Promote(slow, fast, i);
        frame := fast.line.frame;
      } else {
        frame := 0;
      }
    }

    lemma NeverEmpty()
      requires Valid()
      ensures spine != [] && head == spine[0]
    {
    }

    /** Walks to the last node but one, counting: lines 46-55. */
    method Count() returns (slow: Node, fast: Node?, n: nat)
      requires Valid()
      ensures |spine| == 1 ==> n == 2 && fast == null && slow == spine[0]
      ensures |spine| > 1 ==> n == |spine| && slow == spine[n - 2] && fast == spine[n - 1]
    {
      n := 2;
      slow, fast := head, head.next;
      while fast != null && fast.next != null
        invariant 2 <= n && (|spine| == 1 ==> n == 2 && fast == null && slow == spine[0])
        invariant |spine| > 1 ==> n <= |spine| && slow == spine[n - 2] && fast == spine[n - 1]
        decreases |spine| - n
      {
        n := n + 1;
        fast := fast.next;
        slow := slow.next;
      }
    }

    /** Drops the last node: lines 57-62. */
    method Evict(slow: Node, ghost n: nat)
      requires Valid() && 2 <= n == |spine| && slow == spine[n - 2]
      modifies this, slow`next
      ensures Valid() && spine == old(spine)[..n - 1]
    {
      ghost var s := spine[..n - 1];
      slow.next := null;
      forall k | 0 <= k < |s| ensures s[k].next == Follower(s, k) {
        assert s[k] == spine[k] && (k < n - 2 ==> Follower(s, k) == Follower(spine, k));
      }
      spine := s;
    }

    /** Puts a new node in front: lines 65-70. */
    method Push(line: Line)
      requires Valid()
      modifies this
      ensures Valid() && fresh(spine[0]) && spine[0].line == line && spine[1..] == old(spine)
    {
      var node := new Node(line, head);
      ghost var s := [node] + spine;
      forall k | 0 <= k < |s| ensures s[k].next == Follower(s, k) {
        if k > 0 {
          assert s[k] == spine[k - 1];
          PushFollower(spine, node, k);
        }
      }
      PushDistinct(spine, node);
      head := node;
      spine := s;
    }

    /** `TLB_add_physical_address` */
    method Add(p: Page, frame: nat)
      requires Valid() && |spine| <= MAX_NODES
      modifies this, Repr()
      ensures Valid() && |spine| <= MAX_NODES && fresh(Repr() - old(Repr()))
      ensures Lines(spine) == TlbModel.Add(Lines(old(spine)), p, frame)
    {
      hide Tlb.Valid, Lines;
      NeverEmpty();
      var slow, fast, n := Count();
      if n >= MAX_NODES {
        LinesCut(spine, n - 1);
        Evict(slow, n);
      }
      Push(Line(p, frame));
      LinesPushed(spine);
    }
  }

  lemma SameNodes<T>(s: seq<T>, i: nat)
    requires i < |s|
    ensures forall x :: x in ToFront(s, i) <==> x in s
  {
    ToFrontAt(s, i);
    var r := ToFront(s, i);
    forall x | x in s ensures x in r {
      var k :| 0 <= k < |s| && s[k] == x;
      assert r[if k == i then 0 else if k < i then k + 1 else k] == x;
    }
    forall x | x in r ensures x in s {
      ToFrontHas(s, i, x);
    }
  }
}
