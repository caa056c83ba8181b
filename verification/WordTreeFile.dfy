/**
  How a tree is written: the fields of tree.h byte by byte, and the nodes one
  after the other. What the searches read is what was written.
 */
module WordTreeFile {
  import opened WordTreeModel

  // ---------- the order of the words ----------

  /** `a` comes before `b` at position `k`: the first difference is a smaller byte, or `a` ends there. */
  ghost predicate BeforeAt(a: Word, b: Word, k: nat)
  {
    && k <= |a| && k < |b| && a[..k] == b[..k]
    && (k == |a| || a[k] < b[k])
  }

  /** strcmp is the lexicographic order of the bytes. */
  lemma {:induction false} CompareIsLexicographic(a: Word, b: Word)
    ensures Compare(a, b) < 0 <==> exists k: nat :: BeforeAt(a, b, k)
  {
    if a == [] || b == [] || a[0] != b[0] {
      if Compare(a, b) < 0 { assert BeforeAt(a, b, 0); }
      if k: nat :| BeforeAt(a, b, k) {
        assert k > 0 ==> a[..k][0] == b[..k][0];
      }
    } else {
      CompareIsLexicographic(a[1..], b[1..]);
      if k: nat :| BeforeAt(a[1..], b[1..], k) {
        assert a[..k + 1] == [a[0]] + a[1..][..k] && b[..k + 1] == [b[0]] + b[1..][..k];
        assert BeforeAt(a, b, k + 1);
      }
      if k: nat :| BeforeAt(a, b, k) {
        assert k > 0;
        assert a[1..][..k - 1] == a[..k][1..] && b[1..][..k - 1] == b[..k][1..];
        assert BeforeAt(a[1..], b[1..], k - 1);
      }
    }
  }

  // ---------- one node ----------

  const UINT32_RANGE: nat := 0x1_0000_0000

  /** The four bytes of a little-endian uint32_t. */
  function Bytes4(n: nat): (b: seq<byte>)
    requires n < UINT32_RANGE
    ensures |b| == 4
  {
    [(n % 256) as byte, (n / 256 % 256) as byte, (n / 65536 % 256) as byte, (n / 16777216) as byte]
  }

  predicate Storable(i: Info, w: Word)
  {
    i.count < UINT32_RANGE && |i.price| == 4 && 0 !in w
  }

  /** left_child, right_child, count, price, word and its NUL. */
  function NodeBytes(left: nat, right: nat, i: Info, w: Word): (b: seq<byte>)
    requires left < UINT32_RANGE && right < UINT32_RANGE && Storable(i, w)
    ensures |b| == WORD_OFFSET + |w| + 1
  {
    Bytes4(left) + Bytes4(right) + Bytes4(i.count) + i.price + w + [0]
  }

  lemma Digits(n: nat)
    requires n < UINT32_RANGE
    ensures n == n % 256 + 256 * (n / 256 % 256) + 65536 * (n / 65536 % 256) + 16777216 * (n / 16777216)
  {
    var x, y := n / 256, n / 65536;
    assert y == x / 256 && n / 16777216 == y / 256;
  }

  lemma Bytes4ReadBack(b: seq<byte>, p: nat, n: nat)
    requires n < UINT32_RANGE && p + 4 <= |b| && b[p..p + 4] == Bytes4(n)
    ensures Uint32(b, p) == n
  {
    var c := b[p..p + 4];
    assert c[0] == b[p] && c[1] == b[p + 1] && c[2] == b[p + 2] && c[3] == b[p + 3];
    Digits(n);
  }

  lemma NodeParts(left: nat, right: nat, i: Info, w: Word)
    requires left < UINT32_RANGE && right < UINT32_RANGE && Storable(i, w)
    ensures var b := NodeBytes(left, right, i, w);
            && b[..4] == Bytes4(left) && b[4..8] == Bytes4(right) && b[8..12] == Bytes4(i.count)
            && b[12..16] == i.price && b[16..16 + |w|] == w && b[16 + |w|] == 0
  {
    hide Bytes4;
  }

  lemma SliceOfSlice(b: seq<byte>, p: nat, c: seq<byte>, lo: nat, hi: nat)
    requires p + |c| <= |b| && b[p..p + |c|] == c && lo <= hi <= |c|
    ensures b[p + lo..p + hi] == c[lo..hi]
  {
    var s := b[p..p + |c|];
    forall k | 0 <= k < hi - lo ensures b[p + lo..p + hi][k] == c[lo..hi][k] {
      assert s[lo + k] == b[p + lo + k];
    }
  }

  /** What is written as a node is read as that node. */
  lemma NodeReadsBack(b: seq<byte>, p: nat, left: nat, right: nat, i: Info, w: Word)
    requires left < UINT32_RANGE && right < UINT32_RANGE && Storable(i, w)
    requires p + WORD_OFFSET + |w| + 1 <= |b| && b[p..p + WORD_OFFSET + |w| + 1] == NodeBytes(left, right, i, w)
    ensures LeftAt(b, p) == left && RightAt(b, p) == right && InfoAt(b, p) == i
    ensures CStringAt(b, p + WORD_OFFSET) == w
    ensures b[p + WORD_OFFSET..p + WORD_OFFSET + |w|] == w && b[p + WORD_OFFSET + |w|] == 0
  {
    var c := NodeBytes(left, right, i, w);
    NodeParts(left, right, i, w);
    SliceOfSlice(b, p, c, 0, 4);
    SliceOfSlice(b, p, c, 4, 8);
    SliceOfSlice(b, p, c, 8, 12);
    SliceOfSlice(b, p, c, 12, 16);
    SliceOfSlice(b, p, c, WORD_OFFSET, WORD_OFFSET + |w|);
    hide NodeBytes, Bytes4, Uint32, CStringAt;
    assert c[WORD_OFFSET + |w|] == b[p..p + |c|][WORD_OFFSET + |w|] == b[p + WORD_OFFSET + |w|];
    Bytes4ReadBack(b, p, left);
    Bytes4ReadBack(b, p + 4, right);
    Bytes4ReadBack(b, p + 8, i.count);
    StringIsThere(b, p + WORD_OFFSET, w);
  }

  /** The root of sample.data, as tree.h prints it. */
  lemma SampleRoot()
    ensures NodeBytes(52, 28, Info(25, [0x9A, 0x99, 0x29, 0x41]), [0x73, 0x61, 0x6D, 0x70, 0x6C, 0x65]) ==
            [0x34, 0, 0, 0, 0x1C, 0, 0, 0, 0x19, 0, 0, 0, 0x9A, 0x99, 0x29, 0x41,
             0x73, 0x61, 0x6D, 0x70, 0x6C, 0x65, 0]
  {
  }

  // ---------- a whole tree ----------

  function Size(t: Tree): nat
  {
    match t
    case Leaf => 0
    case Node(l, w, _, r) => WORD_OFFSET + |w| + 1 + Size(l) + Size(r)
  }

  predicate AllStorable(t: Tree)
  {
    match t
    case Leaf => true
    case Node(l, w, i, r) => Storable(i, w) && AllStorable(l) && AllStorable(r)
  }

  /** The offset that stands for a tree laid out from `p` on: 0 if it is empty. */
  function OffsetOf(t: Tree, p: nat): nat
  {
    if t.Leaf? then 0 else p
  }

  /** A node, then its left tree, then its right one, for a place at offset `p` of the file. */
  function Encoded(t: Tree, p: nat): (b: seq<byte>)
    requires AllStorable(t) && p + Size(t) < UINT32_RANGE
    ensures |b| == Size(t)
  {
    match t
    case Leaf => []
    case Node(l, w, i, r) =>
      var pl := p + WORD_OFFSET + |w| + 1;
      var pr := pl + Size(l);
      NodeBytes(OffsetOf(l, pl), OffsetOf(r, pr), i, w) + Encoded(l, pl) + Encoded(r, pr)
  }

  function FileOf(t: Tree): seq<byte>
    requires AllStorable(t) && ROOT_OFFSET + Size(t) < UINT32_RANGE
  {
    HEADER + Encoded(t, ROOT_OFFSET)
  }

  /** Where the parts of a node's encoding are. */
  lemma EncodedNode(t: Tree, p: nat)
    requires t.Node? && AllStorable(t) && p + Size(t) < UINT32_RANGE
    ensures Storable(t.info, t.word) && AllStorable(t.left) && AllStorable(t.right)
    ensures var pl := p + WORD_OFFSET + |t.word| + 1;
            var pr := pl + Size(t.left);
            && pr + Size(t.right) == p + Size(t)
            && Encoded(t, p) == NodeBytes(OffsetOf(t.left, pl), OffsetOf(t.right, pr), t.info, t.word)
                                + Encoded(t.left, pl) + Encoded(t.right, pr)
  {
    hide NodeBytes;
  }

  lemma {:induction false} EncodedIsLaidOut(b: seq<byte>, p: nat, t: Tree)
    requires AllStorable(t) && p + Size(t) < UINT32_RANGE && p > 0
    requires p + Size(t) <= |b| && b[p..p + Size(t)] == Encoded(t, p)
    ensures LaidOut(b, OffsetOf(t, p), t)
    decreases t
  {
    hide NodeBytes, Encoded, Size, AllStorable, InfoAt, LeftAt, RightAt, CStringAt, Storable;
    if t.Leaf? {
    } else {
      hide LaidOut;
      EncodedNode(t, p);
      var pl := p + WORD_OFFSET + |t.word| + 1;
      var pr := pl + Size(t.left);
      var left, right := OffsetOf(t.left, pl), OffsetOf(t.right, pr);
      ThreeParts(b, p, NodeBytes(left, right, t.info, t.word), Encoded(t.left, pl), Encoded(t.right, pr));
      EncodedIsLaidOut(b, pl, t.left);
      EncodedIsLaidOut(b, pr, t.right);
      NodeReadsBack(b, p, left, right, t.info, t.word);
      NoNulInside(t.info, t.word);
      LaidOutNode(b, p, t);
    }
  }

  lemma NoNulInside(i: Info, w: Word)
    requires Storable(i, w)
    ensures 0 !in w
  {
  }

  lemma LaidOutNode(b: seq<byte>, p: nat, t: Tree)
    requires t.Node? && p > 0 && p + WORD_OFFSET + |t.word| < |b| && 0 !in t.word
    requires b[p + WORD_OFFSET..p + WORD_OFFSET + |t.word|] == t.word && b[p + WORD_OFFSET + |t.word|] == 0
    requires t.info == InfoAt(b, p) && LaidOut(b, LeftAt(b, p), t.left) && LaidOut(b, RightAt(b, p), t.right)
    ensures LaidOut(b, p, t)
  {
    hide InfoAt, LeftAt, RightAt;
  }

  lemma ThreeParts(b: seq<byte>, p: nat, x: seq<byte>, y: seq<byte>, z: seq<byte>)
    requires p + |x| + |y| + |z| <= |b| && b[p..p + |x| + |y| + |z|] == x + y + z
    ensures b[p..p + |x|] == x && b[p + |x|..p + |x| + |y|] == y
    ensures b[p + |x| + |y|..p + |x| + |y| + |z|] == z
  {
    var c := x + y + z;
    SliceOfSlice(b, p, c, 0, |x|);
    SliceOfSlice(b, p, c, |x|, |x| + |y|);
    SliceOfSlice(b, p, c, |x| + |y|, |c|);
    assert c[..|x|] == x && c[|x|..|x| + |y|] == y && c[|x| + |y|..] == z;
  }

  lemma TwoParts(x: seq<byte>, y: seq<byte>)
    ensures (x + y)[..|x|] == x && (x + y)[|x|..|x| + |y|] == y
  {
  }

  lemma FileParts(t: Tree)
    requires AllStorable(t) && ROOT_OFFSET + Size(t) < UINT32_RANGE
    ensures var b := FileOf(t);
            && |b| == ROOT_OFFSET + Size(t) && b[..4] == HEADER
            && b[ROOT_OFFSET..ROOT_OFFSET + Size(t)] == Encoded(t, ROOT_OFFSET)
  {
    hide Encoded, Size, AllStorable;
    TwoParts(HEADER, Encoded(t, ROOT_OFFSET));
  }

  /** Every search tree that fits can be written to a file that the lookups read. */
  lemma FileIsWellFormed(t: Tree)
    requires t.Node? && Ordered(t) && AllStorable(t) && ROOT_OFFSET + Size(t) < UINT32_RANGE
    ensures WellFormed(FileOf(t), t)
  {
    hide Encoded, FileOf, LaidOut, Ordered, Size, AllStorable;
    FileParts(t);
    EncodedIsLaidOut(FileOf(t), ROOT_OFFSET, t);
  }
}
