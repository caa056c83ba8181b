/**
  The data files of Lab/Mad_Mad_Access_Pattern: a binary search tree of words laid
  out in bytes, and what looking a word up in it should give.
 */
module WordTreeModel {
  import opened Prelude

  newtype byte = x: int | 0 <= x < 256

  type Word = seq<byte>

  const ROOT_OFFSET: nat := 4
  const HEADER: seq<byte> := [0x42, 0x54, 0x52, 0x45]     // BTRE
  const WORD_OFFSET: nat := 16                            // three uint32_t and a float

  /** What is known of a word; the price is the four bytes of a float. */
  datatype Info = Info(count: nat, price: seq<byte>)

  datatype Tree = Leaf | Node(left: Tree, word: Word, info: Info, right: Tree)

  // ---------- bytes ----------

  /** A little-endian uint32_t. */
  function Uint32(b: seq<byte>, p: nat): (n: nat)
    requires p + 4 <= |b|
    ensures n < 0x1_0000_0000
  {
    b[p] as nat + 0x100 * b[p + 1] as nat + 0x1_0000 * b[p + 2] as nat + 0x100_0000 * b[p + 3] as nat
  }

  function LeftAt(b: seq<byte>, p: nat): nat requires p + 4 <= |b| { Uint32(b, p) }
  function RightAt(b: seq<byte>, p: nat): nat requires p + 8 <= |b| { Uint32(b, p + 4) }
  function InfoAt(b: seq<byte>, p: nat): Info
    requires p + WORD_OFFSET <= |b|
  {
    Info(Uint32(b, p + 8), b[p + 12..p + 16])
  }

  /** The C string at `p`: the bytes before the next NUL. */
  function CStringAt(b: seq<byte>, p: nat): (w: Word)
    ensures 0 !in w && (p <= |b| ==> p + |w| <= |b|)
    decreases |b| - p
  {
    if p >= |b| || b[p] == 0 then [] else [b[p]] + CStringAt(b, p + 1)
  }

  /** strcmp, which compares bytes without their signs: negative, zero or positive. */
  function Compare(a: Word, b: Word): int
  {
    if a == [] then (if b == [] then 0 else -1)
    else if b == [] then 1
    else if a[0] != b[0] then a[0] as int - b[0] as int
    else Compare(a[1..], b[1..])
  }

  // ---------- the tree and its layout ----------

  ghost function Words(t: Tree): set<Word>
  {
    match t
    case Leaf => {}
    case Node(l, w, _, r) => Words(l) + {w} + Words(r)
  }

  /** What the tree says of its words. */
  ghost function Entries(t: Tree): map<Word, Info>
  {
    match t
    case Leaf => map[]
    case Node(l, w, i, r) => Entries(l) + map[w := i] + Entries(r)
  }

  ghost predicate Ordered(t: Tree)
  {
    match t
    case Leaf => true
    case Node(l, w, _, r) =>
      && Ordered(l) && Ordered(r)
      && (forall v :: v in Words(l) ==> Compare(v, w) < 0)
      && (forall v :: v in Words(r) ==> Compare(w, v) < 0)
  }

  /** The tree is laid out in the bytes with its root at `p`; offset 0 is no node. */
  ghost predicate LaidOut(b: seq<byte>, p: nat, t: Tree)
    decreases t
  {
    match t
    case Leaf => p == 0
    case Node(l, w, i, r) =>
      && p != 0 && p + WORD_OFFSET + |w| < |b|
      && 0 !in w && b[p + WORD_OFFSET..p + WORD_OFFSET + |w|] == w && b[p + WORD_OFFSET + |w|] == 0
      && i == InfoAt(b, p)
      && LaidOut(b, LeftAt(b, p), l) && LaidOut(b, RightAt(b, p), r)
  }

  ghost predicate WellFormed(b: seq<byte>, t: Tree)
  {
    && |b| >= 4 && b[..4] == HEADER
    && t.Node? && LaidOut(b, ROOT_OFFSET, t) && Ordered(t)
  }

  const INT_MAX: nat := 0x7FFF_FFFF

  /** Every node that a search for the word visits begins where an `int` can say. */
  ghost predicate PathFitsInt(b: seq<byte>, p: nat, t: Tree, word: Word)
    requires LaidOut(b, p, t)
    decreases t
  {
    t.Node? ==>
      && p <= INT_MAX
      && (Compare(word, t.word) < 0 ==> PathFitsInt(b, LeftAt(b, p), t.left, word))
      && (Compare(word, t.word) > 0 ==> PathFitsInt(b, RightAt(b, p), t.right, word))
  }

  /** What a lookup is for: the entry of the word, if it has one. */
  ghost function Answer(t: Tree, word: Word): Option<Info>
  {
    if word in Entries(t) then Some(Entries(t)[word]) else None
  }

  // ---------- searching ----------

  lemma {:induction false} CompareEqual(a: Word, b: Word)
    ensures Compare(a, b) == 0 <==> a == b
  {
    if a == [] || b == [] || a[0] != b[0] {
    } else {
      CompareEqual(a[1..], b[1..]);
      assert a == [a[0]] + a[1..] && b == [b[0]] + b[1..];
    }
  }

  lemma {:induction false} CompareTurns(a: Word, b: Word)
    ensures Compare(a, b) < 0 <==> Compare(b, a) > 0
  {
    if a == [] || b == [] || a[0] != b[0] {
    } else {
      CompareTurns(a[1..], b[1..]);
    }
  }

  lemma {:induction false} EntriesOfWords(t: Tree)
    ensures Entries(t).Keys == Words(t)
  {
    if !t.Node? {
    } else {
      EntriesOfWords(t.left);
      EntriesOfWords(t.right);
    }
  }

  /** One comparison tells where the answer is. */
  lemma AnswerIsThere(t: Tree, word: Word)
    requires t.Node? && Ordered(t)
    ensures Answer(t, word) == if Compare(word, t.word) == 0 then Some(t.info)
                               else if Compare(word, t.word) < 0 then Answer(t.left, word)
                               else Answer(t.right, word)
  {
    EntriesOfWords(t.left);
    EntriesOfWords(t.right);
    CompareEqual(word, t.word);
    CompareTurns(word, t.word);
    CompareTurns(t.word, word);
  }

  lemma NodeIsThere(b: seq<byte>, p: nat, t: Tree)
    requires t.Node? && LaidOut(b, p, t)
    ensures p != 0 && p + WORD_OFFSET + |t.word| < |b| && 0 !in t.word
    ensures b[p + WORD_OFFSET..p + WORD_OFFSET + |t.word|] == t.word && b[p + WORD_OFFSET + |t.word|] == 0
    ensures t.info == InfoAt(b, p) && LaidOut(b, LeftAt(b, p), t.left) && LaidOut(b, RightAt(b, p), t.right)
  {
  }

  /** The bytes of a node, read into a buffer, say what they say in the file. */
  lemma NodeInBuffer(b: seq<byte>, p: nat, t: Tree, root: seq<byte>)
    requires t.Node? && LaidOut(b, p, t) && root == b[p..p + WORD_OFFSET + |t.word| + 1]
    ensures CStringAt(root, WORD_OFFSET) == t.word && InfoAt(root, 0) == t.info
    ensures LeftAt(root, 0) == LeftAt(b, p) && RightAt(root, 0) == RightAt(b, p)
  {
    hide LaidOut, CStringAt;
    NodeIsThere(b, p, t);
    assert forall k :: 0 <= k < |root| ==> root[k] == b[p + k];
    assert root[12..16] == b[p + 12..p + 16];
    assert root[WORD_OFFSET..WORD_OFFSET + |t.word|] == t.word;
    StringIsThere(root, WORD_OFFSET, t.word);
  }

  /** A leaf is no offset, and a node is one. */
  lemma OffsetTells(b: seq<byte>, p: nat, t: Tree)
    requires LaidOut(b, p, t)
    ensures p != 0 <==> t.Node?
  {
  }

  /** The word of a node is the C string behind its fields. */
  lemma WordIsThere(b: seq<byte>, p: nat, t: Tree)
    requires t.Node? && LaidOut(b, p, t)
    ensures CStringAt(b, p + WORD_OFFSET) == t.word
  {
    hide LaidOut, CStringAt;
    var q := p + WORD_OFFSET;
    assert q + |t.word| < |b| && 0 !in t.word && b[q..q + |t.word|] == t.word && b[q + |t.word|] == 0 by {
      NodeIsThere(b, p, t);
    }
    StringIsThere(b, q, t.word);
  }

  lemma {:induction false} StringIsThere(b: seq<byte>, p: nat, w: Word)
    requires p + |w| < |b| && 0 !in w && b[p..p + |w|] == w && b[p + |w|] == 0
    ensures CStringAt(b, p) == w
    decreases |w|
  {
    if w == [] {
    } else {
      assert b[p] == w[0];
      assert b[p + 1..p + |w|] == w[1..];
      StringIsThere(b, p + 1, w[1..]);
    }
  }
}
