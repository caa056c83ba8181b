/** lookup1.c, which reads the file piece by piece, and lookup2.c, which has it in memory. */
module WordTreeLookup {
  import opened Prelude
  import opened WordTreeModel

  /** A stdio stream on a file of bytes. */
  class File {
    const bytes: seq<byte>
    var pos: nat

    constructor (bytes: seq<byte>)
      ensures this.bytes == bytes && pos == 0
    {
      this.bytes, pos := bytes, 0;
    }

    /** `fseek` with SEEK_SET; with SEEK_CUR it is `Seek(pos + n)`. */
    method Seek(p: nat)
      modifies this
      ensures pos == p
    {
      pos := p;
    }

    /** `fgetc` before the end of the file */
    method GetByte() returns (c: byte)
      requires pos < |bytes|
      modifies this
      ensures c == bytes[old(pos)] && pos == old(pos) + 1
    {
      c := bytes[pos];
      pos := pos + 1;
    }

    /** `fread` of `n` bytes that are all there */
    method Read(n: nat) returns (buffer: seq<byte>)
      requires pos + n <= |bytes|
      modifies this
      ensures buffer == bytes[old(pos)..old(pos) + n] && pos == old(pos) + n
    {
      buffer := bytes[pos..pos + n];
      pos := pos + n;
    }
  }

  /** Counts the bytes before the next NUL: lines 58-61 of lookup1.c. */
  method WordLength(file: File) returns (n: nat)
    requires file.pos + |CStringAt(file.bytes, file.pos)| < |file.bytes|
    modifies file
    ensures n == |CStringAt(file.bytes, old(file.pos))|
  {
    n := 0;
    ghost var start := file.pos;
    var c := file.GetByte();
    while c != 0
      invariant start + n < file.pos == start + n + 1 <= |file.bytes| && c == file.bytes[start + n]
      invariant n + |CStringAt(file.bytes, start + n)| == |CStringAt(file.bytes, start)|
      decreases |file.bytes| - n
    {
      n := n + 1;
      c := file.GetByte();
    }
  }

  newtype int32 = x: int | -0x8000_0000 <= x < 0x8000_0000

  /** Reads the node at the position of the file: lines 54-67 of lookup1.c. */
  method ReadNode(file: File, ghost t: Tree) returns (root: seq<byte>)
    requires t.Node? && LaidOut(file.bytes, file.pos, t) && file.pos <= INT_MAX
    modifies file
    ensures root == file.bytes[old(file.pos)..old(file.pos) + WORD_OFFSET + |t.word| + 1]
  {
    hide LaidOut, CStringAt;
    NodeIsThere(file.bytes, file.pos, t);
    WordIsThere(file.bytes, file.pos, t);
    var beginPos := file.pos as int32;      // ftell's long goes into an int
    file.Seek(file.pos + WORD_OFFSET);
    var wordLen := WordLength(file);
    file.Seek(beginPos as nat);
    root := file.Read(WORD_OFFSET + wordLen + 1);
  }

  /** The search of lookup1.c for one word. */
  method Search1(file: File, word: Word, ghost t: Tree) returns (r: Option<Info>)
    requires WellFormed(file.bytes, t) && PathFitsInt(file.bytes, ROOT_OFFSET, t, word)
    modifies file
    ensures r == Answer(t, word)
  {
    hide LaidOut, CStringAt, Answer, Uint32, Compare;
    file.Seek(ROOT_OFFSET);
    ghost var here := t;
    while true
      invariant here.Node? && Ordered(here) && LaidOut(file.bytes, file.pos, here)
      invariant PathFitsInt(file.bytes, file.pos, here, word) && Answer(here, word) == Answer(t, word)
      decreases here
    {
      NodeIsThere(file.bytes, file.pos, here);
      ghost var p := file.pos;
      var root := ReadNode(file, here);
      NodeInBuffer(file.bytes, p, here, root);
      AnswerIsThere(here, word);
      var compareRes := Compare(word, CStringAt(root, WORD_OFFSET));
      if compareRes == 0 {
        return Some(InfoAt(root, 0));
      } else if compareRes < 0 {
        OffsetTells(file.bytes, LeftAt(root, 0), here.left);
        if LeftAt(root, 0) == 0 {
          LeafAnswers(here.left, word);
          return None;
        }
        file.Seek(LeftAt(root, 0));
        here := here.left;
      } else {
        OffsetTells(file.bytes, RightAt(root, 0), here.right);
        if RightAt(root, 0) == 0 {
          LeafAnswers(here.right, word);
          return None;
        }
        file.Seek(RightAt(root, 0));
        here := here.right;
      }
    }
  }

  lemma LeafAnswers(t: Tree, word: Word)
    requires t.Leaf?
    ensures Answer(t, word) == None
  {
  }

  /** The search of lookup2.c for one word. */
  method Search2(memory: seq<byte>, word: Word, ghost t: Tree) returns (r: Option<Info>)
    requires WellFormed(memory, t)
    ensures r == Answer(t, word)
  {
    hide LaidOut, CStringAt, Answer, Uint32, Compare;
    var current: nat := ROOT_OFFSET;
    ghost var here := t;
    while true
      invariant here.Node? && Ordered(here) && LaidOut(memory, current, here)
      invariant Answer(here, word) == Answer(t, word)
      decreases here
    {
      NodeIsThere(memory, current, here);
      WordIsThere(memory, current, here);
      AnswerIsThere(here, word);
      var compareRes := Compare(word, CStringAt(memory, current + WORD_OFFSET));
      if compareRes == 0 {
        return Some(InfoAt(memory, current));
      } else if compareRes < 0 {
        OffsetTells(memory, LeftAt(memory, current), here.left);
        if LeftAt(memory, current) == 0 {
          LeafAnswers(here.left, word);
          return None;
        }
        current := LeftAt(memory, current);
        here := here.left;
      } else {
        OffsetTells(memory, RightAt(memory, current), here.right);
        if RightAt(memory, current) == 0 {
          LeafAnswers(here.right, word);
          return None;
        }
        current := RightAt(memory, current);
        here := here.right;
      }
    }
  }

  /** Whether the answers are what the tree says of the words. */
  ghost predicate AllAnswered(t: Tree, words: seq<Word>, answers: seq<Option<Info>>)
  {
    |answers| == |words| && forall i :: 0 <= i < |words| ==> answers[i] == Answer(t, words[i])
  }

  lemma OneMoreAnswer(t: Tree, words: seq<Word>, answers: seq<Option<Info>>, x: Option<Info>)
    requires |answers| < |words| && AllAnswered(t, words[..|answers|], answers) && x == Answer(t, words[|answers|])
    ensures AllAnswered(t, words[..|answers| + 1], answers + [x])
  {
    hide Answer;
  }

  /** `lookup1`: None for a file in another format, or the answers of the tree. */
  method LookUp1(bytes: seq<byte>, words: seq<Word>, ghost t: Tree) returns (answers: Option<seq<Option<Info>>>)
    requires |bytes| >= 4
    requires bytes[..4] == HEADER ==>
               && WellFormed(bytes, t)
               && forall i :: 0 <= i < |words| ==> PathFitsInt(bytes, ROOT_OFFSET, t, words[i])
    ensures answers == None <==> bytes[..4] != HEADER
    ensures answers.Some? ==> AllAnswered(t, words, answers.value)
  {
    hide LaidOut, Ordered, Answer, AllAnswered, PathFitsInt;
    var file := new File(bytes);
    var beginWord := file.Read(4);
    if beginWord != HEADER { return None; }
    var a: seq<Option<Info>> := [];
    var i := 0;
    assert words[..|words|] == words;
    NoneAnswered(t, words);
    while i < |words|
      invariant i == |a| <= |words| && AllAnswered(t, words[..i], a) && fresh(file) && file.bytes == bytes
    {
      var x := Search1(file, words[i], t);
      OneMoreAnswer(t, words, a, x);
      a := a + [x];
      i := i + 1;
    }
    return Some(a);
  }

  lemma NoneAnswered(t: Tree, words: seq<Word>)
    ensures AllAnswered(t, words[..0], [])
  {
  }

  /** `lookup2`, likewise, for a file of any size. */
  method LookUp2(bytes: seq<byte>, words: seq<Word>, ghost t: Tree) returns (answers: Option<seq<Option<Info>>>)
    requires |bytes| >= 4 && (bytes[..4] == HEADER ==> WellFormed(bytes, t))
    ensures answers == None <==> bytes[..4] != HEADER
    ensures answers.Some? ==> AllAnswered(t, words, answers.value)
  {
    hide LaidOut, Ordered, Answer, AllAnswered;
    if bytes[..4] != HEADER { return None; }
    var a: seq<Option<Info>> := [];
    var i := 0;
    assert words[..|words|] == words;
    NoneAnswered(t, words);
    while i < |words|
      invariant i == |a| <= |words| && AllAnswered(t, words[..i], a)
    {
      var x := Search2(bytes, words[i], t);
      OneMoreAnswer(t, words, a, x);
      a := a + [x];
      i := i + 1;
    }
    return Some(a);
  }

  /** Both programs on one file: the same answers. */
  method BothLookUp(bytes: seq<byte>, words: seq<Word>, ghost t: Tree)
    returns (first: Option<seq<Option<Info>>>, second: Option<seq<Option<Info>>>)
    requires |bytes| >= 4
    requires bytes[..4] == HEADER ==>
               && WellFormed(bytes, t)
               && forall i :: 0 <= i < |words| ==> PathFitsInt(bytes, ROOT_OFFSET, t, words[i])
    ensures first == second
  {
    hide WellFormed, Answer;
    first := LookUp1(bytes, words, t);
    second := LookUp2(bytes, words, t);
    assert first.Some? ==> first.value == second.value;
  }
}
