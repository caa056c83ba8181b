/** MP/Vector/document.c: lines of text in a vector. */
module DocumentClass {
  import opened Prelude
  import opened Sequences
  import opened VectorModel
  import opened VectorClass
  import opened DocumentModel

  class Document {
    const vector: Vector<string>

    ghost predicate Valid()
      reads this, vector, vector.slots, vector.elements
    {
      vector.Valid() && AreStrings(vector.Items())
    }

    ghost function Lines(): Lines
      requires Valid()
      reads this, vector, vector.slots, vector.elements
    {
      vector.Items()
    }

    /** `Document_create` */
    constructor (elements: Elements<string>)
      requires elements.Valid()
      ensures Valid() && Lines() == [] && vector.elements == elements && vector.Rest() == elements.live
      ensures fresh(vector) && fresh(vector.slots)
    {
      vector := new Vector<string>(elements);
    }

    /** `Document_insert_line`: strdup ends the line at its first NUL. */
    method InsertLine(n: nat, str: string)
      requires Valid()
      modifies vector`slots, vector`size, vector`capacity, vector.slots, vector.elements
      ensures Valid() && Lines() == Inserted(old(Lines()), n, Some(CString(str)))
      ensures vector.Rest() == old(vector.Rest()) && (vector.slots == old(vector.slots) || fresh(vector.slots))
    {
      vector.Insert(n, Some(CString(str)));
    }

    /** `Document_set_line` */
    method SetLine(n: nat, str: string)
      requires Valid() && n < |Lines()|
      modifies vector.slots, vector.elements
      ensures Valid() && Lines() == old(Lines())[n := Some(CString(str))] && vector.Rest() == old(vector.Rest())
    {
      vector.Set(n, Some(CString(str)));
    }

    /** `Document_delete_line` */
    method DeleteLine(n: nat)
      requires Valid() && n < |Lines()|
      modifies vector`slots, vector`size, vector`capacity, vector.slots, vector.elements
      ensures Valid() && Lines() == DeleteAt(old(Lines()), n)
      ensures vector.Rest() == old(vector.Rest()) && (vector.slots == old(vector.slots) || fresh(vector.slots))
    {
      vector.Delete(n);
    }

    /** `Document_write_to_file`: what the file has then. */
    method WriteToFile() returns (text: string)
      requires Valid()
      ensures text == Written(Lines())
    {
      text := [];
      var i := 0;
      while i < vector.size
        invariant i <= vector.size == |Lines()| && text == Written(Lines()[..i])
      {
        var line := vector.Get(i);
        assert Lines()[..i + 1][..i] == Lines()[..i];
        if line.Some? {
          text := text + vector.elements.live[line.value] + [NEWLINE];
        } else {
          text := text + [NEWLINE];
        }
        i := i + 1;
      }
      assert Lines()[..vector.size] == Lines();
    }
  }

  /** `Document_create_from_file`, for a file with this text. */
  method CreateFromFile(elements: Elements<string>, text: string) returns (document: Document)
    requires elements.Valid()
    modifies elements
    ensures fresh(document) && fresh(document.vector) && document.Valid() && document.vector.elements == elements
    ensures document.Lines() == Loaded(text) && document.vector.Rest() == old(elements.live)
  {
    hide Vector.Valid, AreStrings, Inserted, Loaded;
    document := new Document(elements);
    LoadNone();
    var pos, lineNumber := 0, 0;
    assert text[0..] == text;
    while pos < |text|
      invariant pos <= |text| && document.Valid() && fresh(document.vector) && fresh(document.vector.slots)
      invariant document.vector.elements == elements && document.vector.Rest() == old(elements.live)
      invariant lineNumber == |document.Lines()| && document.Lines() + Loaded(text[pos..]) == Loaded(text)
    {
      var size := LineLength(text[pos..]);
      var buffer := text[pos..][..size];
      buffer := buffer[size - 1 := NUL];
      LoadOne(document.Lines(), text[pos..], size, buffer);
      assert text[pos..][size..] == text[pos + size..];
      document.InsertLine(lineNumber, buffer);
      lineNumber := lineNumber + 1;
      pos := pos + size;
    }
    assert text[|text|..] == [];
  }

  lemma LoadNone()
    ensures Loaded([]) == []
  {
  }

  lemma LoadOne(lines: Lines, rest: string, size: nat, buffer: string)
    requires rest != [] && size == LineLength(rest) && buffer == rest[..size][size - 1 := NUL]
    ensures Inserted(lines, |lines|, Some(CString(buffer))) + Loaded(rest[size..]) == lines + Loaded(rest)
    ensures |Inserted(lines, |lines|, Some(CString(buffer)))| == |lines| + 1
  {
    FirstLoaded(rest, size, buffer);
    hide CString, LineLength, Loaded, Inserted;
    InsertedLast(lines, Some(CString(buffer)));
    Regroup(lines, Some(CString(buffer)), Loaded(rest[size..]));
  }

  lemma FirstLoaded(rest: string, size: nat, buffer: string)
    requires rest != [] && size == LineLength(rest) && buffer == rest[..size][size - 1 := NUL]
    ensures Loaded(rest) == [Some(CString(buffer))] + Loaded(rest[size..])
  {
    hide CString, LineLength;
    EndsBeforeLast(rest[..size]);
    assert rest[..size][..size - 1] == rest[..size - 1];
  }

  lemma InsertedLast(lines: Lines, e: Option<string>)
    ensures Inserted(lines, |lines|, e) == lines + [e]
  {
    assert Padded(lines, |lines|) == lines;
  }

  lemma Regroup(a: Lines, e: Option<string>, b: Lines)
    ensures (a + [e]) + b == a + ([e] + b)
  {
  }

  /** Overwriting the last character with NUL drops it. */
  lemma {:induction false} EndsBeforeLast(s: string)
    requires s != []
    ensures CString(s[|s| - 1 := NUL]) == CString(s[..|s| - 1])
    decreases |s|
  {
    if |s| <= 1 {
    } else {
      EndsBeforeLast(s[1..]);
      assert s[|s| - 1 := NUL][1..] == s[1..][|s| - 2 := NUL];
      assert s[..|s| - 1][1..] == s[1..][..|s| - 2];
    }
  }
}
