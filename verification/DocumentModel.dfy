/**
  What MP/Vector/document.c writes to a file and reads from one, as functions on
  the characters. A line is a C string, or NULL where an insertion past the end
  has left a gap. The last character of every line read is dropped, be it a
  newline or not, and a line ends at a NUL.
 */
module DocumentModel {
  import opened Prelude

  const NEWLINE := '\n'
  const NUL := '\0'

  type Lines = seq<Option<string>>

  /** What a C string is taken to be: the characters before the first NUL. */
  function CString(s: string): (r: string)
    ensures NUL !in r && |r| <= |s|
    ensures NUL !in s ==> r == s
  {
    if s == [] || s[0] == NUL then [] else [s[0]] + CString(s[1..])
  }

  function TextOf(line: Option<string>): string
  {
    (if line.Some? then line.value else []) + [NEWLINE]
  }

  /** `Document_write_to_file` */
  function Written(lines: Lines): string
  {
    if lines == [] then [] else Written(lines[..|lines| - 1]) + TextOf(lines[|lines| - 1])
  }

  /** How many characters `getline` reads: those up to a newline and the newline, or all there are. */
  function LineLength(text: string): (n: nat)
    ensures n <= |text| && (text != [] ==> n > 0)
    ensures forall i :: 0 <= i < n - 1 ==> text[i] != NEWLINE
    ensures 0 < n < |text| ==> text[n - 1] == NEWLINE
  {
    if text == [] then 0 else if text[0] == NEWLINE then 1 else 1 + LineLength(text[1..])
  }

  /** `Document_create_from_file` */
  function Loaded(text: string): Lines
    decreases |text|
  {
    if text == [] then []
    else
      var n := LineLength(text);
      [Some(CString(text[..n - 1]))] + Loaded(text[n..])
  }

  /** What the lines are when they come back: a gap is an empty line. */
  function Filled(lines: Lines): (r: Lines)
    ensures |r| == |lines|
  {
    seq(|lines|, i requires 0 <= i < |lines| => if lines[i].Some? then lines[i] else Some([]))
  }

  /** The lines that a document can have: strdup leaves no NUL in them. */
  predicate AreStrings(lines: Lines)
  {
    forall i :: 0 <= i < |lines| && lines[i].Some? ==> NUL !in lines[i].value
  }

  predicate OneLineEach(lines: Lines)
  {
    forall i :: 0 <= i < |lines| && lines[i].Some? ==> NEWLINE !in lines[i].value
  }

  predicate Terminated(text: string)
  {
    text == [] || text[|text| - 1] == NEWLINE
  }

  // ---------- loading what was written ----------

  lemma {:induction false} WrittenFront(lines: Lines)
    requires lines != []
    ensures Written(lines) == TextOf(lines[0]) + Written(lines[1..])
  {
    hide TextOf;
    var l := |lines| - 1;
    if l == 0 {
      assert lines[..0] == [] == lines[1..];
    } else {
      WrittenFront(lines[..l]);
      var a, b, c := TextOf(lines[0]), Written(lines[..l][1..]), TextOf(lines[l]);
      assert lines[..l][1..] == lines[1..][..l - 1] && lines[1..][l - 1] == lines[l];
      assert Written(lines[1..]) == b + c && Written(lines) == (a + b) + c;
      assert (a + b) + c == a + (b + c);
    }
  }

  lemma {:induction false} LengthOfFirst(line: string, rest: string)
    requires NEWLINE !in line
    ensures LineLength(line + [NEWLINE] + rest) == |line| + 1
  {
    var t := line + [NEWLINE] + rest;
    if line == [] {
    } else {
      assert t[1..] == line[1..] + [NEWLINE] + rest;
      LengthOfFirst(line[1..], rest);
    }
  }

  lemma FilledFront(lines: Lines)
    requires lines != []
    ensures Filled(lines) == [Some(if lines[0].Some? then lines[0].value else [])] + Filled(lines[1..])
  {
  }

  lemma FirstLoaded(line: string, rest: string)
    requires NEWLINE !in line && NUL !in line
    ensures Loaded(line + [NEWLINE] + rest) == [Some(line)] + Loaded(rest)
  {
    hide LineLength;
    var t := line + [NEWLINE] + rest;
    LengthOfFirst(line, rest);
    assert t[..|line|] == line && t[|line| + 1..] == rest;
  }

  lemma {:induction false} LoadsWhatWasWritten(lines: Lines)
    requires AreStrings(lines) && OneLineEach(lines)
    ensures Loaded(Written(lines)) == Filled(lines)
    decreases |lines|
  {
    if lines == [] {
    } else {
      hide Loaded, Written, Filled;
      var line := if lines[0].Some? then lines[0].value else [];
      WrittenFront(lines);
      FirstLoaded(line, Written(lines[1..]));
      LoadsWhatWasWritten(lines[1..]);
      FilledFront(lines);
    }
  }

  function Newlines(text: string): nat
  {
    if text == [] then 0 else (if text[0] == NEWLINE then 1 else 0) + Newlines(text[1..])
  }

  lemma {:induction false} NewlinesConcat(a: string, b: string)
    ensures Newlines(a + b) == Newlines(a) + Newlines(b)
  {
    if a == [] {
      assert a + b == b;
    } else {
      assert (a + b)[1..] == a[1..] + b;
      NewlinesConcat(a[1..], b);
    }
  }

  lemma {:induction false} SomeNewline(text: string)
    ensures Newlines(text) > 0 <==> NEWLINE in text
  {
    if text == [] {
    } else {
      SomeNewline(text[1..]);
    }
  }

  /** A terminated text has as many lines as newlines. */
  lemma {:induction false} LinesAreNewlines(text: string)
    requires Terminated(text)
    ensures |Loaded(text)| == Newlines(text)
    decreases |text|
  {
    if text == [] {
    } else {
      var n := LineLength(text);
      assert text[n - 1] == NEWLINE;
      assert text == text[..n - 1] + [NEWLINE] + text[n..];
      NewlinesConcat(text[..n - 1] + [NEWLINE], text[n..]);
      NewlinesConcat(text[..n - 1], [NEWLINE]);
      SomeNewline(text[..n - 1]);
      LinesAreNewlines(text[n..]);
    }
  }

  lemma {:induction false} WrittenTerminated(lines: Lines)
    ensures Terminated(Written(lines))
  {
  }

  lemma {:induction false} MoreNewlines(lines: Lines)
    ensures Newlines(Written(lines)) >= |lines|
    ensures !OneLineEach(lines) ==> Newlines(Written(lines)) > |lines|
  {
    if lines == [] {
    } else {
      var l := |lines| - 1;
      var line := if lines[l].Some? then lines[l].value else [];
      MoreNewlines(lines[..l]);
      NewlinesConcat(Written(lines[..l]), TextOf(lines[l]));
      NewlinesConcat(line, [NEWLINE]);
      SomeNewline(line);
      if OneLineEach(lines[..l]) && !OneLineEach(lines) { assert NEWLINE in line; }
    }
  }

  /** Loading undoes writing exactly when no line has a newline in it; a gap comes back empty. */
  lemma LoadUndoesWriteIff(lines: Lines)
    requires AreStrings(lines)
    ensures Loaded(Written(lines)) == Filled(lines) <==> OneLineEach(lines)
  {
    if OneLineEach(lines) {
      LoadsWhatWasWritten(lines);
    } else {
      WrittenTerminated(lines);
      LinesAreNewlines(Written(lines));
      MoreNewlines(lines);
    }
  }

  // ---------- writing what was loaded ----------

  lemma {:induction false} WritesWhatWasLoaded(text: string)
    requires NUL !in text && Terminated(text)
    ensures Written(Loaded(text)) == text
    decreases |text|
  {
    if text == [] {
    } else {
      var n := LineLength(text);
      assert text[n - 1] == NEWLINE;
      assert text == text[..n - 1] + [NEWLINE] + text[n..];
      WritesWhatWasLoaded(text[n..]);
      WrittenFront(Loaded(text));
    }
  }

  lemma {:induction false} LoadedAreStrings(text: string)
    ensures AreStrings(Loaded(text))
    decreases |text|
  {
    if text == [] {
    } else {
      LoadedAreStrings(text[LineLength(text)..]);
    }
  }

  lemma {:induction false} WrittenHasNoNul(lines: Lines)
    requires AreStrings(lines)
    ensures NUL !in Written(lines)
  {
    if lines == [] {
    } else {
      WrittenHasNoNul(lines[..|lines| - 1]);
    }
  }

  /** Writing undoes loading exactly for a text without NUL that is empty or ends in a newline. */
  lemma WriteUndoesLoadIff(text: string)
    ensures Written(Loaded(text)) == text <==> NUL !in text && Terminated(text)
  {
    if NUL !in text && Terminated(text) {
      WritesWhatWasLoaded(text);
    } else {
      LoadedAreStrings(text);
      WrittenHasNoNul(Loaded(text));
      WrittenTerminated(Loaded(text));
    }
  }

  // ---------- where the round trips fail ----------

  /** A line with a newline in it comes back as two. */
  lemma NewlineSplitsLine()
    ensures var lines := [Some("\n")]; AreStrings(lines) && Loaded(Written(lines)) != Filled(lines)
  {
    var lines := [Some("\n")];
    assert NEWLINE in lines[0].value;
    LoadUndoesWriteIff(lines);
  }

  /** The last character of a text without a final newline is lost. */
  lemma LastCharacterIsLost()
    ensures Loaded("ab") == [Some("a")] && Written(Loaded("ab")) == "a\n" != "ab"
  {
    var t := "ab";
    assert t[1..] == "b" && t[1..][1..] == "";
    assert LineLength(t) == 2;
    assert t[..1] == "a" && CString("a") == "a" by { assert "a"[1..] == ""; }
    assert t[2..] == "";
    assert Loaded(t) == [Some("a")] + Loaded("");
    assert Written([Some("a")]) == Written([Some("a")][..0]) + TextOf(Some("a"));
  }

  /** So is all behind a NUL. */
  lemma RestOfLineIsLost()
    ensures Written(Loaded("a\0b\n")) != "a\0b\n"
  {
    var t := "a\0b\n";
    assert t[1] == NUL;
    WriteUndoesLoadIff(t);
  }
}
