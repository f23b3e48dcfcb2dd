/** What the keys do to the text and the cursor, told from what is before the cursor in its line. */
module Typing {
  import opened Basics
  import opened Editor

  // ------------------------------------------------------------------------ lines

  /** A text with no newline in it is one line, */
  lemma {:induction false} OneLine(s: string)
    requires '\n' !in s
    ensures Lines(s) == [s]
    decreases |s|
  {
    OpenLines(s);
    if s != "" {
      OneLine(s[..|s| - 1]);
      assert s[..|s| - 1] + [s[|s| - 1]] == s;
    }
  }

  /** and what is after the first newline is lines of its own. */
  lemma {:induction false} LinesApart(a: string, b: string)
    requires '\n' !in a
    ensures Lines(a + "\n" + b) == [a] + Lines(b)
    decreases |b|
  {
    OpenLines(b);
    if b == "" {
      OneLine(a);
      LinesMore(a, '\n');
      assert a + "\n" + b == a + ['\n'];
    } else {
      LinesApart(a, b[..|b| - 1]);
      LinesMore(a + "\n" + b[..|b| - 1], b[|b| - 1]);
      assert a + "\n" + b == a + "\n" + b[..|b| - 1] + [b[|b| - 1]];
    }
  }

  /** A new program: its name, a line to write on, and the brace that closes it. */
  lemma NewProgramLines(name: string)
    requires '\n' !in name
    ensures Lines(NewProgram(name)) == ["fn " + name + "( -- ) {", "\t", "}"]
  {
    var head := "fn " + name + "( -- ) {";
    LinesApart(head, "\t\n}");
    LinesApart("\t", "}");
    OneLine("}");
    assert head + "\n" + "\t\n}" == head + "\n\t\n}" && "\t" + "\n" + "}" == "\t\n}";
  }

  // -------------------------------------------------------------- left and right

  /** One character back, one on, or nowhere at either end. */
  lemma OneEitherWay(d: Doc, dx: int)
    ensures Moved(d, dx, 0).cursor
            == (if dx < 0 && d.cursor > 0 then d.cursor - 1
                else if dx > 0 && d.cursor < |d.text| then d.cursor + 1
                else d.cursor)
  {
  }

  /** Left is one column back, or to the end of the line before. */
  lemma LeftInLines(d: Doc)
    requires d.cursor > 0
    ensures var line, col, o := Line(d.text, d.cursor), Column(d.text, d.cursor), Moved(d, -1, 0).cursor;
            if col > 0 then Line(d.text, o) == line && Column(d.text, o) == col - 1
            else line > 0 && Line(d.text, o) == line - 1 && Column(d.text, o) == |Lines(d.text)[line - 1]|
  {
    var s, o := d.text, d.cursor;
    var b, n := LineStart(s, o), Line(s, o);
    CursorLine(s, o);
    if o > b {
      Landed(s, b, n, o - 1 - b);
    } else {
      PreviousBegins(s, b, n);
      var p := LineStart(s, b - 1);
      OpenBegins(s, p, n - 1);
      Landed(s, p, n - 1, b - 1 - p);
    }
  }

  /** Right is one column on, or to the beginning of the next line. */
  lemma RightInLines(d: Doc)
    requires d.cursor < |d.text|
    ensures var line, col, o := Line(d.text, d.cursor), Column(d.text, d.cursor), Moved(d, 1, 0).cursor;
            if col < |Lines(d.text)[line]| then Line(d.text, o) == line && Column(d.text, o) == col + 1
            else Line(d.text, o) == line + 1 && Column(d.text, o) == 0
  {
    var s, o := d.text, d.cursor;
    var b, n := LineStart(s, o), Line(s, o);
    CursorLine(s, o);
    OpenBegins(s, b, n);
    if o < LineEnd(s, b) {
      Landed(s, b, n, o + 1 - b);
    } else {
      NextBegins(s, b, n);
      Landed(s, o + 1, n + 1, 0);
    }
  }

  // ------------------------------------------------------------- a line being typed

  /** Spaces and tabs. */
  predicate White(s: string) {
    forall i :: 0 <= i < |s| ==> s[i] == ' ' || s[i] == '\t'
  }

  /** A line that begins with anything else, or is empty. */
  predicate Dark(s: string) {
    s != "" ==> s[0] != ' ' && s[0] != '\t'
  }

  /** The lines above, what is before the cursor in its line, and what is after. */
  predicate IsHere(d: Doc, above: string, here: string, after: string) {
    && d.text == above + here + after && d.cursor == |above| + |here|
    && (above != "" ==> above[|above| - 1] == '\n') && '\n' !in here
  }

  lemma HereBefore(d: Doc, above: string, here: string, after: string)
    requires IsHere(d, above, here, after)
    ensures Before(d) == here
  {
    assert d.text[|above|..d.cursor] == here;
    assert above != "" ==> d.text[|above| - 1] == above[|above| - 1];
    NoneIn(here);
    OneStart(d.text, d.cursor, |above|);
  }

  lemma NoneIn(s: string)
    requires '\n' !in s
    ensures NoNewline(s)
  {
  }

  lemma PutHere(d: Doc, front: string, after: string, c: char)
    requires d.text == front + after && d.cursor == |front| && |d.text| + 1 < 4096
    ensures WithPut(d, c).text == front + [c] + after && WithPut(d, c).cursor == |front| + 1
  {
    assert d.text[..d.cursor] == front && d.text[d.cursor..] == after;
  }

  /** A brace typed after blanks only, the last of them a tab, takes the place of the tab. */
  lemma BraceCloses(d: Doc, above: string, blanks: string, after: string)
    requires White(blanks) && IsHere(d, above, blanks + "\t", after)
    ensures IsHere(Inserted(d, '}'), above, blanks + "}", after)
  {
    HereBefore(d, above, blanks + "\t", after);
    AllBlankOf(blanks);
    assert above + (blanks + "\t") == above + blanks + "\t";
    Removed(d, above + blanks, "\t", after);
    PutHere(WithoutLast(d), above + blanks, after, '}');
    assert above + blanks + "}" == above + (blanks + "}");
  }

  lemma AllBlankOf(blanks: string)
    requires White(blanks)
    ensures AllBlank(blanks + "\t")
  {
  }

  lemma Removed(d: Doc, front: string, last: string, after: string)
    requires |last| == 1 && d.text == front + last + after && d.cursor == |front| + 1
    ensures d.text[d.cursor - 1] == last[0]
    ensures WithoutLast(d).text == front + after && WithoutLast(d).cursor == |front|
  {
    assert d.text[..d.cursor - 1] == front && d.text[d.cursor..] == after;
  }

  /** Anything else goes in as it is, */
  lemma OthersGoIn(d: Doc, above: string, here: string, after: string, c: char)
    requires IsHere(d, above, here, after) && |d.text| + 1 < 4096
    requires c != '}' || !White(here) || here == "" || here[|here| - 1] != '\t'
    ensures Inserted(d, c).text == above + here + [c] + after && Inserted(d, c).cursor == d.cursor + 1
  {
    HereBefore(d, above, here, after);
    if c == '}' { NotClosing(d, above, here, after); }
    PutHere(d, above + here, after, c);
  }

  lemma NotClosing(d: Doc, above: string, here: string, after: string)
    requires IsHere(d, above, here, after) && (!White(here) || here == "" || here[|here| - 1] != '\t')
    ensures !AllBlank(here) || d.cursor == 0 || d.text[d.cursor - 1] != '\t'
  {
    if here != "" {
      assert d.text[d.cursor - 1] == here[|here| - 1];
    } else if above != "" {
      assert d.text[d.cursor - 1] == above[|above| - 1];
    }
  }

  /** unless the buffer is full. */
  lemma FullStays(d: Doc, c: char)
    requires |d.text| == 4095 && c != '}'
    ensures Inserted(d, c) == d
  {
  }

  lemma {:induction false} AllGoIn(d: Doc, front: string, after: string, s: string)
    requires d.text == front + after && d.cursor == |front| && |d.text| + |s| < 4096
    ensures WithAll(d, s).text == front + s + after && WithAll(d, s).cursor == |front| + |s|
    decreases |s|
  {
    OpenAll(d, s);
    if s == "" {
      assert front + s == front;
    } else {
      var m := |s| - 1;
      AllGoIn(d, front, after, s[..m]);
      PutHere(WithAll(d, s[..m]), front + s[..m], after, s[m]);
      assert front + s[..m] + [s[m]] == front + s;
    }
  }

  // ------------------------------------------------------------------- a new line

  lemma Joins(front: string, indent: string, up: string)
    requires up == front + "\n"
    ensures front + ("\n" + indent) == up + indent
  {
  }

  lemma GoesDown(s: State, front: string, after: string, indent: string, up: string)
    requires s.doc.text == front + after && s.doc.cursor == |front| && up == front + "\n"
    requires Indent(s.doc) == indent && |s.doc.text| + |indent| + 1 < 4096
    ensures Returned(s).doc.text == up + indent + after && Returned(s).doc.cursor == |up| + |indent|
  {
    AllGoIn(s.doc, front, after, "\n" + indent);
    Joins(front, indent, up);
  }

  lemma {:induction false} BlanksAre(blanks: string, line: string)
    requires White(blanks) && Dark(line)
    ensures Blanks(blanks + line) == |blanks|
  {
    if blanks == "" {
      assert blanks + line == line;
    } else {
      BlanksAre(blanks[1..], line);
      assert (blanks + line)[1..] == blanks[1..] + line;
    }
  }

  lemma {:induction false} TrimmedIs(s: string, trail: string)
    requires White(trail) && (s != "" ==> !White(s[|s| - 1..]))
    ensures Trimmed(s + trail) == s
    decreases |trail|
  {
    if trail == "" {
      assert s + trail == s;
      if s != "" { assert s[|s| - 1..][0] == s[|s| - 1]; }
    } else {
      var m := |trail| - 1;
      TrimmedIs(s, trail[..m]);
      assert (s + trail)[..|s + trail| - 1] == s + trail[..m] && (s + trail)[|s + trail| - 1] == trail[m];
    }
  }

  lemma PlainLine(here: string, blanks: string, line: string)
    requires here == blanks + line && White(blanks) && Dark(line)
    requires line != "" ==> !White(line[|line| - 1..]) && line[|line| - 1] != '{'
    ensures here[..Blanks(here)] == blanks && !Opens(here)
  {
    BlanksAre(blanks, line);
    if line == "" {
      TrimmedIs("", blanks);
      assert "" + blanks == here;
    } else {
      assert here[|here| - 1..] == line[|line| - 1..];
      TrimmedIs(here, "");
      assert here + "" == here;
    }
  }

  lemma LineWithBrace(here: string, blanks: string, line: string, trail: string)
    requires here == blanks + (line + "{" + trail) && White(blanks) && White(trail) && Dark(line)
    ensures here[..Blanks(here)] == blanks && Opens(here)
  {
    BlanksAre(blanks, line + "{" + trail);
    var t := blanks + line + "{";
    assert t[|t| - 1..] == "{" && "{"[0] == '{';
    TrimmedIs(t, trail);
    assert here == t + trail;
  }

  /** A new line begins with the blanks the one before begins with, */
  lemma NewLineIndents(s: State, above: string, here: string, after: string, blanks: string, line: string)
    requires IsHere(s.doc, above, here, after) && here == blanks + line && White(blanks) && Dark(line)
    requires line != "" ==> !White(line[|line| - 1..]) && line[|line| - 1] != '{'
    requires |s.doc.text| + |blanks| + 1 < 4096
    ensures IsHere(Returned(s).doc, above + here + "\n", blanks, after)
  {
    var up := above + here + "\n";
    assert Indent(s.doc) == blanks by {
      HereBefore(s.doc, above, here, after);
      PlainLine(here, blanks, line);
      assert blanks + "" == blanks;
    }
    GoesDown(s, above + here, after, blanks, up);
  }

  /** and with a tab more where that one ends in a brace, blanks after it aside. */
  lemma NewLineAfterBrace(s: State, above: string, here: string, after: string,
                          blanks: string, line: string, trail: string)
    requires IsHere(s.doc, above, here, after) && here == blanks + (line + "{" + trail)
    requires White(blanks) && White(trail) && Dark(line) && |s.doc.text| + |blanks| + 2 < 4096
    ensures IsHere(Returned(s).doc, above + here + "\n", blanks + "\t", after)
  {
    var up := above + here + "\n";
    assert Indent(s.doc) == blanks + "\t" by {
      HereBefore(s.doc, above, here, after);
      LineWithBrace(here, blanks, line, trail);
    }
    GoesDown(s, above + here, after, blanks + "\t", up);
  }
}
