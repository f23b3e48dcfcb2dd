/** A program being edited: a text with a cursor in it, which is a list of lines with a place in one of them. */
module Editor {
  import opened Basics

  const CAPACITY: nat := 4096

  // -------------------------------------------------------------------- the lines

  /** The lines of a text: one more than there are newlines in it. Covered over, as most proofs need only how the lines
      of two texts go together. */
  function Lines(s: string): (l: seq<string>)
    ensures l != []
    decreases |s|, 4
  {
    LinesCovered(s, 3)
  }

  /** The same under covers, which a proof takes off where it has to look. */
  function LinesCovered(s: string, covers: nat): (l: seq<string>)
    ensures l != []
    decreases |s|, covers
  {
    if covers > 0 then LinesCovered(s, covers - 1)
    else if s == "" then [""]
    else More(Lines(s[..|s| - 1]), s[|s| - 1])
  }

  lemma OpenLines(s: string)
    ensures Lines(s) == if s == "" then [""] else More(Lines(s[..|s| - 1]), s[|s| - 1])
  {
    assert LinesCovered(s, 1) == LinesCovered(s, 0);
    assert LinesCovered(s, 2) == LinesCovered(s, 1);
  }

  /** One more character at the end of the last line, or a new line after it. */
  function More(l: seq<string>, c: char): (m: seq<string>)
    requires l != []
    ensures m != []
  {
    if c == '\n' then l + [""] else l[..|l| - 1] + [l[|l| - 1] + [c]]
  }

  function Last(l: seq<string>): string
    requires l != []
  {
    l[|l| - 1]
  }

  /** Two texts one after the other: the last line of the one goes on as the first of the other. */
  function Glued(a: seq<string>, b: seq<string>): (l: seq<string>)
    requires a != [] && b != []
    ensures |l| == |a| + |b| - 1
  {
    a[..|a| - 1] + [Last(a) + b[0]] + b[1..]
  }

  function Joined(l: seq<string>): string
    requires l != []
  {
    if |l| == 1 then l[0] else Joined(l[..|l| - 1]) + "\n" + Last(l)
  }

  lemma LinesMore(s: string, c: char)
    ensures Lines(s + [c]) == More(Lines(s), c)
  {
    OpenLines(s + [c]);
    assert (s + [c])[..|s|] == s;
  }

  lemma GluedNone(l: seq<string>)
    requires l != []
    ensures Glued(l, [""]) == l
  {
    assert Last(l) + "" == Last(l);
    assert [""][1..] == [];
  }

  lemma {:induction false} LinesBoth(a: string, b: string)
    ensures Lines(a + b) == Glued(Lines(a), Lines(b))
  {
    if b == "" {
      assert a + b == a;
      OpenLines("");
      GluedNone(Lines(a));
    } else {
      var front, c := b[..|b| - 1], b[|b| - 1];
      LinesBoth(a, front);
      assert a + b == (a + front) + [c] && b == front + [c];
      LinesMore(a + front, c);
      LinesMore(front, c);
      GluedMore(Lines(a), Lines(front), c);
    }
  }

  lemma GluedMore(a: seq<string>, b: seq<string>, c: char)
    requires a != [] && b != []
    ensures More(Glued(a, b), c) == Glued(a, More(b, c))
  {
    if c != '\n' {
      if |b| == 1 {
        assert Last(a) + b[0] + [c] == Last(a) + (b[0] + [c]);
      }
    }
  }

  /** The lines joined by newlines are the text. */
  lemma {:induction false} JoinedLines(s: string)
    ensures Joined(Lines(s)) == s
  {
    OpenLines(s);
    if s != "" {
      var front, c := s[..|s| - 1], s[|s| - 1];
      var l := Lines(front);
      JoinedLines(front);
      JoinedMore(l, c);
    }
  }

  lemma JoinedMore(l: seq<string>, c: char)
    requires l != []
    ensures Joined(More(l, c)) == Joined(l) + [c]
  {
    if c == '\n' {
      assert (l + [""])[..|l|] == l;
      assert Joined(l) + "\n" + "" == Joined(l) + [c];
    } else {
      var m := More(l, c);
      assert m[..|m| - 1] == l[..|l| - 1];
      if |l| > 1 { assert Joined(l[..|l| - 1]) + "\n" + (Last(l) + [c]) == Joined(l) + [c]; }
    }
  }

  predicate NoNewline(s: string) {
    '\n' !in s
  }

  lemma {:induction false} OneLine(s: string)
    requires NoNewline(s)
    ensures Lines(s) == [s]
  {
    OpenLines(s);
    if s != "" {
      OneLine(s[..|s| - 1]);
      assert s[..|s| - 1] + [s[|s| - 1]] == s;
    }
  }

  function LineStart(s: string, o: nat): (b: nat)
    requires o <= |s|
    ensures b <= o && NoNewline(s[b..o]) && (b == 0 || s[b - 1] == '\n')
    decreases o, 4
  {
    LineStartCovered(s, o, 3)
  }

  /** The same under covers, which a proof takes off where it has to look. */
  function LineStartCovered(s: string, o: nat, covers: nat): (b: nat)
    requires o <= |s|
    ensures b <= o && NoNewline(s[b..o]) && (b == 0 || s[b - 1] == '\n')
    decreases o, covers
  {
    if covers > 0 then LineStartCovered(s, o, covers - 1)
    else if o == 0 || s[o - 1] == '\n' then o
    else
      var b := LineStart(s, o - 1);
      assert s[b..o] == s[b..o - 1] + [s[o - 1]];
      b
  }

  function LineEnd(s: string, o: nat): (e: nat)
    requires o <= |s|
    ensures o <= e <= |s| && NoNewline(s[o..e]) && (e == |s| || s[e] == '\n')
    decreases |s| - o, 4
  {
    LineEndCovered(s, o, 3)
  }

  /** The same under covers, which a proof takes off where it has to look. */
  function LineEndCovered(s: string, o: nat, covers: nat): (e: nat)
    requires o <= |s|
    ensures o <= e <= |s| && NoNewline(s[o..e]) && (e == |s| || s[e] == '\n')
    decreases |s| - o, covers
  {
    if covers > 0 then LineEndCovered(s, o, covers - 1)
    else if o == |s| || s[o] == '\n' then o
    else
      var e := LineEnd(s, o + 1);
      assert s[o..e] == [s[o]] + s[o + 1..e];
      e
  }

  /** There is only one end that a line can have. */
  lemma OneEnd(s: string, o: nat, e: nat)
    requires o <= e <= |s| && NoNewline(s[o..e]) && (e == |s| || s[e] == '\n')
    ensures LineEnd(s, o) == e
  {
    var f := LineEnd(s, o);
    if f < e { NoneAt(s, o, e, f); } else if e < f { NoneAt(s, o, f, e); }
  }

  lemma NoneAt(s: string, o: nat, f: nat, k: nat)
    requires o <= k < f <= |s| && NoNewline(s[o..f])
    ensures s[k] != '\n'
  {
    assert s[o..f][k - o] == s[k];
  }

  /** A line begins here: it is the n-th, all before it are lines of the text, and it goes to the line's end. */
  ghost predicate Begins(s: string, at: nat, n: nat)
    ensures Begins(s, at, n) ==> at <= |s| && n < |Lines(s)|
  {
    BeginsCovered(s, at, n, 3)
  }

  /** The same under covers, which a proof takes off where it has to look. */
  ghost predicate BeginsCovered(s: string, at: nat, n: nat, covers: nat)
    ensures BeginsCovered(s, at, n, covers) ==> at <= |s| && n < |Lines(s)|
    decreases covers, s
  {
    if covers > 0 then BeginsCovered(s, at, n, covers - 1)
    else
      && at <= |s| && n < |Lines(s)|
      && Lines(s[..at]) == Lines(s)[..n] + [""]
      && Lines(s)[n] == s[at..LineEnd(s, at)]
      && (n + 1 < |Lines(s)| <==> LineEnd(s, at) < |s|)
  }

  lemma OpenBegins(s: string, at: nat, n: nat)
    ensures Begins(s, at, n) <==> BeginsCovered(s, at, n, 0)
  {
    assert BeginsCovered(s, at, n, 1) == BeginsCovered(s, at, n, 0);
    assert BeginsCovered(s, at, n, 2) == BeginsCovered(s, at, n, 1);
  }

  /** How long the line that begins here is, and whether there is one after it. */
  lemma LineHere(s: string, at: nat, n: nat)
    requires Begins(s, at, n)
    ensures Lines(s)[n] == s[at..LineEnd(s, at)] && (n + 1 < |Lines(s)| <==> LineEnd(s, at) < |s|)
    ensures |Lines(s[..at])| == n + 1
  {
    OpenBegins(s, at, n);
  }

  /** The first line of a text goes to the first newline, and is the only one where there is none. */
  lemma FirstOf(s: string, at: nat)
    requires at <= |s|
    ensures Lines(s[at..])[0] == s[at..LineEnd(s, at)] && (|Lines(s[at..])| > 1 <==> LineEnd(s, at) < |s|)
  {
    var first, rest := s[at..LineEnd(s, at)], s[LineEnd(s, at)..];
    assert s[at..] == first + rest;
    LinesBoth(first, rest);
    OneLine(first);
    RestLines(rest);
    assert first + "" == first;
  }

  /** A text that is empty or ends in a newline has an empty line last. */
  lemma LastOf(s: string)
    requires s == "" || s[|s| - 1] == '\n'
    ensures Last(Lines(s)) == ""
  {
    OpenLines(s);
  }

  lemma GluedAtStart(a: seq<string>, b: seq<string>)
    requires a != [] && b != [] && Last(a) == ""
    ensures Glued(a, b) == a[..|a| - 1] + b
  {
    assert "" + b[0] == b[0];
    assert [b[0]] + b[1..] == b;
  }

  /** The lines before, and the lines from here on. */
  lemma TwoParts(s: string, at: nat)
    requires at <= |s| && (at == 0 || s[at - 1] == '\n')
    ensures var a, b := Lines(s[..at]), Lines(s[at..]); Lines(s) == a[..|a| - 1] + b && a == a[..|a| - 1] + [""]
  {
    LastOf(s[..at]);
    assert s[..at] + s[at..] == s;
    LinesBoth(s[..at], s[at..]);
    GluedAtStart(Lines(s[..at]), Lines(s[at..]));
  }

  lemma FrontAndRest(l: seq<string>, front: seq<string>, b: seq<string>)
    requires b != [] && l == front + b
    ensures l[..|front|] == front && l[|front|] == b[0] && |l| == |front| + |b|
  {
  }

  /** Where nothing or a newline comes before, a line begins. */
  lemma BeginsAt(s: string, at: nat)
    requires at <= |s| && (at == 0 || s[at - 1] == '\n')
    ensures Begins(s, at, |Lines(s[..at])| - 1)
  {
    var a := Lines(s[..at]);
    TwoParts(s, at);
    FrontAndRest(Lines(s), a[..|a| - 1], Lines(s[at..]));
    FirstOf(s, at);
    OpenBegins(s, at, |a| - 1);
  }

  lemma RestLines(s: string)
    requires s == "" || s[0] == '\n'
    ensures (|Lines(s)| == 1 <==> s == "") && Lines(s)[0] == ""
  {
    OpenLines("");
    if s != "" {
      assert s == ['\n'] + s[1..];
      LinesBoth(['\n'], s[1..]);
      assert Lines(['\n']) == ["", ""] by { LinesMore("", '\n'); assert "" + ['\n'] == ['\n']; OpenLines(""); }
    }
  }

  /** Inside a line: the lines up to there are those before it and the beginning of this one. */
  lemma Inside(s: string, at: nat, n: nat, col: nat)
    requires Begins(s, at, n) && at + col <= LineEnd(s, at)
    ensures Lines(s[..at + col]) == Lines(s)[..n] + [s[at..at + col]]
  {
    OpenBegins(s, at, n);
    var part := s[at..at + col];
    assert s[..at + col] == s[..at] + part;
    LinesBoth(s[..at], part);
    assert NoNewline(part) by { assert forall k :: 0 <= k < col ==> part[k] == s[at..LineEnd(s, at)][k]; }
    OneLine(part);
    assert Last(Lines(s[..at])) == "" && "" + part == part;
    assert [part][1..] == [];
    assert Lines(s[..at])[..n] == Lines(s)[..n];
  }

  /** Which line the cursor is in, and how far along. */
  function Line(s: string, o: nat): (n: nat)
    requires o <= |s|
    ensures n < |Lines(s)|
  {
    LinesBoth(s[..o], s[o..]);
    assert s[..o] + s[o..] == s;
    |Lines(s[..o])| - 1
  }

  function Column(s: string, o: nat): (c: nat)
    requires o <= |s|
    ensures c <= |Lines(s)[Line(s, o)]|
  {
    LinesBoth(s[..o], s[o..]);
    assert s[..o] + s[o..] == s;
    |Last(Lines(s[..o]))|
  }

  /** The line the cursor is in begins at its line's start. */
  lemma CursorLine(s: string, o: nat)
    requires o <= |s|
    ensures Begins(s, LineStart(s, o), Line(s, o)) && Column(s, o) == o - LineStart(s, o)
    ensures LineEnd(s, LineStart(s, o)) == LineEnd(s, o)
  {
    var b := LineStart(s, o);
    BeginsAt(s, b);
    EndAlong(s, b, o);
    Landed(s, b, |Lines(s[..b])| - 1, o - b);
  }

  /** So far along a line. */
  lemma Landed(s: string, at: nat, n: nat, col: nat)
    requires Begins(s, at, n) && at + col <= LineEnd(s, at)
    ensures Line(s, at + col) == n && Column(s, at + col) == col
  {
    Inside(s, at, n, col);
  }

  lemma EndAlong(s: string, b: nat, o: nat)
    requires b <= o <= |s| && NoNewline(s[b..o])
    ensures LineEnd(s, b) == LineEnd(s, o)
  {
    var e := LineEnd(s, o);
    assert s[b..e] == s[b..o] + s[o..e];
    OneEnd(s, b, e);
  }

  // -------------------------------------------------------------------- the editor

  datatype Op = NoOp | Insert | Delete

  datatype Document = Document(text: string, cursor: nat)

  /** A text that its buffer has room for, its terminator too, and a cursor in it. */
  type Doc = d: Document | d.cursor <= |d.text| < CAPACITY witness Document("", 0)

  predicate Blank(c: char) {
    c == ' ' || c == '\t'
  }

  predicate AllBlank(s: string) {
    forall i :: 0 <= i < |s| ==> Blank(s[i])
  }

  lemma SliceBlank(s: string, i: nat, j: nat)
    requires i <= j <= |s|
    ensures AllBlank(s[i..j]) <==> forall k :: i <= k < j ==> Blank(s[k])
  {
    forall k | i <= k < j ensures s[i..j][k - i] == s[k] {}
    if AllBlank(s[i..j]) {
      forall k | i <= k < j ensures Blank(s[k]) { assert Blank(s[i..j][k - i]); }
    }
  }

  /** One character in at the cursor, unless the buffer is full. */
  function WithPut(d: Doc, c: char): Doc {
    if |d.text| + 1 >= CAPACITY then d
    else Document(d.text[..d.cursor] + [c] + d.text[d.cursor..], d.cursor + 1)
  }

  function WithAll(d: Doc, s: string): Doc
    decreases |s|, 4
  {
    WithAllCovered(d, s, 3)
  }

  /** The same under covers, which a proof takes off where it has to look. */
  function WithAllCovered(d: Doc, s: string, covers: nat): Doc
    decreases |s|, covers
  {
    if covers > 0 then WithAllCovered(d, s, covers - 1)
    else if s == "" then d
    else WithPut(WithAll(d, s[..|s| - 1]), s[|s| - 1])
  }

  lemma OpenAll(d: Doc, s: string)
    ensures WithAll(d, s) == if s == "" then d else WithPut(WithAll(d, s[..|s| - 1]), s[|s| - 1])
  {
    assert WithAllCovered(d, s, 1) == WithAllCovered(d, s, 0);
    assert WithAllCovered(d, s, 2) == WithAllCovered(d, s, 1);
  }

  function WithoutLast(d: Doc): Doc
    requires d.cursor > 0
  {
    Document(d.text[..d.cursor - 1] + d.text[d.cursor..], d.cursor - 1)
  }

  /** The part of its line that is before the cursor. */
  function Before(d: Doc): string {
    d.text[LineStart(d.text, d.cursor)..d.cursor]
  }

  /** A brace by itself closes what is one tab further out. */
  function Inserted(d: Doc, c: char): Doc {
    var closes := c == '}' && d.cursor > 0 && d.text[d.cursor - 1] == '\t' && AllBlank(Before(d));
    WithPut(if closes then WithoutLast(d) else d, c)
  }

  /** How many blanks come first. */
  function Blanks(s: string): (n: nat)
    ensures n <= |s|
  {
    if s == "" || !Blank(s[0]) then 0 else 1 + Blanks(s[1..])
  }

  function Trimmed(s: string): string {
    if s != "" && Blank(s[|s| - 1]) then Trimmed(s[..|s| - 1]) else s
  }

  predicate Opens(s: string) {
    var t := Trimmed(s); t != "" && t[|t| - 1] == '{'
  }

  /** What a new line starts with: the blanks this one starts with, and a tab after a brace. */
  function Indent(d: Doc): string {
    Before(d)[..Blanks(Before(d))] + if Opens(Before(d)) then "\t" else ""
  }

  function Sideways(d: Doc, dx: int): (o: nat)
    ensures o <= |d.text|
  {
    if dx < 0 && d.cursor > 0 then d.cursor - 1
    else if dx > 0 && d.cursor < |d.text| then d.cursor + 1
    else d.cursor
  }

  /** As far along the line above, and no further than it goes. */
  function Above(s: string, o: nat): (c: nat)
    requires o <= |s|
    ensures c <= |s|
  {
    var b := LineStart(s, o);
    if b == 0 then o
    else var p := LineStart(s, b - 1); p + Least(o - b, b - 1 - p)
  }

  function Below(s: string, o: nat): (c: nat)
    requires o <= |s|
    ensures c <= |s|
  {
    var e := LineEnd(s, o);
    if e >= |s| then o
    else e + 1 + Least(o - LineStart(s, o), LineEnd(s, e + 1) - (e + 1))
  }

  /** A character either way, then a line up or down. */
  function Moved(d: Doc, dx: int, dy: int): (e: Doc)
    ensures e.text == d.text
  {
    var o := Sideways(d, dx);
    Document(d.text, if dy < 0 then Above(d.text, o) else if dy > 0 then Below(d.text, o) else o)
  }

  /** Where a line begins, or the end of the text where there are not so many. */
  function LineAt(s: string, n: nat): (b: nat)
    ensures b <= |s|
  {
    if n == 0 then 0
    else var e := LineEnd(s, LineAt(s, n - 1)); if e < |s| then e + 1 else e
  }

  function PastBlanks(s: string, at: nat): (o: nat)
    requires at <= |s|
    ensures at <= o <= |s|
    decreases |s| - at
  {
    if at < |s| && Blank(s[at]) then PastBlanks(s, at + 1) else at
  }

  /** The first character of a line that is no blank. */
  function WentTo(d: Doc, line: nat): (e: Doc)
    ensures e.text == d.text
  {
    Document(d.text, PastBlanks(d.text, LineAt(d.text, line)))
  }

  /** What the editor has: the document, the one UNDO would bring back, and what kind of run is going on. */
  datatype State = State(doc: Doc, undo: Doc, canUndo: bool, last: Op)

  function Checked(s: State, op: Op): State {
    if op != s.last then s.(undo := s.doc, canUndo := true, last := op) else s
  }

  function Typed(s: State, c: char): State {
    Checked(s, Insert).(doc := Inserted(s.doc, c))
  }

  function RubbedOut(s: State): State {
    if s.doc.cursor == 0 then s else Checked(s, Delete).(doc := WithoutLast(s.doc))
  }

  function Returned(s: State): State {
    State(WithAll(s.doc, "\n" + Indent(s.doc)), s.doc, true, Insert)
  }

  function Undone(s: State): State {
    if s.canUndo then State(s.undo, s.doc, true, NoOp) else s
  }

  // ---------------------------------------------------------- what edits do to lines

  /** A character put in goes on the end of the line before the cursor, or ends it; nothing after is touched. */
  lemma PutLines(d: Doc, c: char)
    requires |d.text| + 1 < CAPACITY
    ensures var e := WithPut(d, c);
            && Lines(e.text[..e.cursor]) == More(Lines(d.text[..d.cursor]), c)
            && e.text[e.cursor..] == d.text[d.cursor..]
  {
    var e := WithPut(d, c);
    assert e.text[..e.cursor] == d.text[..d.cursor] + [c];
    LinesMore(d.text[..d.cursor], c);
  }

  /** A character taken out comes off the end of that line, or joins it to the one before. */
  lemma DeleteLines(d: Doc)
    requires d.cursor > 0
    ensures var e := WithoutLast(d);
            && Lines(d.text[..d.cursor]) == More(Lines(e.text[..e.cursor]), d.text[d.cursor - 1])
            && e.text[e.cursor..] == d.text[d.cursor..]
  {
    var e := WithoutLast(d);
    assert d.text[..d.cursor] == e.text[..e.cursor] + [d.text[d.cursor - 1]];
    LinesMore(e.text[..e.cursor], d.text[d.cursor - 1]);
  }

  /** Taking out what was just put in leaves the document as it was. */
  lemma DeleteUndoesPut(d: Doc, c: char)
    requires |d.text| + 1 < CAPACITY
    ensures WithoutLast(WithPut(d, c)) == d
  {
    var e := WithPut(d, c);
    assert e.text[..e.cursor - 1] == d.text[..d.cursor] && e.text[e.cursor..] == d.text[d.cursor..];
  }

  lemma WithAllOne(d: Doc, s: string, c: char)
    ensures WithAll(d, s + [c]) == WithPut(WithAll(d, s), c)
  {
    OpenAll(d, s + [c]);
    assert (s + [c])[..|s|] == s;
  }

  /** What is before the cursor stays while more is put in. */
  lemma {:induction false} WithAllFront(d: Doc, s: string)
    ensures WithAll(d, s).cursor >= d.cursor && WithAll(d, s).text[..d.cursor] == d.text[..d.cursor]
  {
    OpenAll(d, s);
    if s != "" { WithAllFront(d, s[..|s| - 1]); }
  }

  lemma StillThere(d: Doc, s: string, k: nat)
    requires k < d.cursor
    ensures |WithAll(d, s).text| > k && WithAll(d, s).text[k] == d.text[k]
  {
    WithAllFront(d, s);
    assert WithAll(d, s).text[..d.cursor][k] == d.text[..d.cursor][k];
  }

  lemma OneMore(margin: string, i: nat)
    requires i < |margin|
    ensures "\n" + margin[..i + 1] == "\n" + margin[..i] + [margin[i]]
  {
  }

  // ---------------------------------------------------------------- lines up and down

  lemma NextBegins(s: string, at: nat, n: nat)
    requires Begins(s, at, n) && LineEnd(s, at) < |s|
    ensures Begins(s, LineEnd(s, at) + 1, n + 1)
  {
    var e := LineEnd(s, at);
    Landed(s, at, n, e - at);
    CountedTo(s, e);
    BeginsAt(s, e + 1);
  }

  lemma CountedTo(s: string, e: nat)
    requires e < |s| && s[e] == '\n'
    ensures |Lines(s[..e + 1])| == |Lines(s[..e])| + 1
  {
    assert s[..e + 1] == s[..e] + ['\n'];
    LinesMore(s[..e], '\n');
  }

  lemma PreviousBegins(s: string, at: nat, n: nat)
    requires Begins(s, at, n) && at > 0 && s[at - 1] == '\n'
    ensures n > 0 && Begins(s, LineStart(s, at - 1), n - 1) && LineEnd(s, LineStart(s, at - 1)) == at - 1
  {
    CursorLine(s, at - 1);
    OneEnd(s, at - 1, at - 1);
    CountedTo(s, at - 1);
    LineHere(s, at, n);
  }

  /** In that line, as far along as o is in its own, and no further than the line goes. */
  ghost predicate AlongLine(s: string, o: nat, c: nat, n: nat) {
    && o <= |s| && c <= |s| && n < |Lines(s)|
    && Line(s, c) == n && Column(s, c) == Least(Column(s, o), |Lines(s)[n]|)
  }

  lemma LandsIn(s: string, o: nat, at: nat, n: nat, c: nat)
    requires o <= |s| && Begins(s, at, n) && c == at + Least(o - LineStart(s, o), LineEnd(s, at) - at)
    ensures AlongLine(s, o, c, n)
  {
    CursorLine(s, o);
    LineHere(s, at, n);
    Landed(s, at, n, Least(o - LineStart(s, o), LineEnd(s, at) - at));
  }

  lemma LineBelow(s: string, o: nat)
    requires o <= |s|
    ensures LineEnd(s, o) < |s| <==> Line(s, o) + 1 < |Lines(s)|
    ensures LineEnd(s, o) < |s| ==> Begins(s, LineEnd(s, o) + 1, Line(s, o) + 1)
  {
    CursorLine(s, o);
    LineHere(s, LineStart(s, o), Line(s, o));
    if LineEnd(s, o) < |s| { NextBegins(s, LineStart(s, o), Line(s, o)); }
  }

  lemma LineAbove(s: string, o: nat)
    requires o <= |s|
    ensures LineStart(s, o) > 0 <==> Line(s, o) > 0
    ensures var b := LineStart(s, o);
            b > 0 ==> Begins(s, LineStart(s, b - 1), Line(s, o) - 1) && LineEnd(s, LineStart(s, b - 1)) == b - 1
  {
    var b, n := LineStart(s, o), Line(s, o);
    CursorLine(s, o);
    LineHere(s, b, n);
    if b > 0 {
      PreviousBegins(s, b, n);
      OneEnd(s, LineStart(s, b - 1), b - 1);
    } else {
      assert s[..0] == "";
      OpenLines("");
    }
  }

  /** The line below, where there is one. */
  lemma LandsBelow(s: string, o: nat, n: nat, c: nat)
    requires o <= |s| && n == Line(s, o) && c == Below(s, o)
    ensures if n + 1 < |Lines(s)| then AlongLine(s, o, c, n + 1) else c == o
  {
    LineBelow(s, o);
    if LineEnd(s, o) < |s| { LandsIn(s, o, LineEnd(s, o) + 1, n + 1, c); }
  }

  /** And the line above. */
  lemma LandsAbove(s: string, o: nat, n: nat, c: nat)
    requires o <= |s| && n == Line(s, o) && c == Above(s, o)
    ensures if n > 0 then AlongLine(s, o, c, n - 1) else c == o
  {
    LineAbove(s, o);
    var b := LineStart(s, o);
    if b > 0 { LandsIn(s, o, LineStart(s, b - 1), n - 1, c); }
  }

  /** Once at the end of the text, going down a line stays there. */
  lemma {:induction false} PastTheEnd(s: string, n: nat, line: nat)
    requires n <= line && (n == line || LineAt(s, n) == |s|)
    ensures LineAt(s, n) == LineAt(s, line)
    decreases line - n
  {
    if n < line { PastTheEnd(s, n + 1, line); }
  }

  /** The line of that number begins there, where there is one. */
  lemma {:induction false} LineAtBegins(s: string, n: nat)
    ensures n < |Lines(s)| ==> Begins(s, LineAt(s, n), n)
    ensures n >= |Lines(s)| ==> LineAt(s, n) == |s|
  {
    if n == 0 {
      BeginsAt(s, 0);
      assert s[..0] == "";
      OpenLines("");
    } else {
      LineAtBegins(s, n - 1);
      if n - 1 < |Lines(s)| {
        LineHere(s, LineAt(s, n - 1), n - 1);
        if n < |Lines(s)| { NextBegins(s, LineAt(s, n - 1), n - 1); }
      }
    }
  }

  /** Going over the blanks a line begins with stays in the line. */
  lemma {:induction false} BlanksOver(s: string, at: nat, e: nat)
    requires at <= e <= |s| && (e == |s| || s[e] == '\n')
    ensures PastBlanks(s, at) == at + Blanks(s[at..e])
    decreases e - at
  {
    if at < e {
      assert s[at..e][1..] == s[at + 1..e];
      BlanksOver(s, at + 1, e);
    }
  }

  lemma GoesInLine(s: string, at: nat, line: nat)
    requires Begins(s, at, line)
    ensures var o := PastBlanks(s, at); Line(s, o) == line && Column(s, o) == Blanks(Lines(s)[line])
  {
    var e := LineEnd(s, at);
    LineHere(s, at, line);
    BlanksOver(s, at, e);
    var k := Blanks(s[at..e]);
    assert at + k <= e;
    Landed(s, at, line, k);
  }

  lemma GoesThere(s: string, line: nat)
    ensures var o := PastBlanks(s, LineAt(s, line));
            if line < |Lines(s)| then Line(s, o) == line && Column(s, o) == Blanks(Lines(s)[line]) else o == |s|
  {
    LineAtBegins(s, line);
    if line < |Lines(s)| { GoesInLine(s, LineAt(s, line), line); }
  }

  /** What of a text there is room for, with a terminator. */
  function Cut(s: string): (t: string)
    ensures t <= s && |t| == if |s| < 4096 then |s| else 4095
  {
    if |s| < CAPACITY then s else s[..CAPACITY - 1]
  }

  function NewProgram(name: string): (s: string)
    ensures |s| >= 2
  {
    "fn " + name + "( -- ) {" + "\n\t\n}"
  }

  /** Two from the end of it is the end of a line with a tab in it. */
  lemma BodyLine(head: string, s: string)
    requires s == head + "\n\t\n}"
    ensures s[LineStart(s, |s| - 2)..|s| - 2] == "\t" && s[|s| - 2..] == "\n}"
  {
    var o := |s| - 2;
    assert s[o - 2] == '\n' && s[o - 1] == '\t';
    OneStart(s, o, o - 1);
    assert s[o - 1..o] == "\t";
  }

  /** There is only one place a line can begin. */
  lemma OneStart(s: string, o: nat, b: nat)
    requires b <= o <= |s| && NoNewline(s[b..o]) && (b == 0 || s[b - 1] == '\n')
    ensures LineStart(s, o) == b
  {
    var f := LineStart(s, o);
    if f < b { NoneAt(s, f, o, b - 1); } else if b < f { NoneAt(s, b, o, f - 1); }
  }

  class Buffer {
    var text: string
    var cursor: nat
    var undo: Doc
    var canUndo: bool
    var last: Op

    ghost predicate Valid()
      reads this
    {
      cursor <= |text| < CAPACITY
    }

    function Now(): Doc
      requires cursor <= |text| < CAPACITY
      reads this
    {
      Document(text, cursor)
    }

    function All(): State
      requires cursor <= |text| < CAPACITY
      reads this
    {
      State(Now(), undo, canUndo, last)
    }

    /** As much of a source as there is room for. */
    constructor (source: string)
      ensures Valid() && All() == State(Document(Cut(source), 0), Document("", 0), false, NoOp)
    {
      text, cursor, undo, canUndo, last := Cut(source), 0, Document("", 0), false, NoOp;
    }

    /** A new program of that name, with the cursor on the line of its body. */
    constructor Template(name: string)
      ensures Valid() && text == Cut(NewProgram(name)) && cursor == |text| - 2
      ensures All() == State(Now(), Document("", 0), false, NoOp)
      ensures |NewProgram(name)| < CAPACITY ==> Before(Now()) == "\t" && text[cursor..] == "\n}"
    {
      text := Cut(NewProgram(name));
      cursor := |Cut(NewProgram(name))| - 2;
      undo, canUndo, last := Document("", 0), false, NoOp;
      new;
      if |NewProgram(name)| < CAPACITY { BodyLine("fn " + name + "( -- ) {", text); }
    }

    method Checkpoint(op: Op)
      requires Valid()
      modifies `undo, `canUndo, `last
      ensures All() == Checked(old(All()), op)
    {
      if op != last {
        undo, canUndo := Now(), true;
      }
      last := op;
    }

    method Put(c: char)
      requires Valid()
      modifies `text, `cursor
      ensures Valid() && Now() == WithPut(old(Now()), c)
    {
      if |text| + 1 >= CAPACITY {
        return;
      }
      text := text[..cursor] + [c] + text[cursor..];
      cursor := cursor + 1;
    }

    method DeleteBack()
      requires Valid() && cursor > 0
      modifies `text, `cursor
      ensures Valid() && Now() == WithoutLast(old(Now()))
    {
      text := text[..cursor - 1] + text[cursor..];
      cursor := cursor - 1;
    }

    method OnlyBlank() returns (yes: bool)
      requires Valid()
      ensures yes <==> AllBlank(Before(Now()))
    {
      yes := true;
      var start := LineStart(text, cursor);
      for i := start to cursor
        invariant yes <==> forall k :: start <= k < i ==> Blank(text[k])
      {
        yes := yes && Blank(text[i]);
      }
      SliceBlank(text, start, cursor);
    }

    method InsertChar(c: char)
      requires Valid()
      modifies this
      ensures Valid() && All() == Typed(old(All()), c)
    {
      Checkpoint(Insert);
      if c == '}' && cursor > 0 && text[cursor - 1] == '\t' {
        var onlyBlank := OnlyBlank();
        if onlyBlank {
          DeleteBack();
        }
      }
      Put(c);
    }

    method Backspace()
      requires Valid()
      modifies this
      ensures Valid() && All() == RubbedOut(old(All()))
    {
      if cursor == 0 {
        return;
      }
      Checkpoint(Delete);
      DeleteBack();
    }

    /** How far in the line is. */
    method Margin() returns (indent: nat)
      requires Valid()
      ensures indent == Blanks(Before(Now()))
    {
      var start := LineStart(text, cursor);
      ghost var line := Before(Now());
      indent := 0;
      while start + indent < cursor && Blank(text[start + indent])
        invariant start + indent <= cursor && Blanks(line) == indent + Blanks(line[indent..])
      {
        assert line[indent..][1..] == line[indent + 1..] && line[indent..][0] == text[start + indent];
        indent := indent + 1;
      }
    }

    /** Whether what is before the cursor ends in a brace, blanks aside. */
    method OpensHere() returns (opens: bool)
      requires Valid()
      ensures opens == Opens(Before(Now()))
    {
      var start, back := LineStart(text, cursor), cursor;
      ghost var line := Before(Now());
      assert line[..back - start] == line;
      while back > start && Blank(text[back - 1])
        invariant start <= back <= cursor && Trimmed(line) == Trimmed(line[..back - start])
      {
        assert line[..back - start][..back - start - 1] == line[..back - start - 1];
        back := back - 1;
      }
      opens := back > start && text[back - 1] == '{';
    }

    /** Whatever was going on, a new line begins a step. */
    method Newline()
      requires Valid()
      modifies this
      ensures Valid() && All() == Returned(old(All()))
    {
      ghost var was := Now();
      var start := LineStart(text, cursor);
      var indent := Margin();
      var opens := OpensHere();
      last := NoOp;
      Checkpoint(Insert);
      ghost var margin := Before(was)[..indent];
      OpenAll(was, "");
      WithAllOne(was, "", '\n');
      assert "" + ['\n'] == "\n";
      Put('\n');
      assert margin == was.text[start..start + indent];
      CopyMargin(start, indent, was);
      if opens {
        WithAllOne(was, "\n" + margin, '\t');
        assert "\n" + margin + ['\t'] == "\n" + (margin + "\t");
        Put('\t');
      } else {
        assert margin + "" == margin;
      }
    }

    method CopyMargin(start: nat, indent: nat, ghost was: Doc)
      requires Valid() && start + indent <= was.cursor && Now() == WithAll(was, "\n")
      modifies `text, `cursor
      ensures Valid() && Now() == WithAll(was, "\n" + was.text[start..start + indent])
    {
      ghost var margin := was.text[start..start + indent];
      ghost var done := "\n";
      for i := 0 to indent
        invariant Valid() && Now() == WithAll(was, done) && done == "\n" + margin[..i]
      {
        StillThere(was, done, start + i);
        WithAllOne(was, done, margin[i]);
        OneMore(margin, i);
        done := done + [margin[i]];
        Put(text[start + i]);
      }
      assert margin[..indent] == margin;
    }

    method Undo() returns (done: bool)
      requires Valid()
      modifies this
      ensures Valid() && done == old(canUndo) && All() == Undone(old(All()))
    {
      if !canUndo {
        return false;
      }
      var was := Now();
      text, cursor := undo.text, undo.cursor;
      undo, last := was, NoOp;
      return true;
    }

    method MoveUp()
      requires Valid()
      modifies `cursor
      ensures Valid() && cursor == Above(text, old(cursor))
    {
      var start := LineStart(text, cursor);
      if start == 0 {
        return;
      }
      var prev := LineStart(text, start - 1);
      cursor := prev + Least(cursor - start, start - 1 - prev);
    }

    method MoveDown()
      requires Valid()
      modifies `cursor
      ensures Valid() && cursor == Below(text, old(cursor))
    {
      var end := LineEnd(text, cursor);
      if end >= |text| {
        return;
      }
      cursor := end + 1 + Least(cursor - LineStart(text, cursor), LineEnd(text, end + 1) - (end + 1));
    }

    method Step(dx: int)
      requires Valid()
      modifies `cursor
      ensures Valid() && cursor == Sideways(old(Now()), dx)
    {
      if dx < 0 && cursor > 0 {
        cursor := cursor - 1;
      } else if dx > 0 && cursor < |text| {
        cursor := cursor + 1;
      }
    }

    /** A character either way; then up or down a line, as far along as it goes and no further than the line does. */
    method Move(dx: int, dy: int)
      requires Valid()
      modifies `cursor, `last
      ensures Valid() && All() == old(All()).(doc := Moved(old(Now()), dx, dy), last := NoOp)
      ensures var o := Sideways(old(Now()), dx);
              var line, col := Line(text, o), Column(text, o);
              if dy < 0 && line > 0 then
                Line(text, cursor) == line - 1 && Column(text, cursor) == Least(col, |Lines(text)[line - 1]|)
              else if dy > 0 && line + 1 < |Lines(text)| then
                Line(text, cursor) == line + 1 && Column(text, cursor) == Least(col, |Lines(text)[line + 1]|)
              else cursor == o
    {
      last := NoOp;
      Step(dx);
      if dy < 0 {
        LandsAbove(text, cursor, Line(text, cursor), Above(text, cursor));
        MoveUp();
      } else if dy > 0 {
        LandsBelow(text, cursor, Line(text, cursor), Below(text, cursor));
        MoveDown();
      }
    }

    /** To the first character of a line that is no blank; to the end where there are not so many lines. */
    method Goto(line: nat)
      requires Valid()
      modifies `cursor, `last
      ensures Valid() && All() == old(All()).(doc := WentTo(old(Now()), line), last := NoOp)
      ensures if line < |Lines(text)| then
                Line(text, cursor) == line && Column(text, cursor) == Blanks(Lines(text)[line])
              else cursor == |text|
    {
      var at, n: nat := 0, 0;
      while n < line && at < |text|
        invariant n <= line && at <= |text| && at == LineAt(text, n)
      {
        at := LineEnd(text, at);
        if at < |text| {
          at := at + 1;
        }
        n := n + 1;
      }
      PastTheEnd(text, n, line);
      ghost var begin := at;
      while at < |text| && Blank(text[at])
        invariant begin <= at <= |text| && PastBlanks(text, begin) == PastBlanks(text, at)
      {
        at := at + 1;
      }
      GoesThere(text, line);
      cursor := at;
      last := NoOp;
    }

    method CountLines() returns (n: nat)
      ensures n == |Lines(text)|
    {
      n := 1;
      assert text[..0] == "";
      OpenLines("");
      for i := 0 to |text|
        invariant n == |Lines(text[..i])|
      {
        assert text[..i + 1] == text[..i] + [text[i]];
        LinesMore(text[..i], text[i]);
        n := if text[i] == '\n' then n + 1 else n;
      }
      assert text[..|text|] == text;
    }

    /** A line of the text; none exactly where there are not so many. */
    method GetLine(index: nat) returns (found: bool, line: string)
      ensures found <==> index < |Lines(text)|
      ensures found ==> line == Lines(text)[index]
    {
      var at: nat, n: nat := 0, 0;
      BeginsAt(text, 0);
      assert text[..0] == "";
      OpenLines("");
      while n < index
        invariant n <= index && Begins(text, at, n)
      {
        var end := LineEnd(text, at);
        LineHere(text, at, n);
        if end >= |text| {
          return false, "";
        }
        NextBegins(text, at, n);
        at, n := end + 1, n + 1;
      }
      LineHere(text, at, n);
      return true, text[at..LineEnd(text, at)];
    }

    method Where() returns (line: nat, col: nat)
      requires Valid()
      ensures line == Line(text, cursor) && col == Column(text, cursor)
    {
      line := 0;
      assert text[..0] == "";
      OpenLines("");
      for i := 0 to cursor
        invariant line == |Lines(text[..i])| - 1
      {
        assert text[..i + 1] == text[..i] + [text[i]];
        LinesMore(text[..i], text[i]);
        line := if text[i] == '\n' then line + 1 else line;
      }
      CursorLine(text, cursor);
      col := cursor - LineStart(text, cursor);
    }
  }

  /** Line and column are the offset: so many lines with their newlines, and so far along. */
  lemma OffsetBack(s: string, o: nat)
    requires o <= |s|
    ensures o == |Joined(Lines(s)[..Line(s, o)] + [Lines(s)[Line(s, o)][..Column(s, o)]])|
  {
    CursorLine(s, o);
    var b, n := LineStart(s, o), Line(s, o);
    LineHere(s, b, n);
    assert Lines(s[..o]) == Lines(s)[..n] + [Lines(s)[n][..Column(s, o)]] by {
      Inside(s, b, n, o - b);
      assert b + (o - b) == o;
      assert Lines(s)[n][..o - b] == s[b..o];
    }
    JoinedLines(s[..o]);
  }
}
