/** Renaming a word in source text: everywhere but in strings, in comments, and beside a `::`. */
module Rename {
  import opened Text

  predicate WordChar(c: char) {
    IsAlpha(c) || IsDigit(c) || c == '_'
  }

  predicate IsName(w: string) {
    w != "" && forall i :: 0 <= i < |w| ==> WordChar(w[i])
  }

  // ------------------------------------------------------------------- the pieces

  function LineEnd(s: string, i: nat): (e: nat)
    requires i <= |s|
    ensures i <= e <= |s|
    decreases |s| - i
  {
    if i == |s| || s[i] == '\n' then i else LineEnd(s, i + 1)
  }

  function CommentEnd(s: string, i: nat): (e: nat)
    requires i <= |s|
    ensures i <= e <= |s|
    decreases |s| - i
  {
    if i == |s| then i
    else if s[i] == '*' && At(s, i + 1) == '/' then i + 2
    else CommentEnd(s, i + 1)
  }

  function QuoteEnd(s: string, i: nat): (e: nat)
    requires i <= |s|
    ensures i <= e <= |s|
    decreases |s| - i
  {
    if i == |s| then i
    else if s[i] == '"' then i + 1
    else QuoteEnd(s, if s[i] == '\\' && i + 1 < |s| then i + 2 else i + 1)
  }

  function WordEnd(s: string, i: nat): (e: nat)
    requires i <= |s|
    ensures i <= e <= |s|
    ensures forall k :: i <= k < e ==> WordChar(s[k])
    decreases |s| - i
  {
    if i == |s| || !WordChar(s[i]) then i else WordEnd(s, i + 1)
  }

  /** How long the first piece is: a comment to the end of its line, a comment, a string, a word, or a character. */
  function Size(s: string): (n: nat)
    requires s != ""
    ensures 0 < n <= |s|
  {
    if s[0] == '/' && At(s, 1) == '/' then LineEnd(s, 2)
    else if s[0] == '/' && At(s, 1) == '*' then CommentEnd(s, 2)
    else if s[0] == '"' then QuoteEnd(s, 1)
    else if WordChar(s[0]) then WordEnd(s, 1)
    else 1
  }

  function Pieces(s: string): seq<string>
    decreases |s|
  {
    if s == "" then [] else [s[..Size(s)]] + Pieces(s[Size(s)..])
  }

  function Flat(pieces: seq<string>): string {
    if pieces == [] then "" else pieces[0] + Flat(pieces[1..])
  }

  lemma {:induction false} PiecesSpell(s: string)
    ensures Flat(Pieces(s)) == s
    decreases |s|
  {
    if s != "" {
      PiecesSpell(s[Size(s)..]);
      assert s == s[..Size(s)] + s[Size(s)..];
    }
  }

  // ----------------------------------------------------------------- the renaming

  predicate EndsColon(s: string) {
    s != "" && s[|s| - 1] == ':'
  }

  predicate EndsScope(s: string) {
    |s| >= 2 && s[|s| - 1] == ':' && s[|s| - 2] == ':'
  }

  predicate StartsScope(s: string) {
    At(s, 0) == ':' && At(s, 1) == ':'
  }

  /** The piece is the word by itself: not a scope, and not a name inside one. */
  predicate IsFree(before: string, piece: string, rest: string, w: string) {
    piece != "" && WordChar(piece[0]) && !EndsScope(before) && !StartsScope(rest) && piece == w
  }

  /** The pieces of a text that comes after another, with one word put for another. */
  function Put(before: string, s: string, from: string, to: string): seq<string>
    decreases |s|
  {
    if s == "" then []
    else
      var piece, rest := s[..Size(s)], s[Size(s)..];
      [if IsFree(before, piece, rest, from) then to else piece] + Put(before + piece, rest, from, to)
  }

  function Renamed(s: string, from: string, to: string): string {
    Flat(Put("", s, from, to))
  }

  /** The word is somewhere in the text by itself. */
  predicate Occurs(before: string, s: string, w: string)
    decreases |s|
  {
    s != "" &&
    var piece, rest := s[..Size(s)], s[Size(s)..];
    IsFree(before, piece, rest, w) || Occurs(before + piece, rest, w)
  }

  /** One for one: each piece is as it was, unless it is the word by itself. */
  lemma {:induction false} OneForOne(before: string, s: string, from: string, to: string, i: nat)
    requires i < |Pieces(s)|
    ensures |Put(before, s, from, to)| == |Pieces(s)|
    ensures var p := Pieces(s);
            Put(before, s, from, to)[i]
            == if IsFree(before + Flat(p[..i]), p[i], Flat(p[i + 1..]), from) then to else p[i]
    decreases |s|
  {
    var p, piece, rest := Pieces(s), s[..Size(s)], s[Size(s)..];
    PiecesSpell(rest);
    assert p[1..] == Pieces(rest);
    if i == 0 {
      assert before + Flat(p[..0]) == before;
      if rest != "" { OneForOne(before + piece, rest, from, to, 0); }
    } else {
      OneForOne(before + piece, rest, from, to, i - 1);
      assert p[1..][i..] == p[i + 1..];
      assert p[..i][1..] == p[1..][..i - 1];
      assert before + Flat(p[..i]) == before + piece + Flat(p[1..][..i - 1]);
    }
  }

  // --------------------------------------------------------- reading the result back

  /** Texts that make no difference to what comes before them. */
  predicate Alike(a: string, b: string) {
    && (a == "" <==> b == "")
    && (a != "" ==> a[0] == b[0] || (WordChar(a[0]) && WordChar(b[0])))
    && (StartsScope(a) <==> StartsScope(b))
  }

  /** Texts that make no difference to what comes after them. */
  predicate EndAlike(a: string, b: string) {
    (EndsColon(a) <==> EndsColon(b)) && (EndsScope(a) <==> EndsScope(b))
  }

  lemma {:induction false} LineEndLocal(p: string, a: string, b: string, i: nat)
    requires i <= |p| && LineEnd(p + a, i) == |p| && Alike(a, b)
    ensures LineEnd(p + b, i) == |p|
    decreases |p| - i
  {
    if i < |p| {
      assert (p + a)[i] == (p + b)[i];
      LineEndLocal(p, a, b, i + 1);
    } else {
      assert a == "" || (p + a)[i] == a[0];
      assert b == "" || (p + b)[i] == b[0];
    }
  }

  lemma {:induction false} CommentEndLocal(p: string, a: string, b: string, i: nat)
    requires i <= |p| && CommentEnd(p + a, i) == |p| && Alike(a, b)
    ensures CommentEnd(p + b, i) == |p|
    decreases |p| - i
  {
    if a == "" {
      assert p + a == p + b;
    } else if i < |p| {
      assert (p + a)[i] == (p + b)[i];
      assert i + 1 < |p| ==> (p + a)[i + 1] == (p + b)[i + 1];
      if CommentEnd(p + a, i) != i + 2 || !((p + a)[i] == '*' && At(p + a, i + 1) == '/') {
        CommentEndLocal(p, a, b, i + 1);
      }
    }
  }

  lemma {:induction false} QuoteEndLocal(p: string, a: string, b: string, i: nat)
    requires i <= |p| && QuoteEnd(p + a, i) == |p| && Alike(a, b)
    ensures QuoteEnd(p + b, i) == |p|
    decreases |p| - i
  {
    if a == "" {
      assert p + a == p + b;
    } else if i < |p| {
      assert (p + a)[i] == (p + b)[i];
      if (p + a)[i] != '"' {
        QuoteEndLocal(p, a, b, if (p + a)[i] == '\\' && i + 1 < |p + a| then i + 2 else i + 1);
      }
    }
  }

  lemma {:induction false} WordEndLocal(p: string, a: string, i: nat)
    requires i <= |p| && (forall k :: 0 <= k < |p| ==> WordChar(p[k])) && (a == "" || !WordChar(a[0]))
    ensures WordEnd(p + a, i) == |p|
    decreases |p| - i
  {
    if i < |p| { WordEndLocal(p, a, i + 1); }
  }

  /** The first piece is the same whatever comes after, so long as that makes no difference. */
  lemma SizeLocal(p: string, a: string, b: string)
    requires p != "" && Size(p + a) == |p| && Alike(a, b)
    ensures Size(p + b) == |p|
  {
    assert (p + a)[0] == p[0] == (p + b)[0];
    if p[0] == '/' && At(p + a, 1) == '/' {
      LineEndLocal(p, a, b, 2);
    } else if p[0] == '/' && At(p + a, 1) == '*' {
      CommentEndLocal(p, a, b, 2);
    } else if p[0] == '"' {
      QuoteEndLocal(p, a, b, 1);
    } else if WordChar(p[0]) {
      WordPiece(p, a);
      WordEndLocal(p, b, 1);
    }
  }

  /** A word goes as far as word characters do. */
  lemma WordPiece(p: string, a: string)
    requires p != "" && Size(p + a) == |p| && WordChar(p[0])
    ensures IsName(p) && (a == "" || !WordChar(a[0]))
  {
    assert forall k :: 0 <= k < |p| ==> (p + a)[k] == p[k];
    WordEndStops(p + a, 1);
  }

  lemma {:induction false} WordEndStops(s: string, i: nat)
    requires i <= |s|
    ensures WordEnd(s, i) < |s| ==> !WordChar(s[WordEnd(s, i)])
    decreases |s| - i
  {
    if i < |s| && WordChar(s[i]) { WordEndStops(s, i + 1); }
  }

  /** A word put for a word is a piece too. */
  lemma WordSize(w: string, p: string, a: string, b: string)
    requires IsName(w) && p != "" && Size(p + a) == |p| && WordChar(p[0]) && Alike(a, b)
    ensures Size(w + b) == |w|
  {
    WordPiece(p, a);
    assert (w + b)[0] == w[0];
    WordEndLocal(w, b, 1);
  }

  lemma EndAlikeBoth(a: string, b: string, p: string)
    requires EndAlike(a, b) && p != ""
    ensures EndAlike(a + p, b + p)
  {
  }

  /** How a renamed text begins: as it did, or with one word for another. */
  lemma FirstPut(before: string, s: string, from: string, to: string)
    requires IsName(to)
    ensures var a := Flat(Put(before, s, from, to));
            (s == "" <==> a == "") && (s != "" ==> a[0] == s[0] || (WordChar(a[0]) && WordChar(s[0])))
  {
    if s != "" {
      var piece, rest := s[..Size(s)], s[Size(s)..];
      var put := if IsFree(before, piece, rest, from) then to else piece;
      assert Put(before, s, from, to)[0] == put;
      assert Flat(Put(before, s, from, to))[0] == put[0] && piece[0] == s[0];
    }
  }

  /** A colon is a piece by itself, and stays. */
  lemma ColonPut(before: string, s: string, from: string, to: string)
    requires IsName(to) && s != "" && s[0] == ':'
    ensures Flat(Put(before, s, from, to)) == ":" + Flat(Put(before + ":", s[1..], from, to))
  {
    assert Size(s) == 1 && s[..1] == ":";
    assert Put(before, s, from, to)[0] == ":" && Put(before, s, from, to)[1..] == Put(before + ":", s[1..], from, to);
  }

  /** A renamed text begins with a scope where it did. */
  lemma ScopePut(before: string, s: string, from: string, to: string)
    requires IsName(to)
    ensures StartsScope(s) <==> StartsScope(Flat(Put(before, s, from, to)))
  {
    FirstPut(before, s, from, to);
    if s != "" && s[0] == ':' {
      var after := Flat(Put(before + ":", s[1..], from, to));
      ColonPut(before, s, from, to);
      FirstPut(before + ":", s[1..], from, to);
      assert s[1..] != "" ==> s[1..][0] == s[1];
      assert after != "" ==> (":" + after)[1] == after[0];
    }
  }

  /** The first piece of a renamed text, and what is after it. */
  lemma FirstRenamed(before: string, s: string, from: string, to: string)
    requires IsName(to) && s != ""
    ensures var piece, rest := s[..Size(s)], s[Size(s)..];
            var put := if IsFree(before, piece, rest, from) then to else piece;
            var after := Flat(Put(before + piece, rest, from, to));
            && Flat(Put(before, s, from, to)) == put + after && Size(put + after) == |put|
            && (put + after)[..|put|] == put && (put + after)[|put|..] == after && Alike(rest, after)
            && (WordChar(piece[0]) <==> WordChar(put[0]))
  {
    var piece, rest := s[..Size(s)], s[Size(s)..];
    assert s == piece + rest;
    var after := Flat(Put(before + piece, rest, from, to));
    FirstPut(before + piece, rest, from, to);
    ScopePut(before + piece, rest, from, to);
    if IsFree(before, piece, rest, from) {
      WordSize(to, piece, rest, after);
    } else {
      SizeLocal(piece, rest, after);
    }
  }

  /** The result reads back as just the pieces that were put. */
  lemma {:induction false} ReadsBack(before: string, s: string, from: string, to: string)
    requires IsName(to)
    ensures Pieces(Flat(Put(before, s, from, to))) == Put(before, s, from, to)
    decreases |s|
  {
    if s != "" {
      FirstRenamed(before, s, from, to);
      ReadsBack(before + s[..Size(s)], s[Size(s)..], from, to);
    }
  }

  /** Renaming a to b and then b to a is renaming b to a. */
  lemma {:induction false} ThereAndBack(before: string, was: string, s: string, a: string, b: string)
    requires IsName(a) && IsName(b) && EndAlike(before, was)
    ensures Put(was, Flat(Put(before, s, a, b)), b, a) == Put(before, s, b, a)
    decreases |s|
  {
    if s != "" {
      FirstRenamed(before, s, a, b);
      var piece, rest := s[..Size(s)], s[Size(s)..];
      var put := if IsFree(before, piece, rest, a) then b else piece;
      if put == piece {
        EndAlikeBoth(before, was, piece);
      }
      ThereAndBack(before + piece, was + put, rest, a, b);
    }
  }

  /** A renaming changes nothing exactly where the word is not there, or becomes itself. */
  lemma {:induction false} SameExactly(before: string, s: string, from: string, to: string)
    requires IsName(to)
    ensures Put(before, s, from, to) == Pieces(s) <==> from == to || !Occurs(before, s, from)
    decreases |s|
  {
    if s != "" {
      var piece, rest := s[..Size(s)], s[Size(s)..];
      SameExactly(before + piece, rest, from, to);
      var put := if IsFree(before, piece, rest, from) then to else piece;
      assert Put(before, s, from, to)[0] == put && Put(before, s, from, to)[1..] == Put(before + piece, rest, from, to);
      assert Pieces(s)[0] == piece && Pieces(s)[1..] == Pieces(rest);
      if Put(before + piece, rest, from, to) == Pieces(rest) && put == piece {
        assert Put(before, s, from, to) == Pieces(s);
      }
    }
  }

  /** Renaming a to b and back gives the text it was exactly where b was not there by itself, or is a. */
  lemma RoundTrip(s: string, a: string, b: string)
    requires IsName(a) && IsName(b)
    ensures Renamed(Renamed(s, a, b), b, a) == s <==> a == b || !Occurs("", s, b)
  {
    ThereAndBack("", "", s, a, b);
    SameExactly("", s, b, a);
    PiecesSpell(s);
    ReadsBack("", s, b, a);
  }

  /** And the word that was renamed is nowhere by itself any more. */
  lemma {:induction false} Gone(before: string, was: string, s: string, a: string, b: string)
    requires IsName(a) && IsName(b) && a != b && EndAlike(before, was)
    ensures !Occurs(was, Flat(Put(before, s, a, b)), a)
    decreases |s|
  {
    if s != "" {
      FirstRenamed(before, s, a, b);
      var piece, rest := s[..Size(s)], s[Size(s)..];
      var put := if IsFree(before, piece, rest, a) then b else piece;
      if put == piece {
        EndAlikeBoth(before, was, piece);
      }
      Gone(before + piece, was + put, rest, a, b);
    }
  }

  // ------------------------------------------------- what is left alone, and what is not

  /** What comes after does not depend on more of what came before than how that ends. */
  lemma {:induction false} PutAlike(before: string, was: string, s: string, from: string, to: string)
    requires EndAlike(before, was)
    ensures Put(before, s, from, to) == Put(was, s, from, to)
    decreases |s|
  {
    if s != "" {
      var piece, rest := s[..Size(s)], s[Size(s)..];
      EndAlikeBoth(before, was, piece);
      PutAlike(before + piece, was + piece, rest, from, to);
    }
  }

  /** A first piece that is no word stays, and the rest is renamed as if it stood alone. */
  lemma LeftAlone(before: string, piece: string, rest: string, from: string, to: string)
    requires piece != "" && Size(piece + rest) == |piece| && !WordChar(piece[0]) && !EndsColon(piece)
    ensures Flat(Put(before, piece + rest, from, to)) == piece + Renamed(rest, from, to)
  {
    var s := piece + rest;
    assert s[..Size(s)] == piece && s[Size(s)..] == rest;
    PutAlike(before + piece, "", rest, from, to);
    assert Put(before, s, from, to) == [piece] + Put(before + piece, rest, from, to);
  }

  /** Every quote in it has a backslash before it, and every backslash something after it. */
  predicate Escaped(body: string) {
    body == "" ||
    if body[0] == '\\' then |body| >= 2 && Escaped(body[2..])
    else body[0] != '"' && Escaped(body[1..])
  }

  lemma {:induction false} QuoteEndAt(s: string, i: nat, body: string)
    requires Escaped(body) && i + |body| <= |s| && s[i..i + |body|] == body
    ensures QuoteEnd(s, i) == QuoteEnd(s, i + |body|)
    decreases |body|
  {
    if body != "" {
      assert s[i] == s[i..i + |body|][0];
      var k := if body[0] == '\\' then 2 else 1;
      assert s[i + k..i + k + |body[k..]|] == s[i..i + |body|][k..];
      QuoteEndAt(s, i + k, body[k..]);
    }
  }

  /** A string is left as it is, whatever is in it, and the renaming goes on after it. */
  lemma StringsLeftAlone(before: string, body: string, rest: string, from: string, to: string)
    requires Escaped(body)
    ensures var text := "\"" + body + "\"";
            Flat(Put(before, text + rest, from, to)) == text + Renamed(rest, from, to)
  {
    var text := "\"" + body + "\"";
    var s := text + rest;
    assert s[1..1 + |body|] == body;
    QuoteEndAt(s, 1, body);
    assert s[1 + |body|] == '"';
    LeftAlone(before, text, rest, from, to);
  }

  /** So is one that is never closed, to the end of the text. */
  lemma OpenStringLeftAlone(before: string, body: string, from: string, to: string)
    requires Escaped(body)
    ensures Flat(Put(before, "\"" + body, from, to)) == "\"" + body
  {
    var s := "\"" + body;
    assert s[1..1 + |body|] == body;
    QuoteEndAt(s, 1, body);
    WholeLeft(before, s, from, to);
  }

  lemma WholeLeft(before: string, s: string, from: string, to: string)
    requires s != "" && Size(s) == |s| && !WordChar(s[0])
    ensures Flat(Put(before, s, from, to)) == s
  {
    assert s[..|s|] == s && s[|s|..] == "";
    assert Put(before, s, from, to) == [s] + Put(before + s, "", from, to) == [s];
    assert Flat([s]) == s + Flat([s][1..]);
  }

  /** There is no end of a comment in it. */
  predicate NoClose(body: string) {
    forall i :: 0 <= i < |body| - 1 ==> !(body[i] == '*' && body[i + 1] == '/')
  }

  lemma {:induction false} CommentEndAt(s: string, i: nat, body: string)
    requires NoClose(body) && i + |body| <= |s| && s[i..i + |body|] == body
    requires body != "" && i + |body| < |s| ==> !(body[|body| - 1] == '*' && s[i + |body|] == '/')
    ensures CommentEnd(s, i) == CommentEnd(s, i + |body|)
    decreases |body|
  {
    if body != "" {
      assert s[i] == s[i..i + |body|][0];
      assert |body| > 1 ==> s[i + 1] == s[i..i + |body|][1];
      assert s[i + 1..i + 1 + |body[1..]|] == s[i..i + |body|][1..];
      CommentEndAt(s, i + 1, body[1..]);
    }
  }

  /** A comment, to the first end of one. */
  lemma CommentsLeftAlone(before: string, body: string, rest: string, from: string, to: string)
    requires NoClose(body)
    ensures var text := "/*" + body + "*/";
            Flat(Put(before, text + rest, from, to)) == text + Renamed(rest, from, to)
  {
    var text := "/*" + body + "*/";
    var s := text + rest;
    assert s[2..2 + |body|] == body && s[2 + |body|] == '*' && s[3 + |body|] == '/';
    CommentEndAt(s, 2, body);
    LeftAlone(before, text, rest, from, to);
  }

  /** Or to the end of the text, where there is none. */
  lemma OpenCommentLeftAlone(before: string, body: string, from: string, to: string)
    requires NoClose(body)
    ensures Flat(Put(before, "/*" + body, from, to)) == "/*" + body
  {
    var s := "/*" + body;
    assert s[2..2 + |body|] == body;
    CommentEndAt(s, 2, body);
    WholeLeft(before, s, from, to);
  }

  lemma {:induction false} LineEndAt(s: string, i: nat, body: string)
    requires '\n' !in body && i + |body| <= |s| && s[i..i + |body|] == body
    ensures LineEnd(s, i) == LineEnd(s, i + |body|)
    decreases |body|
  {
    if body != "" {
      assert s[i] == s[i..i + |body|][0] && s[i] in body;
      assert s[i + 1..i + 1 + |body[1..]|] == s[i..i + |body|][1..];
      LineEndAt(s, i + 1, body[1..]);
    }
  }

  /** And a comment to the end of its line. */
  lemma LineLeftAlone(before: string, body: string, rest: string, from: string, to: string)
    requires '\n' !in body && (rest != "" ==> rest[0] == '\n')
    ensures Flat(Put(before, "//" + body + rest, from, to)) == "//" + body + Renamed(rest, from, to)
  {
    var text := "//" + body;
    var s := text + rest;
    assert s[2..2 + |body|] == body;
    LineEndAt(s, 2, body);
    assert rest != "" ==> s[|text|] == rest[0];
    if EndsColon(text) && rest != "" {
      LineThenBreak(before, text, rest, from, to);
    } else if rest == "" {
      assert s == text;
      WholeLeft(before, s, from, to);
      assert text + Renamed("", from, to) == text;
    } else {
      LeftAlone(before, text, rest, from, to);
    }
  }

  /** A line that ends in a colon: the break after it is no word, so it makes no difference. */
  lemma LineThenBreak(before: string, text: string, rest: string, from: string, to: string)
    requires text != "" && rest != "" && rest[0] == '\n' && Size(text + rest) == |text| && !WordChar(text[0])
    ensures Flat(Put(before, text + rest, from, to)) == text + Renamed(rest, from, to)
  {
    var s := text + rest;
    assert s[..Size(s)] == text && s[Size(s)..] == rest;
    assert Put(before, s, from, to) == [text] + Put(before + text, rest, from, to);
    assert Size(rest) == 1 && rest[..1] == "\n";
    PutAlike(before + text + "\n", "\n", rest[1..], from, to);
    assert Put(before + text, rest, from, to) == ["\n"] + Put(before + text + "\n", rest[1..], from, to);
    assert Put("", rest, from, to) == ["\n"] + Put("" + "\n", rest[1..], from, to);
    assert "" + "\n" == "\n";
  }

  /** A letter, a digit or an underscore: what a word is made of. */
  lemma WordCharacters(c: char)
    ensures WordChar(c) <==>
              0x30 <= c as int <= 0x39 || 0x41 <= c as int <= 0x5A || 0x61 <= c as int <= 0x7A || c as int == 0x5F
  {
  }

  /** A whole word: it begins where no word is, and goes as far as its characters do. */
  lemma WordThere(w: string, rest: string)
    requires IsName(w) && (rest != "" ==> !WordChar(rest[0]))
    ensures Size(w + rest) == |w| && (w + rest)[..|w|] == w && (w + rest)[|w|..] == rest
  {
    assert (w + rest)[0] == w[0];
    WordEndLocal(w, rest, 1);
  }

  /** The word by itself is renamed, another is not, and neither is the word with a scope on either side of it. */
  lemma WordsRenamedExactly(before: string, w: string, rest: string, from: string, to: string)
    requires IsName(w) && (rest != "" ==> !WordChar(rest[0]))
    ensures var scoped := (|before| >= 2 && before[|before| - 2..] == "::") || (|rest| >= 2 && rest[..2] == "::");
            Flat(Put(before, w + rest, from, to))
            == (if w == from && !scoped then to else w) + Flat(Put(before + w, rest, from, to))
  {
    WordThere(w, rest);
    var put := if IsFree(before, w, rest, from) then to else w;
    assert Put(before, w + rest, from, to) == [put] + Put(before + w, rest, from, to);
    if |before| >= 2 { LastTwo(before); }
    if |rest| >= 2 { FirstTwo(rest); }
  }

  /** Any other character stays, and is not looked at again but for the colons of a scope. */
  lemma OthersStay(before: string, c: char, rest: string, from: string, to: string)
    requires !WordChar(c) && c != '"' && (c == '/' && rest != "" ==> rest[0] != '/' && rest[0] != '*')
    ensures Flat(Put(before, [c] + rest, from, to)) == [c] + Flat(Put(before + [c], rest, from, to))
  {
    var s := [c] + rest;
    assert rest != "" ==> s[1] == rest[0];
    assert Size(s) == 1 && s[..1] == [c] && s[1..] == rest;
    assert Put(before, s, from, to) == [[c]] + Put(before + [c], rest, from, to);
  }

  lemma LastTwo(s: string)
    requires |s| >= 2
    ensures s[|s| - 2..] == "::" <==> s[|s| - 1] == ':' && s[|s| - 2] == ':'
  {
    var t := s[|s| - 2..];
    assert t[0] == s[|s| - 2] && t[1] == s[|s| - 1];
    if t[0] == ':' && t[1] == ':' { assert t == "::"; }
  }

  lemma FirstTwo(s: string)
    requires |s| >= 2
    ensures s[..2] == "::" <==> s[0] == ':' && s[1] == ':'
  {
    var t := s[..2];
    assert t[0] == s[0] && t[1] == s[1];
    if t[0] == ':' && t[1] == ':' { assert t == "::"; }
  }

  // --------------------------------------------------------------- in the buffers

  /** Walk over the first piece. */
  method PieceEnd(s: string) returns (p: nat)
    requires IsCString(s) && s != ""
    ensures p == Size(s)
  {
    p := 0;
    if At(s, 0) == '/' && At(s, 1) == '/' {
      p := LineFrom(s);
    } else if At(s, 0) == '/' && At(s, 1) == '*' {
      p := 2;
      while p < |s| && !(s[p] == '*' && At(s, p + 1) == '/')
        invariant 2 <= p <= |s| && CommentEnd(s, p) == CommentEnd(s, 2)
      {
        p := p + 1;
      }
      p := if p < |s| then p + 2 else p;
    } else if s[p] == '"' {
      p := 1;
      while p < |s| && s[p] != '"'
        invariant 1 <= p <= |s| && QuoteEnd(s, p) == QuoteEnd(s, 1)
      {
        p := if s[p] == '\\' && p + 1 < |s| then p + 2 else p + 1;
      }
      p := if p < |s| then p + 1 else p;
    } else if WordChar(s[p]) {
      p := 1;
      while p < |s| && WordChar(s[p])
        invariant 1 <= p <= |s| && WordEnd(s, p) == WordEnd(s, 1)
      {
        p := p + 1;
      }
    } else {
      p := 1;
    }
  }

  method LineFrom(s: string) returns (p: nat)
    requires |s| >= 2 && s[0] == '/' && s[1] == '/'
    ensures p == LineEnd(s, 2)
  {
    p := 0;
    while p < |s| && s[p] != '\n'
      invariant p <= |s| && LineEnd(s, p) == LineEnd(s, 0)
    {
      p := p + 1;
    }
    assert LineEnd(s, 0) == LineEnd(s, 1) == LineEnd(s, 2);
  }

  method Copy(text: string, out: array<char>, n: nat)
    requires n + |text| <= out.Length
    modifies out
    ensures out[..n + |text|] == old(out[..n]) + text
  {
    for i := 0 to |text|
      invariant out[..n + i] == old(out[..n]) + text[..i]
    {
      out[n + i] := text[i];
      assert out[..n + i + 1] == out[..n + i] + [text[i]];
    }
    assert text[..|text|] == text;
  }

  /** What is still to be written, from a place in the source on; covered over, as the loop has no need to look. */
  ghost function ToCome(src: string, p: nat, from: string, to: string): string
    requires p <= |src|
  {
    ToComeCovered(src, p, from, to, 3)
  }

  /** The same under covers, which a proof takes off where it has to look. */
  ghost function ToComeCovered(src: string, p: nat, from: string, to: string, covers: nat): string
    requires p <= |src|
    decreases covers, p
  {
    if covers > 0 then ToComeCovered(src, p, from, to, covers - 1) else Flat(Put(src[..p], src[p..], from, to))
  }

  lemma OpenToCome(src: string, p: nat, from: string, to: string)
    requires p <= |src|
    ensures ToCome(src, p, from, to) == Flat(Put(src[..p], src[p..], from, to))
  {
    assert ToComeCovered(src, p, from, to, 1) == ToComeCovered(src, p, from, to, 0);
    assert ToComeCovered(src, p, from, to, 2) == ToComeCovered(src, p, from, to, 1);
  }

  lemma AllToCome(src: string, from: string, to: string)
    ensures ToCome(src, 0, from, to) == Renamed(src, from, to) && ToCome(src, |src|, from, to) == ""
  {
    OpenToCome(src, 0, from, to);
    OpenToCome(src, |src|, from, to);
    assert src[..0] == "" && src[0..] == src && src[|src|..] == "";
  }

  /** The next piece, and what is put for it. */
  method NextPiece(src: string, p: nat, from: string, to: string) returns (size: nat, put: string)
    requires IsCString(src) && p < |src|
    ensures 0 < size <= |src| - p
    ensures ToCome(src, p, from, to) == put + ToCome(src, p + size, from, to)
  {
    OpenToCome(src, p, from, to);
    var s := src[p..];
    size := PieceEnd(s);
    put := s[..size];
    assert s[size..] == src[p + size..];
    assert src[..p] + put == src[..p + size];
    if WordChar(s[0]) && !EndsScope(src[..p]) && !StartsScope(s[size..]) && put == from {
      put := to;
    }
    OpenToCome(src, p + size, from, to);
  }

  method SourceRename(src: string, from: string, to: string, out: array<char>, cap: nat) returns (ok: bool)
    requires IsCString(src) && 0 < cap <= out.Length
    modifies out
    ensures ok <==> |Renamed(src, from, to)| < cap
    ensures ok ==> out[..|Renamed(src, from, to)|] == Renamed(src, from, to) && out[|Renamed(src, from, to)|] == NUL
  {
    var n: nat, p: nat := 0, 0;
    AllToCome(src, from, to);
    while p < |src|
      invariant p <= |src| && n < cap
      invariant Renamed(src, from, to) == out[..n] + ToCome(src, p, from, to)
      decreases |src| - p
    {
      var size, put := NextPiece(src, p, from, to);
      if n + |put| >= cap {
        return false;
      }
      Copy(put, out, n);
      n, p := n + |put|, p + size;
    }
    out[n] := NUL;
    return true;
  }

}
