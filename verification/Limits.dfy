/** How long, how deep and how much: where the translator gives up on what is otherwise a formula. */
module Limits {
  import opened Basics
  import opened Text
  import opened Formula
  import opened Rpn
  import opened Compiler
  import opened Translator
  import opened Readings
  import Scanner
  import Grammar

  /** A number of more than sixty characters, or a name of more than sixty-three, is not read. */
  lemma TooLong(n: NumeralText, x: NameText, call: bool, rest: Tokens, room: nat)
    ensures |n| > 60 <==> !IsShortNumber(n)
    ensures |n| > 60 ==> ParseSums(Next(Number(n), rest), room).Fail?
    ensures |x| > 63 <==> !IsShortName(x)
    ensures |x| > 63 ==> ParseSums(Next(Name(x, call), rest), room).Fail?
  {
    if |n| > 60 { StartsWith(Next(Number(n), rest), room); }
    if |x| > 63 { StartsWith(Next(Name(x, call), rest), room); }
  }

  /** What cannot be read as a value cannot be read at all, but for a sign. */
  lemma StartsWith(ts: Tokens, room: nat)
    requires ts.Next? && !ts.head.Op? && forall r: nat :: ParsePrimary(ts, r).Fail?
    ensures ParseSums(ts, room).Fail?
  {
    if room > 0 {
      assert ParsePrimary(ts, room - 1).Fail?;
      assert ParsePostfixed(ts, room - 1).Fail?;
      assert ParsePower(ts, room - 1).Fail?;
    }
    assert ParseUnary(ts, room).Fail?;
    assert ParseProduct(ts, room).Fail?;
    assert ParseSum(ts, room).Fail?;
  }

  // ------------------------------------------------------------------------ how deep

  function Signs(k: nat, rest: Tokens): Tokens {
    if k == 0 then rest else Next(Op('-'), Signs(k - 1, rest))
  }

  function Minuses(k: nat, x: NameText): Unary {
    if k == 0 then AsUnary(x) else Minus(Minuses(k - 1, x))
  }

  lemma {:induction false} MinusesWritten(k: nat, x: NameText, room: nat)
    requires Variable(x)
    ensures WriteUnary(Minuses(k, x), End) == Signs(k, Named(x, End))
    ensures UnaryOk(Minuses(k, x), room) <==> k < room
  {
    if k == 0 {
      UnaryWritten(x, End);
      if room > 0 { NameFits(x, room); }
    } else if room > 0 {
      MinusesWritten(k - 1, x, room - 1);
    } else {
      MinusesWritten(k - 1, x, 0);
    }
  }

  /** Thirty-one signs in a row are read, and thirty-two are not. */
  lemma SignsRead(k: nat, x: NameText, tree: Sums)
    requires Variable(x) && tree == More(Term(Factor(Minuses(k, x))), NoMore)
    ensures ParseSums(Signs(k, Named(x, End)), 32) == Done(tree, End) <==> k <= 31
  {
    MinusesWritten(k, x, 32);
    var u := Minuses(k, x);
    LoneUnary(u, End);
    assert SumsOk(NoMore, 32) && WriteSums(tree, End) == Signs(k, Named(x, End));
    assert ProductOk(Factor(u), 32) <==> UnaryOk(u, 32);
    assert SumOk(Term(Factor(u)), 32) <==> UnaryOk(u, 32);
    assert SumsOk(tree, 32) <==> UnaryOk(u, 32);
    Grammar.ReadsExactlyTheGrammar(Signs(k, Named(x, End)), tree, 32);
  }

  // -------------------------------------------------------------------- after a value

  lemma PostfixIsName(w: string)
    requires w == "sq" || w == "cb" || w == "inv" || w == "fac"
    ensures IsName(w) && Scanner.OperatorOf(w) == NUL
  {
    OpenName(w);
  }

  lemma LastScans(w: NameText)
    requires Scanner.OperatorOf(w) == NUL
    ensures Scanner.Scannable(Next(Name(w, false), End))
  {
  }

  /** Four words come after what they apply to. */
  lemma PostfixWords(x: NameText, w: NameText)
    requires Variable(x) && (w == "sq" || w == "cb" || w == "inv" || w == "fac")
    ensures ReadsAs(Named(x, Next(Name(w, false), End)), [x, w])
  {
    var last := Next(Name(w, false), End);
    var posts := [Word(w)];
    var p := Postfixed(Bare(x), posts);
    assert posts[1..] == [] && posts[..0] == [] && WritePosts([], End) == End;
    assert posts[0] == Word(w) && WritePosts(posts, End) == last;
    assert WritePostfixed(p, End) == Named(x, last);
    assert PostWords([]) == [] && PostWords(posts) == [] + [w] && PostPostfixed(p) == [x] + [w];
    assert PostfixedOk(p, DEPTH_MAX - 1) && PowerOk(Plain(p), DEPTH_MAX - 1);
    LonePower(Plain(p), End);
    PostfixIsName(w);
    LastScans(w);
    NamedScans(x, last);
    Reads(Term(Factor(Unsigned(Plain(p)))), Named(x, last), [x, w]);
  }

  // --------------------------------------------------------------------- how much room

  lemma OneWordFits(w: string, cap: nat)
    ensures Fits([w], cap) <==> |w| + 2 <= cap
  {
    FitsOneMore([], w, cap);
    assert [] + [w] == [w] && Join([]) == "";
  }

  /** Words fit where a word by itself has two characters to spare, or more than one have one after them all. */
  lemma {:induction false} FitsExactly(words: seq<string>, cap: nat)
    requires words != [] && forall i :: 0 <= i < |words| ==> words[i] != ""
    ensures Fits(words, cap) <==> |Join(words)| + (if |words| == 1 then 2 else 1) <= cap
    decreases |words|
  {
    var front, last := words[..|words| - 1], words[|words| - 1];
    assert words == front + [last];
    if front == [] {
      assert words == [last];
      OneWordFits(last, cap);
    } else {
      FitsExactly(front, cap);
      FitsOneMore(front, last, cap);
      JoinedMore(front, last, words);
    }
  }

  lemma JoinedMore(front: seq<string>, last: string, words: seq<string>)
    requires front != [] && words == front + [last] && last != ""
    ensures |Join(words)| == |Join(front)| + 1 + |last| && (|front| == 1 ==> |Join(front)| == |front[0]|)
  {
    JoinSnoc(front, last);
  }
}
