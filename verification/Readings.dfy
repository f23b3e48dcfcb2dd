/** Formulas as they are typed, and the words they come to: which sign is which, what binds first, and to which side. */
module Readings {
  import opened Basics
  import opened Text
  import opened Numeral
  import opened Formula
  import opened Words
  import opened Rpn
  import opened Compiler
  import opened Translator
  import Scanner
  import Grammar

  /** A name that stands for a value and is no operator. */
  predicate Variable(x: string) {
    IsName(x) && IsShortName(x) && StandsAlone(x) && Scanner.OperatorOf(x) == NUL && !IsPostfixWord(x)
  }

  /** Typed with a space after each of its tokens, any of its operators by their words, it is a formula of one
      expression and comes to these words. */
  ghost predicate ReadsAs(ts: Tokens, words: seq<string>) {
    forall byWord: nat -> bool :: TextReadsAs(Scanner.TypeOut(ts, byWord, 0), words)
  }

  predicate TextReadsAs(text: string, words: seq<string>) {
    var r := Reading(text);
    r.Done? && r.rest == End && PostSums(r.tree) == words && Count(r.tree) == 1
  }

  lemma OneSum(tree: Sum)
    ensures var all := More(tree, NoMore);
            && WriteSums(all, End) == WriteSum(tree, End) && PostSums(all) == PostSum(tree) && Count(all) == 1
            && (SumOk(tree, DEPTH_MAX) ==> SumsOk(all, DEPTH_MAX))
  {
    assert PostSums(NoMore) == [] && Count(NoMore) == 0 && SumsOk(NoMore, DEPTH_MAX);
    assert PostSum(tree) + [] == PostSum(tree);
  }

  lemma Reads(tree: Sum, ts: Tokens, words: seq<string>)
    requires SumOk(tree, DEPTH_MAX) && Scanner.Scannable(ts)
    requires WriteSum(tree, End) == ts && PostSum(tree) == words
    ensures ReadsAs(ts, words)
  {
    var all := More(tree, NoMore);
    OneSum(tree);
    forall byWord: nat -> bool ensures TextReadsAs(Scanner.TypeOut(ts, byWord, 0), words) {
      Scanner.ScanTyped(ts, byWord);
      Grammar.ReadsExactlyTheGrammar(ts, all, DEPTH_MAX);
    }
  }

  // ------------------------------------------------------------------ a name by itself

  function AsPower(x: NameText): Power {
    Plain(Postfixed(Bare(x), []))
  }

  function AsUnary(x: NameText): Unary {
    Unsigned(AsPower(x))
  }

  function AsProduct(x: NameText): Product {
    Factor(AsUnary(x))
  }

  function AsSum(x: NameText): Sum {
    Term(AsProduct(x))
  }

  function Named(x: NameText, rest: Tokens): Tokens {
    Next(Name(x, false), rest)
  }

  lemma PowerWritten(x: NameText, rest: Tokens)
    ensures WritePower(AsPower(x), rest) == Named(x, rest) && PostPower(AsPower(x)) == [x]
  {
    var p := Postfixed(Bare(x), []);
    assert WritePosts([], rest) == rest && WritePrimary(Bare(x), rest) == Named(x, rest);
    assert WritePostfixed(p, rest) == Named(x, rest);
    assert PostPrimary(Bare(x)) == [x] && PostWords([]) == [];
    assert PostPostfixed(p) == [x] + [] == [x];
  }

  lemma UnaryWritten(x: NameText, rest: Tokens)
    ensures WriteUnary(AsUnary(x), rest) == Named(x, rest) && PostUnary(AsUnary(x)) == [x]
  {
    PowerWritten(x, rest);
  }

  lemma ProductWritten(x: NameText, rest: Tokens)
    ensures WriteProduct(AsProduct(x), rest) == Named(x, rest) && PostProduct(AsProduct(x)) == [x]
  {
    UnaryWritten(x, rest);
  }

  lemma SumWritten(x: NameText, rest: Tokens)
    ensures WriteSum(AsSum(x), rest) == Named(x, rest) && PostSum(AsSum(x)) == [x]
  {
    ProductWritten(x, rest);
  }

  lemma PowerFits(x: NameText, room: nat)
    requires Variable(x)
    ensures PowerOk(AsPower(x), room) && MayStandBeside(AsPower(x))
  {
    assert PrimaryOk(Bare(x), room);
    assert PostfixedOk(Postfixed(Bare(x), []), room);
  }

  lemma NameFits(x: NameText, room: nat)
    requires Variable(x) && room > 0
    ensures UnaryOk(AsUnary(x), room) && ProductOk(AsProduct(x), room) && SumOk(AsSum(x), room)
  {
    PowerFits(x, room - 1);
    assert ProductOk(AsProduct(x), room);
  }

  lemma NamedScans(x: NameText, rest: Tokens)
    requires Variable(x) && Scanner.Scannable(rest) && !IsOp(rest, '(')
    ensures Scanner.Scannable(Named(x, rest))
  {
  }

  lemma SignScans(op: char, rest: Tokens)
    requires op in "+-*/^(),!" && Scanner.Scannable(rest)
    ensures Scanner.Scannable(Next(Op(op), rest))
  {
    assert "+-*/^(),!" == ['+', '-', '*', '/', '^', '(', ')', ',', '!'];
  }

  // ------------------------------------------------------------------ one operator

  /** The four signs of sums and products, and what each is written as. */
  predicate SumSign(sign: char, word: string) {
    (sign == '+' && word == "+") || (sign == '-' && word == "-")
  }

  predicate ProductSign(sign: char, word: string) {
    (sign == '*' && word == "*") || (sign == '/' && word == "divide")
  }

  lemma AddedWritten(left: Sum, right: Product, sign: char, word: string, rest: Tokens) returns (s: Sum)
    requires SumSign(sign, word)
    ensures WriteSum(s, rest) == WriteSum(left, Next(Op(sign), WriteProduct(right, rest)))
    ensures PostSum(s) == PostSum(left) + PostProduct(right) + [word]
    ensures SumOk(left, DEPTH_MAX) && ProductOk(right, DEPTH_MAX) ==> SumOk(s, DEPTH_MAX)
  {
    s := if sign == '+' then Add(left, right) else Subtract(left, right);
  }

  lemma MultipliedWritten(left: Product, right: Unary, sign: char, word: string, rest: Tokens) returns (p: Product)
    requires ProductSign(sign, word)
    ensures WriteProduct(p, rest) == WriteProduct(left, Next(Op(sign), WriteUnary(right, rest)))
    ensures PostProduct(p) == PostProduct(left) + PostUnary(right) + [word]
    ensures ProductOk(left, DEPTH_MAX) && UnaryOk(right, DEPTH_MAX) ==> ProductOk(p, DEPTH_MAX)
  {
    p := if sign == '*' then Times(left, right) else Over(left, right);
  }

  /** x + y, x - y */
  lemma Sums2(x: NameText, y: NameText, sign: char, word: string)
    requires Variable(x) && Variable(y) && SumSign(sign, word)
    ensures ReadsAs(Named(x, Next(Op(sign), Named(y, End))), [x, y, word])
  {
    var behind := Next(Op(sign), Named(y, End));
    var tree := AddedWritten(AsSum(x), AsProduct(y), sign, word, End);
    SumWritten(x, behind);
    ProductWritten(y, End);
    NameFits(x, DEPTH_MAX);
    NameFits(y, DEPTH_MAX);
    NamedScans(y, End);
    SignScans(sign, Named(y, End));
    NamedScans(x, behind);
    Reads(tree, Named(x, behind), [x, y, word]);
  }

  /** x * y, x / y */
  lemma Products2(x: NameText, y: NameText, sign: char, word: string)
    requires Variable(x) && Variable(y) && ProductSign(sign, word)
    ensures ReadsAs(Named(x, Next(Op(sign), Named(y, End))), [x, y, word])
  {
    var behind := Next(Op(sign), Named(y, End));
    var p := MultipliedWritten(AsProduct(x), AsUnary(y), sign, word, End);
    ProductWritten(x, behind);
    UnaryWritten(y, End);
    NameFits(x, DEPTH_MAX);
    NameFits(y, DEPTH_MAX);
    NamedScans(y, End);
    SignScans(sign, Named(y, End));
    NamedScans(x, behind);
    Reads(Term(p), Named(x, behind), [x, y, word]);
  }

  // ------------------------------------------------------------------ two operators

  /** Three names with an operator between each two. */
  function Three(x: NameText, a: char, y: NameText, b: char, z: NameText): Tokens {
    Named(x, Next(Op(a), Named(y, Next(Op(b), Named(z, End)))))
  }

  lemma ThreeScan(x: NameText, a: char, y: NameText, b: char, z: NameText)
    requires Variable(x) && Variable(y) && Variable(z) && a in "+-*/^" && b in "+-*/^"
    ensures Scanner.Scannable(Three(x, a, y, b, z))
  {
    assert "+-*/^" == ['+', '-', '*', '/', '^'];
    NamedScans(z, End);
    SignScans(b, Named(z, End));
    NamedScans(y, Next(Op(b), Named(z, End)));
    SignScans(a, Named(y, Next(Op(b), Named(z, End))));
    NamedScans(x, Next(Op(a), Named(y, Next(Op(b), Named(z, End)))));
  }

  lemma ThreeFit(x: NameText, y: NameText, z: NameText)
    requires Variable(x) && Variable(y) && Variable(z)
    ensures SumOk(AsSum(x), DEPTH_MAX) && ProductOk(AsProduct(x), DEPTH_MAX)
    ensures ProductOk(AsProduct(y), DEPTH_MAX) && UnaryOk(AsUnary(y), DEPTH_MAX)
    ensures ProductOk(AsProduct(z), DEPTH_MAX) && UnaryOk(AsUnary(z), DEPTH_MAX)
  {
    NameFits(x, DEPTH_MAX);
    NameFits(y, DEPTH_MAX);
    NameFits(z, DEPTH_MAX);
  }

  /** x - y + z is (x - y) + z. */
  lemma SumsToTheLeft(x: NameText, y: NameText, z: NameText, a: char, v: string, b: char, w: string)
    requires Variable(x) && Variable(y) && Variable(z) && SumSign(a, v) && SumSign(b, w)
    ensures ReadsAs(Three(x, a, y, b, z), [x, y, v, z, w])
  {
    var last := Next(Op(b), Named(z, End));
    var left := AddedWritten(AsSum(x), AsProduct(y), a, v, last);
    var tree := AddedWritten(left, AsProduct(z), b, w, End);
    SumWritten(x, Next(Op(a), Named(y, last)));
    ProductWritten(y, last);
    ProductWritten(z, End);
    ThreeFit(x, y, z);
    ThreeScan(x, a, y, b, z);
    Reads(tree, Three(x, a, y, b, z), [x, y, v, z, w]);
  }

  /** x / y * z is (x / y) * z. */
  lemma ProductsToTheLeft(x: NameText, y: NameText, z: NameText, a: char, v: string, b: char, w: string)
    requires Variable(x) && Variable(y) && Variable(z) && ProductSign(a, v) && ProductSign(b, w)
    ensures ReadsAs(Three(x, a, y, b, z), [x, y, v, z, w])
  {
    var last := Next(Op(b), Named(z, End));
    var left := MultipliedWritten(AsProduct(x), AsUnary(y), a, v, last);
    var p := MultipliedWritten(left, AsUnary(z), b, w, End);
    ProductWritten(x, Next(Op(a), Named(y, last)));
    UnaryWritten(y, last);
    UnaryWritten(z, End);
    ThreeFit(x, y, z);
    ThreeScan(x, a, y, b, z);
    Reads(Term(p), Three(x, a, y, b, z), [x, y, v, z, w]);
  }

  /** x - y * z is x - (y * z), */
  lemma ProductAfterSign(x: NameText, y: NameText, z: NameText, a: char, v: string, b: char, w: string)
    requires Variable(x) && Variable(y) && Variable(z) && SumSign(a, v) && ProductSign(b, w)
    ensures ReadsAs(Three(x, a, y, b, z), [x, y, z, w, v])
  {
    var last := Next(Op(b), Named(z, End));
    var p := MultipliedWritten(AsProduct(y), AsUnary(z), b, w, End);
    var tree := AddedWritten(AsSum(x), p, a, v, End);
    SumWritten(x, Next(Op(a), Named(y, last)));
    ProductWritten(y, last);
    UnaryWritten(z, End);
    ThreeFit(x, y, z);
    ThreeScan(x, a, y, b, z);
    Reads(tree, Three(x, a, y, b, z), [x, y, z, w, v]);
  }

  /** and x * y - z is (x * y) - z. */
  lemma ProductBeforeSign(x: NameText, y: NameText, z: NameText, a: char, v: string, b: char, w: string)
    requires Variable(x) && Variable(y) && Variable(z) && ProductSign(a, v) && SumSign(b, w)
    ensures ReadsAs(Three(x, a, y, b, z), [x, y, v, z, w])
  {
    var last := Next(Op(b), Named(z, End));
    var p := MultipliedWritten(AsProduct(x), AsUnary(y), a, v, last);
    var tree := AddedWritten(Term(p), AsProduct(z), b, w, End);
    ProductWritten(x, Next(Op(a), Named(y, last)));
    UnaryWritten(y, last);
    ProductWritten(z, End);
    ThreeFit(x, y, z);
    ThreeScan(x, a, y, b, z);
    Reads(tree, Three(x, a, y, b, z), [x, y, v, z, w]);
  }

  // ------------------------------------------------------------------------- powers

  /** A name raised to what comes after. */
  function RaisedTo(x: NameText, exponent: Unary): Power {
    Raised(Postfixed(Bare(x), []), exponent)
  }

  lemma RaisedWritten(x: NameText, exponent: Unary, rest: Tokens, room: nat)
    requires Variable(x)
    ensures WritePower(RaisedTo(x, exponent), rest) == Named(x, Next(Op('^'), WriteUnary(exponent, rest)))
    ensures PostPower(RaisedTo(x, exponent)) == [x] + PostUnary(exponent) + ["pow"]
    ensures UnaryOk(exponent, room) ==> PowerOk(RaisedTo(x, exponent), room)
  {
    var p, behind := Postfixed(Bare(x), []), Next(Op('^'), WriteUnary(exponent, rest));
    PowerWritten(x, behind);
    PowerFits(x, room);
    assert WritePostfixed(p, behind) == WritePower(AsPower(x), behind) && PostPostfixed(p) == PostPower(AsPower(x));
  }

  /** A power by itself is a formula. */
  lemma LonePower(p: Power, rest: Tokens)
    ensures WriteSum(Term(Factor(Unsigned(p))), rest) == WritePower(p, rest)
    ensures PostSum(Term(Factor(Unsigned(p)))) == PostPower(p)
    ensures PowerOk(p, DEPTH_MAX - 1) ==> SumOk(Term(Factor(Unsigned(p))), DEPTH_MAX)
  {
    assert WriteUnary(Unsigned(p), rest) == WritePower(p, rest) && PostUnary(Unsigned(p)) == PostPower(p);
    assert PowerOk(p, DEPTH_MAX - 1) ==> UnaryOk(Unsigned(p), DEPTH_MAX);
    assert PowerOk(p, DEPTH_MAX - 1) ==> ProductOk(Factor(Unsigned(p)), DEPTH_MAX);
    LoneUnary(Unsigned(p), rest);
  }

  lemma LoneUnary(u: Unary, rest: Tokens)
    ensures WriteSum(Term(Factor(u)), rest) == WriteUnary(u, rest) && PostSum(Term(Factor(u))) == PostUnary(u)
    ensures UnaryOk(u, DEPTH_MAX) ==> SumOk(Term(Factor(u)), DEPTH_MAX)
  {
    assert WriteProduct(Factor(u), rest) == WriteUnary(u, rest) && PostProduct(Factor(u)) == PostUnary(u);
    assert UnaryOk(u, DEPTH_MAX) ==> ProductOk(Factor(u), DEPTH_MAX);
  }

  /** x ^ y */
  lemma Powers2(x: NameText, y: NameText)
    requires Variable(x) && Variable(y)
    ensures ReadsAs(Named(x, Next(Op('^'), Named(y, End))), [x, y, "pow"])
  {
    var behind := Next(Op('^'), Named(y, End));
    RaisedWritten(x, AsUnary(y), End, DEPTH_MAX - 1);
    UnaryWritten(y, End);
    NameFits(y, DEPTH_MAX - 1);
    LonePower(RaisedTo(x, AsUnary(y)), End);
    NamedScans(y, End);
    SignScans('^', Named(y, End));
    NamedScans(x, behind);
    assert [x] + [y] + ["pow"] == [x, y, "pow"];
    Reads(Term(Factor(Unsigned(RaisedTo(x, AsUnary(y))))), Named(x, behind), [x, y, "pow"]);
  }

  /** x ^ y ^ z is x ^ (y ^ z). */
  lemma PowersToTheRight(x: NameText, y: NameText, z: NameText)
    requires Variable(x) && Variable(y) && Variable(z)
    ensures ReadsAs(Three(x, '^', y, '^', z), [x, y, z, "pow", "pow"])
  {
    var inner := Unsigned(RaisedTo(y, AsUnary(z)));
    RaisedWritten(y, AsUnary(z), End, DEPTH_MAX - 2);
    RaisedWritten(x, inner, End, DEPTH_MAX - 1);
    UnaryWritten(z, End);
    NameFits(z, DEPTH_MAX - 2);
    assert UnaryOk(inner, DEPTH_MAX - 1) && WriteUnary(inner, End) == WritePower(RaisedTo(y, AsUnary(z)), End);
    assert PostUnary(inner) == PostPower(RaisedTo(y, AsUnary(z)));
    LonePower(RaisedTo(x, inner), End);
    ThreeScan(x, '^', y, '^', z);
    assert [x] + ([y] + [z] + ["pow"]) + ["pow"] == [x, y, z, "pow", "pow"];
    Reads(Term(Factor(Unsigned(RaisedTo(x, inner)))), Three(x, '^', y, '^', z), [x, y, z, "pow", "pow"]);
  }

  /** x * y ^ z is x * (y ^ z). */
  lemma PowerAfterSign(x: NameText, y: NameText, z: NameText, a: char, v: string)
    requires Variable(x) && Variable(y) && Variable(z) && ProductSign(a, v)
    ensures ReadsAs(Three(x, a, y, '^', z), [x, y, z, "pow", v])
  {
    var raised := Unsigned(RaisedTo(y, AsUnary(z)));
    RaisedWritten(y, AsUnary(z), End, DEPTH_MAX - 1);
    UnaryWritten(z, End);
    NameFits(z, DEPTH_MAX - 1);
    NameFits(x, DEPTH_MAX);
    assert UnaryOk(raised, DEPTH_MAX) && WriteUnary(raised, End) == WritePower(RaisedTo(y, AsUnary(z)), End);
    assert PostUnary(raised) == PostPower(RaisedTo(y, AsUnary(z)));
    var p := MultipliedWritten(AsProduct(x), raised, a, v, End);
    ProductWritten(x, Next(Op(a), WriteUnary(raised, End)));
    ThreeScan(x, a, y, '^', z);
    assert [x] + ([y] + [z] + ["pow"]) + [v] == [x, y, z, "pow", v];
    Reads(Term(p), Three(x, a, y, '^', z), [x, y, z, "pow", v]);
  }

  /** - x ^ y is -(x ^ y), */
  lemma MinusAPower(x: NameText, y: NameText)
    requires Variable(x) && Variable(y)
    ensures ReadsAs(Next(Op('-'), Named(x, Next(Op('^'), Named(y, End)))), [x, y, "pow", "neg"])
  {
    var ts := Named(x, Next(Op('^'), Named(y, End)));
    var raised := Unsigned(RaisedTo(x, AsUnary(y)));
    RaisedWritten(x, AsUnary(y), End, DEPTH_MAX - 2);
    UnaryWritten(y, End);
    NameFits(y, DEPTH_MAX - 2);
    assert UnaryOk(raised, DEPTH_MAX - 1) && WriteUnary(raised, End) == ts && PostUnary(raised) == [x, y, "pow"];
    assert WriteUnary(Minus(raised), End) == Next(Op('-'), ts) && PostUnary(Minus(raised)) == [x, y, "pow"] + ["neg"];
    LoneUnary(Minus(raised), End);
    NamedScans(y, End);
    SignScans('^', Named(y, End));
    NamedScans(x, Next(Op('^'), Named(y, End)));
    SignScans('-', ts);
    Reads(Term(Factor(Minus(raised))), Next(Op('-'), ts), [x, y, "pow", "neg"]);
  }

  /** and x ^ - y is x ^ (-y). */
  lemma PowerOfMinus(x: NameText, y: NameText)
    requires Variable(x) && Variable(y)
    ensures ReadsAs(Named(x, Next(Op('^'), Next(Op('-'), Named(y, End)))), [x, y, "neg", "pow"])
  {
    var behind := Next(Op('^'), Next(Op('-'), Named(y, End)));
    var signed := Minus(AsUnary(y));
    UnaryWritten(y, End);
    NameFits(y, DEPTH_MAX - 2);
    assert UnaryOk(signed, DEPTH_MAX - 1) && WriteUnary(signed, End) == Next(Op('-'), Named(y, End));
    assert PostUnary(signed) == [y] + ["neg"];
    RaisedWritten(x, signed, End, DEPTH_MAX - 1);
    LonePower(RaisedTo(x, signed), End);
    NamedScans(y, End);
    SignScans('-', Named(y, End));
    SignScans('^', Next(Op('-'), Named(y, End)));
    NamedScans(x, behind);
    assert [x] + ([y] + ["neg"]) + ["pow"] == [x, y, "neg", "pow"];
    Reads(Term(Factor(Unsigned(RaisedTo(x, signed)))), Named(x, behind), [x, y, "neg", "pow"]);
  }

  // ------------------------------------------------ side by side, brackets and calls

  /** x / y z is (x / y) * z. */
  lemma SideBySide(x: NameText, y: NameText, z: NameText, a: char, v: string)
    requires Variable(x) && Variable(y) && Variable(z) && ProductSign(a, v)
    ensures ReadsAs(Named(x, Next(Op(a), Named(y, Named(z, End)))), [x, y, v, z, "*"])
  {
    var behind := Next(Op(a), Named(y, Named(z, End)));
    var left := MultipliedWritten(AsProduct(x), AsUnary(y), a, v, Named(z, End));
    ProductWritten(x, behind);
    UnaryWritten(y, Named(z, End));
    PowerWritten(z, End);
    PowerFits(z, DEPTH_MAX);
    NameFits(x, DEPTH_MAX);
    NameFits(y, DEPTH_MAX);
    var p := Beside(left, AsPower(z));
    assert WriteProduct(p, End) == WriteProduct(left, Named(z, End)) && ProductOk(p, DEPTH_MAX);
    assert PostProduct(p) == [x, y, v] + [z] + ["*"];
    NamedScans(z, End);
    NamedScans(y, Named(z, End));
    SignScans(a, Named(y, Named(z, End)));
    NamedScans(x, behind);
    Reads(Term(p), Named(x, behind), [x, y, v, z, "*"]);
  }

  /** ( x + y ) * z */
  lemma Brackets(x: NameText, y: NameText, z: NameText, a: char, v: string, b: char, w: string)
    requires Variable(x) && Variable(y) && Variable(z) && SumSign(a, v) && ProductSign(b, w)
    ensures var tail := Next(Op(')'), Next(Op(b), Named(z, End)));
            ReadsAs(Next(Op('('), Named(x, Next(Op(a), Named(y, tail)))), [x, y, v, z, w])
  {
    var last := Next(Op(b), Named(z, End));
    var tail := Next(Op(')'), last);
    var ts := Next(Op('('), Named(x, Next(Op(a), Named(y, tail))));
    var inner := BracketInner(x, y, a, v, tail);
    var u := BracketWritten(inner, last, ts, [x, y, v]);
    var p := MultipliedWritten(Factor(u), AsUnary(z), b, w, End);
    UnaryWritten(z, End);
    NameFits(z, DEPTH_MAX);
    assert WriteProduct(Factor(u), last) == ts && PostProduct(Factor(u)) == [x, y, v];
    assert ProductOk(Factor(u), DEPTH_MAX);
    NamedScans(z, End);
    SignScans(b, Named(z, End));
    SignScans(')', last);
    NamedScans(y, tail);
    SignScans(a, Named(y, tail));
    NamedScans(x, Next(Op(a), Named(y, tail)));
    SignScans('(', Named(x, Next(Op(a), Named(y, tail))));
    assert [x, y, v] + [z] + [w] == [x, y, v, z, w];
    Reads(Term(p), ts, [x, y, v, z, w]);
  }

  lemma BracketInner(x: NameText, y: NameText, a: char, v: string, rest: Tokens) returns (inner: Sum)
    requires Variable(x) && Variable(y) && SumSign(a, v)
    ensures WriteSum(inner, rest) == Named(x, Next(Op(a), Named(y, rest))) && PostSum(inner) == [x, y, v]
    ensures SumOk(inner, DEPTH_MAX - 2)
  {
    inner := if a == '+' then Add(AsSum(x), AsProduct(y)) else Subtract(AsSum(x), AsProduct(y));
    SumWritten(x, Next(Op(a), Named(y, rest)));
    ProductWritten(y, rest);
    NameFits(x, DEPTH_MAX - 2);
    NameFits(y, DEPTH_MAX - 2);
    assert [x] + [y] + [v] == [x, y, v];
  }

  lemma BracketWritten(inner: Sum, rest: Tokens, ts: Tokens, words: seq<string>) returns (u: Unary)
    requires SumOk(inner, DEPTH_MAX - 2) && PostSum(inner) == words
    requires ts == Next(Op('('), WriteSum(inner, Next(Op(')'), rest)))
    ensures WriteUnary(u, rest) == ts && PostUnary(u) == words && UnaryOk(u, DEPTH_MAX)
  {
    u := PrimaryWritten(Bracket(inner), rest, ts, words);
  }

  lemma PrimaryWritten(b: Primary, rest: Tokens, ts: Tokens, words: seq<string>) returns (u: Unary)
    requires PrimaryOk(b, DEPTH_MAX - 1) && PostPrimary(b) == words && WritePrimary(b, rest) == ts
    ensures WriteUnary(u, rest) == ts && PostUnary(u) == words && UnaryOk(u, DEPTH_MAX)
  {
    var p := Postfixed(b, []);
    assert WritePosts([], rest) == rest && WritePostfixed(p, rest) == ts;
    assert PostPostfixed(p) == words + [] == words && PostfixedOk(p, DEPTH_MAX - 1);
    assert WritePower(Plain(p), rest) == ts && PostPower(Plain(p)) == words && PowerOk(Plain(p), DEPTH_MAX - 1);
    u := Unsigned(Plain(p));
  }

  /** f ( x , y ) */
  lemma CallOfTwo(f: NameText, x: NameText, y: NameText)
    requires IsShortName(f) && Variable(x) && Variable(y)
    ensures var args := Named(x, Next(Op(','), Named(y, Next(Op(')'), End))));
            ReadsAs(Next(Name(f, true), Next(Op('('), args)), [x, y, f])
  {
    var close := Next(Op(')'), End);
    var args := Named(x, Next(Op(','), Named(y, close)));
    var ts := Next(Name(f, true), Next(Op('('), args));
    var second := More(AsSum(y), NoMore);
    var both := More(AsSum(x), second);
    SumWritten(x, Next(Op(','), Named(y, close)));
    SumWritten(y, close);
    NameFits(x, DEPTH_MAX - 1);
    NameFits(y, DEPTH_MAX - 1);
    assert WriteSums(second, close) == Named(y, close) && PostSums(NoMore) == [] && PostSums(second) == [y] + [];
    assert WriteSums(both, close) == args && PostSums(both) == [x] + [y];
    assert SumsOk(NoMore, DEPTH_MAX - 1) && SumsOk(second, DEPTH_MAX - 1) && SumsOk(both, DEPTH_MAX - 1);
    assert PostPrimary(Call(f, both)) == [x] + [y] + [f] == [x, y, f];
    var u := PrimaryWritten(Call(f, both), End, ts, [x, y, f]);
    LoneUnary(u, End);
    SignScans(')', End);
    NamedScans(y, close);
    SignScans(',', Named(y, close));
    NamedScans(x, Next(Op(','), Named(y, close)));
    SignScans('(', args);
    assert Scanner.Scannable(ts);
    Reads(Term(Factor(u)), ts, [x, y, f]);
  }

  /** x ! ^ y is (x!) ^ y: what comes after a value is applied to it first. */
  lemma FactorialFirst(x: NameText, y: NameText)
    requires Variable(x) && Variable(y)
    ensures ReadsAs(Named(x, Next(Op('!'), Next(Op('^'), Named(y, End)))), [x, "fac", y, "pow"])
  {
    var last := Next(Op('^'), Named(y, End));
    var ts := Named(x, Next(Op('!'), last));
    var p := Postfixed(Bare(x), [Bang]);
    assert [Bang][1..] == [] && [Bang][..0] == [] && WritePosts([], last) == last;
    assert WritePosts([Bang], last) == Next(Op('!'), last) && WritePostfixed(p, last) == ts;
    assert PostWords([]) == [] && PostWords([Bang]) == [] + ["fac"] && PostPostfixed(p) == [x] + ["fac"];
    UnaryWritten(y, End);
    NameFits(y, DEPTH_MAX - 1);
    var raised := Raised(p, AsUnary(y));
    assert PostfixedOk(p, DEPTH_MAX - 1) && PowerOk(raised, DEPTH_MAX - 1);
    LonePower(raised, End);
    NamedScans(y, End);
    SignScans('^', Named(y, End));
    SignScans('!', last);
    NamedScans(x, Next(Op('!'), last));
    assert [x] + ["fac"] + [y] + ["pow"] == [x, "fac", y, "pow"];
    Reads(Term(Factor(Unsigned(raised))), ts, [x, "fac", y, "pow"]);
  }

  /** f x ^ y * z is f(x ^ y) * z: a function without brackets takes the power after it and no more. */
  lemma FunctionTakesThePower(f: NameText, x: NameText, y: NameText, z: NameText, a: char, v: string)
    requires IsShortName(f) && !StandsAlone(f) && AppliesBare(f) && Scanner.OperatorOf(f) == NUL && !IsPostfixWord(f)
    requires Variable(x) && Variable(y) && Variable(z) && ProductSign(a, v)
    ensures ReadsAs(Named(f, Three(x, '^', y, a, z)), [x, y, "pow", f, z, v])
  {
    var last := Next(Op(a), Named(z, End));
    var ts := Named(x, Next(Op('^'), Named(y, last)));
    var raised := Unsigned(RaisedTo(x, AsUnary(y)));
    RaisedWritten(x, AsUnary(y), last, DEPTH_MAX - 2);
    UnaryWritten(y, last);
    NameFits(y, DEPTH_MAX - 2);
    assert UnaryOk(raised, DEPTH_MAX - 1) && WriteUnary(raised, last) == ts && PostUnary(raised) == [x, y, "pow"];
    var words := [x, y, "pow", f];
    assert PostPrimary(Of(f, raised)) == [x, y, "pow"] + [f] == words;
    assert WritePrimary(Of(f, raised), last) == Named(f, ts);
    var u := PrimaryWritten(Of(f, raised), last, Named(f, ts), words);
    var p := MultipliedWritten(Factor(u), AsUnary(z), a, v, End);
    UnaryWritten(z, End);
    NameFits(z, DEPTH_MAX);
    assert WriteProduct(Factor(u), last) == Named(f, ts) && PostProduct(Factor(u)) == words
           && ProductOk(Factor(u), DEPTH_MAX);
    ThreeScan(x, '^', y, a, z);
    assert Scanner.Scannable(Named(f, ts));
    assert words + [z] + [v] == [x, y, "pow", f, z, v];
    Reads(Term(p), Named(f, ts), [x, y, "pow", f, z, v]);
  }

  /** 2 x is 2 * x. */
  lemma NumberBeside(n: NumeralText, x: NameText)
    requires IsShortNumber(n) && Variable(x)
    ensures ReadsAs(Next(Number(n), Named(x, End)), [FloatText(n), x, "*"])
  {
    var ts := Next(Number(n), Named(x, End));
    var u := PrimaryWritten(Literal(n), Named(x, End), ts, [FloatText(n)]);
    PowerWritten(x, End);
    PowerFits(x, DEPTH_MAX);
    var p := Beside(Factor(u), AsPower(x));
    assert WriteProduct(Factor(u), Named(x, End)) == ts && PostProduct(Factor(u)) == [FloatText(n)];
    assert ProductOk(Factor(u), DEPTH_MAX) && ProductOk(p, DEPTH_MAX);
    assert PostProduct(p) == [FloatText(n)] + [x] + ["*"];
    NamedScans(x, End);
    assert Scanner.Scannable(ts);
    Reads(Term(p), ts, [FloatText(n), x, "*"]);
  }
}
