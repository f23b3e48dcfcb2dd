/** When the count of a formula's words is the number of values the translator reports: what each call
    in the formula leaves over and above the one value it stands for. */
module Surplus {
  import opened Basics
  import opened Text
  import opened Numeral
  import opened Formula
  import opened Words
  import opened Rpn
  import opened Compiler
  import opened Translator
  import Formulas
  import Grammar
  import Scanner

  /** What a word leaves, less what it takes. */
  function Net(word: string): int {
    if IsNumber(word) then 1
    else
      var e := EffectOf(word);
      if e.None? then 0 else e.value.leaves - e.value.takes
  }

  function NetAll(words: seq<string>): int {
    if words == [] then 0 else Net(words[0]) + NetAll(words[1..])
  }

  lemma {:induction false} NetBoth(a: seq<string>, b: seq<string>)
    ensures NetAll(a + b) == NetAll(a) + NetAll(b)
  {
    if a == [] {
      assert a + b == b;
    } else {
      assert (a + b)[1..] == a[1..] + b;
      NetBoth(a[1..], b);
    }
  }

  lemma NetOne(word: string)
    ensures NetAll([word]) == Net(word)
  {
    assert [word][1..] == [];
  }

  lemma NetThen(a: seq<string>, word: string)
    ensures NetAll(a + [word]) == NetAll(a) + Net(word)
  {
    NetBoth(a, [word]);
    NetOne(word);
  }

  lemma {:induction false} CountIsNet(words: seq<string>, depth: nat)
    requires AllKnown(words)
    ensures CountFrom(words, depth) == NOT || CountFrom(words, depth) == depth + NetAll(words)
    decreases |words|
  {
    if words != [] {
      assert AllKnown(words[1..]);
      if IsNumber(words[0]) {
        CountIsNet(words[1..], depth + 1);
      } else if depth >= EffectOf(words[0]).value.takes {
        CountIsNet(words[1..], depth + EffectOf(words[0]).value.leaves - EffectOf(words[0]).value.takes);
      }
    }
  }

  // --------------------------------------------------- call by call, in order

  /** What a call given so many arguments leaves over and above one value. */
  function Extra(name: NameText, given: nat): int {
    var e := EffectOf(name);
    given + (if e.None? then 0 else e.value.leaves - e.value.takes) - 1
  }

  function ExtrasPrimary(p: Primary): seq<int> {
    match p
    case Literal(_) => []
    case Bracket(inner) => ExtrasSum(inner)
    case Call(name, args) => ExtrasSums(args) + [Extra(name, Count(args))]
    case Bare(name) => [Extra(name, 0)]
    case Of(name, arg) => ExtrasUnary(arg) + [Extra(name, 1)]
  }

  function ExtrasPower(p: Power): seq<int> {
    match p
    case Plain(base) => ExtrasPrimary(base.base)
    case Raised(base, exponent) => ExtrasPrimary(base.base) + ExtrasUnary(exponent)
  }

  function ExtrasUnary(u: Unary): seq<int> {
    match u
    case Minus(arg) => ExtrasUnary(arg)
    case Plus(arg) => ExtrasUnary(arg)
    case Unsigned(power) => ExtrasPower(power)
  }

  function ExtrasProduct(p: Product): seq<int> {
    match p
    case Factor(first) => ExtrasUnary(first)
    case Times(left, right) => ExtrasProduct(left) + ExtrasUnary(right)
    case Over(left, right) => ExtrasProduct(left) + ExtrasUnary(right)
    case Beside(left, next) => ExtrasProduct(left) + ExtrasPower(next)
  }

  function ExtrasSum(s: Sum): seq<int> {
    match s
    case Term(first) => ExtrasProduct(first)
    case Add(left, right) => ExtrasSum(left) + ExtrasProduct(right)
    case Subtract(left, right) => ExtrasSum(left) + ExtrasProduct(right)
  }

  function ExtrasSums(s: Sums): seq<int> {
    match s
    case NoMore => []
    case More(head, tail) => ExtrasSum(head) + ExtrasSums(tail)
  }

  function Total(extras: seq<int>): int {
    if extras == [] then 0 else extras[0] + Total(extras[1..])
  }

  /** What all the calls of a formula leave over and above what the translator takes them to. */
  function SurplusOf(tree: Sums): int {
    Total(ExtrasSums(tree))
  }

  lemma {:induction false} TotalBoth(a: seq<int>, b: seq<int>)
    ensures Total(a + b) == Total(a) + Total(b)
  {
    if a == [] {
      assert a + b == b;
    } else {
      assert (a + b)[1..] == a[1..] + b;
      TotalBoth(a[1..], b);
    }
  }

  lemma TotalThen(a: seq<int>, x: int)
    ensures Total(a + [x]) == Total(a) + x
  {
    TotalBoth(a, [x]);
    assert [x][1..] == [];
  }

  lemma {:induction false} AllNought(extras: seq<int>)
    requires forall i :: 0 <= i < |extras| ==> extras[i] == 0
    ensures Total(extras) == 0
  {
    if extras != [] { AllNought(extras[1..]); }
  }

  lemma OnlyOne(extras: seq<int>, k: nat)
    requires k < |extras| && forall i :: 0 <= i < |extras| && i != k ==> extras[i] == 0
    ensures Total(extras) == extras[k]
  {
    AllNought(extras[..k]);
    AllNought(extras[k + 1..]);
    assert extras[k..] == [extras[k]] + extras[k + 1..];
    assert extras[k..][1..] == extras[k + 1..];
    TotalBoth(extras[..k], extras[k..]);
    assert extras[..k] + extras[k..] == extras;
  }

  // ---------------------------------------- a tree's words and a tree's calls

  lemma NetName(name: NameText, given: nat)
    ensures Net(name) == Extra(name, given) + 1 - given
  {
    NameIsNoNumber(name);
  }

  lemma NetLiteral(numeral: NumeralText)
    requires IsShortNumber(numeral)
    ensures NetAll([FloatText(numeral)]) == 1
  {
    NumeralParts(numeral);
    FloatIsNumber(PartsAt(numeral, 0));
    NetOne(FloatText(numeral));
  }

  /** A word that does not begin the way a number does is none. */
  lemma NetWord(word: string, takes: nat, leaves: nat)
    requires EffectOf(word) == Some(Effect(takes, leaves))
    requires word == "-" || (word != "" && word[0] != '-' && word[0] != '.' && !IsDigit(word[0]))
    ensures Net(word) == leaves - takes
  {
  }

  lemma NetPlus()
    ensures Net("+") == -1
  {
    EffectPlus();
    NetWord("+", 2, 1);
  }

  lemma NetMinusSign()
    ensures Net("-") == -1
  {
    EffectMinusSign();
    NetWord("-", 2, 1);
  }

  lemma NetTimes()
    ensures Net("*") == -1
  {
    EffectTimes();
    NetWord("*", 2, 1);
  }

  lemma NetFunctions()
    ensures Net("divide") == Net("pow") == -1 && Net("neg") == 0
  {
    EffectDivide();
    EffectPow();
    EffectNeg();
    NetWord("divide", 2, 1);
    NetWord("pow", 2, 1);
    NetWord("neg", 1, 1);
  }

  lemma NetFac()
    ensures Net("fac") == 0
  {
    EffectFac();
    NetWord("fac", 1, 1);
  }

  lemma NetSq()
    ensures Net("sq") == 0
  {
    EffectSq();
    NetWord("sq", 1, 1);
  }

  lemma NetCb()
    ensures Net("cb") == 0
  {
    EffectCb();
    NetWord("cb", 1, 1);
  }

  lemma NetInv()
    ensures Net("inv") == 0
  {
    EffectInv();
    NetWord("inv", 1, 1);
  }

  lemma NetPostfix(p: Postfix)
    requires p.Word? ==> IsPostfixWord(p.word)
    ensures Net(PostWord(p)) == 0
  {
    NetFac();
    NetSq();
    NetCb();
    NetInv();
  }

  lemma {:induction false} NetPosts(posts: seq<Postfix>)
    requires forall i :: 0 <= i < |posts| ==> posts[i].Word? ==> IsPostfixWord(posts[i].word)
    ensures NetAll(PostWords(posts)) == 0
    decreases |posts|
  {
    if posts != [] {
      var front, last := posts[..|posts| - 1], posts[|posts| - 1];
      NetPosts(front);
      NetPostfix(last);
      NetThen(PostWords(front), PostWord(last));
    }
  }

  lemma {:induction false} NetOfPrimary(p: Primary, room: nat)
    requires PrimaryOk(p, room)
    ensures NetAll(PostPrimary(p)) == 1 + Total(ExtrasPrimary(p))
    decreases p, 0
  {
    match p
    case Literal(numeral) => NetLiteral(numeral);
    case Bracket(inner) => NetOfSum(inner, room - 1);
    case Call(name, args) =>
      NetOfSums(args, room);
      NetName(name, Count(args));
      NetThen(PostSums(args), name);
      TotalThen(ExtrasSums(args), Extra(name, Count(args)));
    case Bare(name) =>
      NetName(name, 0);
      NetOne(name);
      TotalThen([], Extra(name, 0));
      assert [] + [Extra(name, 0)] == [Extra(name, 0)];
    case Of(name, arg) =>
      NetOfUnary(arg, room);
      NetName(name, 1);
      NetThen(PostUnary(arg), name);
      TotalThen(ExtrasUnary(arg), Extra(name, 1));
  }

  lemma {:induction false} NetOfPostfixed(p: Postfixed, room: nat)
    requires PostfixedOk(p, room)
    ensures NetAll(PostPostfixed(p)) == 1 + Total(ExtrasPrimary(p.base))
    decreases p, 1
  {
    NetOfPrimary(p.base, room);
    NetPosts(p.posts);
    NetBoth(PostPrimary(p.base), PostWords(p.posts));
  }

  /** Two trees and the word that joins them. */
  lemma NetBinary(a: seq<string>, b: seq<string>, w: string, x: seq<int>, y: seq<int>)
    requires NetAll(a) == 1 + Total(x) && NetAll(b) == 1 + Total(y) && Net(w) == -1
    ensures NetAll(a + b + [w]) == 1 + Total(x + y)
  {
    NetBoth(a, b);
    NetThen(a + b, w);
    TotalBoth(x, y);
  }

  lemma {:induction false} NetOfPower(p: Power, room: nat)
    requires PowerOk(p, room)
    ensures NetAll(PostPower(p)) == 1 + Total(ExtrasPower(p))
    decreases p, 2
  {
    NetOfPostfixed(p.base, room);
    if p.Raised? {
      NetOfUnary(p.exponent, room);
      NetFunctions();
      NetBinary(PostPostfixed(p.base), PostUnary(p.exponent), "pow",
                ExtrasPrimary(p.base.base), ExtrasUnary(p.exponent));
    }
  }

  lemma {:induction false} NetOfUnary(u: Unary, room: nat)
    requires UnaryOk(u, room)
    ensures NetAll(PostUnary(u)) == 1 + Total(ExtrasUnary(u))
    decreases u, 3
  {
    match u
    case Minus(arg) =>
      NetOfUnary(arg, room - 1);
      NetFunctions();
      NetThen(PostUnary(arg), "neg");
    case Plus(arg) => NetOfUnary(arg, room - 1);
    case Unsigned(power) => NetOfPower(power, room - 1);
  }

  lemma {:induction false} NetOfProduct(p: Product, room: nat)
    requires ProductOk(p, room)
    ensures NetAll(PostProduct(p)) == 1 + Total(ExtrasProduct(p))
    decreases p, 4
  {
    match p
    case Factor(first) => NetOfUnary(first, room);
    case Times(left, right) =>
      NetOfProduct(left, room);
      NetOfUnary(right, room);
      NetTimes();
      NetBinary(PostProduct(left), PostUnary(right), "*", ExtrasProduct(left), ExtrasUnary(right));
    case Over(left, right) =>
      NetOfProduct(left, room);
      NetOfUnary(right, room);
      NetFunctions();
      NetBinary(PostProduct(left), PostUnary(right), "divide", ExtrasProduct(left), ExtrasUnary(right));
    case Beside(left, next) =>
      NetOfProduct(left, room);
      NetOfPower(next, room);
      NetTimes();
      NetBinary(PostProduct(left), PostPower(next), "*", ExtrasProduct(left), ExtrasPower(next));
  }

  lemma {:induction false} NetOfSum(s: Sum, room: nat)
    requires SumOk(s, room)
    ensures NetAll(PostSum(s)) == 1 + Total(ExtrasSum(s))
    decreases s, 5
  {
    match s
    case Term(first) => NetOfProduct(first, room);
    case Add(left, right) =>
      NetOfSum(left, room);
      NetOfProduct(right, room);
      NetPlus();
      NetBinary(PostSum(left), PostProduct(right), "+", ExtrasSum(left), ExtrasProduct(right));
    case Subtract(left, right) =>
      NetOfSum(left, room);
      NetOfProduct(right, room);
      NetMinusSign();
      NetBinary(PostSum(left), PostProduct(right), "-", ExtrasSum(left), ExtrasProduct(right));
  }

  lemma {:induction false} NetOfSums(s: Sums, room: nat)
    requires SumsOk(s, room)
    ensures NetAll(PostSums(s)) == Count(s) + Total(ExtrasSums(s))
    decreases s, 6
  {
    if s.More? {
      NetOfSum(s.head, room);
      NetOfSums(s.tail, room);
      NetBoth(PostSum(s.head), PostSums(s.tail));
      TotalBoth(ExtrasSum(s.head), ExtrasSums(s.tail));
    }
  }

  // ------------------------------------------------------- when they agree

  /** On known words the count is what is reported and the surplus, or it is refused. */
  lemma CountIsReportedAndSurplus(text: string, cap: nat, body: string)
    requires IsFormula(text, cap) && Split(body) == PostSums(Reading(text).tree) && AllKnown(Split(body))
    ensures var tree := Reading(text).tree;
            Results(body) == NOT || Results(body) == Count(tree) + SurplusOf(tree)
  {
    Grammar.SumsWritten(Scanner.Scan(text, 0), DEPTH_MAX);
    NetOfSums(Reading(text).tree, DEPTH_MAX);
    CountIsNet(Split(body), 0);
  }

  /** The count agrees with what the translator reports exactly where the words can be run on an empty
      stack and the calls between them leave nothing over. */
  lemma CountAgreesWhereItRuns(text: string, cap: nat, body: string, m: Machine)
    requires IsFormula(text, cap) && Split(body) == PostSums(Reading(text).tree) && AllKnown(Split(body))
    requires m.Valid()
    ensures var tree := Reading(text).tree;
            Results(body) == Count(tree) <==> m.Run(Split(body), []).Some? && SurplusOf(tree) == 0
  {
    CountIsReportedAndSurplus(text, cap, body);
    CountIsWhatRunningLeaves(m, Split(body), []);
  }

  /** One call alone with something over, and they disagree. */
  lemma OneWrongDisagrees(text: string, cap: nat, body: string, k: nat)
    requires IsFormula(text, cap) && Split(body) == PostSums(Reading(text).tree) && AllKnown(Split(body))
    requires var extras := ExtrasSums(Reading(text).tree);
             && k < |extras| && extras[k] != 0
             && forall i :: 0 <= i < |extras| && i != k ==> extras[i] == 0
    ensures Results(body) != Count(Reading(text).tree)
  {
    CountIsReportedAndSurplus(text, cap, body);
    OnlyOne(ExtrasSums(Reading(text).tree), k);
  }

  // ------------------------------------------ one call wrong, and two of them

  function Lone(p: Primary): Sum {
    Term(Factor(Unsigned(Plain(Postfixed(p, [])))))
  }

  lemma LonePosts(p: Primary)
    ensures PostSum(Lone(p)) == PostPrimary(p) && ExtrasSum(Lone(p)) == ExtrasPrimary(p)
  {
    var q := Postfixed(p, []);
    var u := Unsigned(Plain(q));
    assert PostPostfixed(q) == PostPrimary(p) + [];
    assert PostUnary(u) == PostPower(Plain(q)) == PostPostfixed(q);
    assert PostSum(Term(Factor(u))) == PostProduct(Factor(u)) == PostUnary(u);
    assert ExtrasUnary(u) == ExtrasPower(Plain(q)) == ExtrasPrimary(p);
    assert ExtrasSum(Term(Factor(u))) == ExtrasProduct(Factor(u)) == ExtrasUnary(u);
  }

  lemma LoneOk(p: Primary, room: nat)
    requires room > 0 && PrimaryOk(p, room - 1) && !p.Of?
    ensures SumOk(Lone(p), room)
  {
    var u := Unsigned(Plain(Postfixed(p, [])));
    assert UnaryOk(u, room);
    assert ProductOk(Factor(u), room);
  }

  lemma LoneWritten(p: Primary, rest: Tokens)
    ensures WriteSum(Lone(p), rest) == WritePrimary(p, rest)
  {
    var q := Postfixed(p, []);
    assert WritePostfixed(q, rest) == WritePrimary(p, rest);
    assert WriteUnary(Unsigned(Plain(q)), rest) == WritePower(Plain(q), rest) == WritePostfixed(q, rest);
    assert WriteProduct(Factor(Unsigned(Plain(q))), rest) == WriteUnary(Unsigned(Plain(q)), rest);
  }

  /** A word called with one number in its brackets. */
  function CallOne(name: NameText, numeral: NumeralText): Sum {
    Lone(Call(name, More(Lone(Literal(numeral)), NoMore)))
  }

  /** A word called with three. */
  function CallThree(name: NameText, numeral: NumeralText): Sum {
    var one := Lone(Literal(numeral));
    Lone(Call(name, More(one, More(one, More(one, NoMore)))))
  }

  lemma ArgumentScans(numeral: NumeralText, op: char, rest: Tokens)
    requires Scanner.Scannable(rest) && (op == ')' || op == ',')
    ensures Scanner.Scannable(Next(Number(numeral), Next(Op(op), rest)))
  {
    assert Scanner.Scannable(Next(Op(op), rest));
  }

  lemma CallScans(name: NameText, args: Tokens)
    requires Scanner.Scannable(args)
    ensures Scanner.Scannable(Next(Name(name, true), Next(Op('('), args)))
  {
    assert Scanner.Scannable(Next(Op('('), args));
  }

  lemma CallOneWritten(name: NameText, numeral: NumeralText, rest: Tokens)
    ensures WriteSum(CallOne(name, numeral), rest)
            == Next(Name(name, true), Next(Op('('), Next(Number(numeral), Next(Op(')'), rest))))
    ensures Scanner.Scannable(rest) ==> Scanner.Scannable(WriteSum(CallOne(name, numeral), rest))
  {
    var args := More(Lone(Literal(numeral)), NoMore);
    LoneWritten(Literal(numeral), Next(Op(')'), rest));
    LoneWritten(Call(name, args), rest);
    if Scanner.Scannable(rest) {
      ArgumentScans(numeral, ')', rest);
      CallScans(name, Next(Number(numeral), Next(Op(')'), rest)));
    }
  }

  lemma ArgumentIs(numeral: NumeralText)
    requires IsShortNumber(numeral)
    ensures var args := More(Lone(Literal(numeral)), NoMore);
            && SumsOk(args, DEPTH_MAX - 1) && PostSums(args) == [FloatText(numeral)]
            && ExtrasSums(args) == [] && Count(args) == 1
  {
    var one := Literal(numeral);
    LoneOk(one, DEPTH_MAX - 1);
    LonePosts(one);
    assert SumsOk(NoMore, DEPTH_MAX - 1) && PostSums(NoMore) == [] && ExtrasSums(NoMore) == [] && Count(NoMore) == 0;
    assert ExtrasSum(Lone(one)) == ExtrasPrimary(one) == [];
  }

  lemma CallOneIs(name: NameText, numeral: NumeralText)
    requires IsShortName(name) && IsShortNumber(numeral)
    ensures SumOk(CallOne(name, numeral), DEPTH_MAX)
    ensures PostSum(CallOne(name, numeral)) == [FloatText(numeral), name]
    ensures ExtrasSum(CallOne(name, numeral)) == [Extra(name, 1)]
  {
    var args := More(Lone(Literal(numeral)), NoMore);
    ArgumentIs(numeral);
    LoneOk(Call(name, args), DEPTH_MAX);
    LonePosts(Call(name, args));
  }

  lemma ThreeScan(name: NameText, numeral: NumeralText, rest: Tokens)
    requires Scanner.Scannable(rest)
    ensures var n := Number(numeral);
            Scanner.Scannable(
              Next(Name(name, true), Next(Op('('),
                Next(n, Next(Op(','), Next(n, Next(Op(','), Next(n, Next(Op(')'), rest)))))))))
  {
    var n := Number(numeral);
    var third := Next(n, Next(Op(')'), rest));
    var second := Next(n, Next(Op(','), third));
    ArgumentScans(numeral, ')', rest);
    ArgumentScans(numeral, ',', third);
    ArgumentScans(numeral, ',', second);
    CallScans(name, Next(n, Next(Op(','), second)));
  }

  lemma CallThreeIs(name: NameText, numeral: NumeralText, rest: Tokens)
    requires IsShortName(name) && IsShortNumber(numeral)
    ensures SumOk(CallThree(name, numeral), DEPTH_MAX)
    ensures PostSum(CallThree(name, numeral)) == [FloatText(numeral), FloatText(numeral), FloatText(numeral), name]
    ensures ExtrasSum(CallThree(name, numeral)) == [Extra(name, 3)]
    ensures var n := Number(numeral);
            WriteSum(CallThree(name, numeral), rest)
            == Next(Name(name, true), Next(Op('('),
                 Next(n, Next(Op(','), Next(n, Next(Op(','), Next(n, Next(Op(')'), rest))))))))
    ensures Scanner.Scannable(rest) ==> Scanner.Scannable(WriteSum(CallThree(name, numeral), rest))
  {
    if Scanner.Scannable(rest) {
      ThreeScan(name, numeral, rest);
    }
    assert ExtrasSums(NoMore) == [];
    var one := Literal(numeral);
    var last := More(Lone(one), NoMore);
    var two := More(Lone(one), last);
    var args := More(Lone(one), two);
    LoneOk(one, DEPTH_MAX - 1);
    LonePosts(one);
    assert SumsOk(last, DEPTH_MAX - 1) && SumsOk(two, DEPTH_MAX - 1) && SumsOk(args, DEPTH_MAX - 1);
    assert PostSums(last) == [FloatText(numeral)] && ExtrasSums(last) == [];
    assert PostSums(two) == [FloatText(numeral), FloatText(numeral)] && ExtrasSums(two) == [];
    assert Count(last) == 1 && Count(two) == 2 && Count(args) == 3;
    LoneOk(Call(name, args), DEPTH_MAX);
    LonePosts(Call(name, args));
    LoneWritten(Call(name, args), rest);
    var close := Next(Op(')'), rest);
    LoneWritten(one, close);
    LoneWritten(one, Next(Op(','), WriteSums(last, close)));
    LoneWritten(one, Next(Op(','), WriteSums(two, close)));
  }

  /** One wrong call: a word of two arguments with one number in its brackets is a formula, reported to
      leave one value, and the count of its words is refused. */
  lemma WrongArityDisagrees(name: NameText, numeral: NumeralText)
    requires IsShortName(name) && IsShortNumber(numeral) && EffectOf(name).Some? && EffectOf(name).value.takes == 2
    ensures var tree := More(CallOne(name, numeral), NoMore);
            && Reading(Scanner.Spell(WriteSums(tree, End))) == Done(tree, End)
            && Count(tree) == 1 && CountFrom(PostSums(tree), 0) == NOT
  {
    var tree := More(CallOne(name, numeral), NoMore);
    var words := [FloatText(numeral), name];
    CallOneIs(name, numeral);
    CallOneWritten(name, numeral, End);
    assert SumsOk(tree, DEPTH_MAX);
    assert WriteSums(tree, End) == WriteSum(CallOne(name, numeral), End);
    Formulas.EveryTreeCanBeTyped(tree);
    assert PostSums(tree) == words;
    NetLiteral(numeral);
    RunLiteral(Formulas.TableMachine(), numeral, []);
    NameIsNoNumber(name);
    assert words[1..] == [name];
    assert Count(tree) == 1 + Count(NoMore);
  }

  /** Two wrong calls can make up for one another: with three numbers given to one word of two arguments
      and one to the next, the count is the two values reported. */
  lemma TwoWrongsAgree(f: NameText, g: NameText, numeral: NumeralText)
    requires IsShortName(f) && IsShortName(g) && IsShortNumber(numeral)
    requires EffectOf(f) == Some(Effect(2, 1)) && EffectOf(g) == Some(Effect(2, 1))
    ensures var tree := More(CallThree(f, numeral), More(CallOne(g, numeral), NoMore));
            && Reading(Scanner.Spell(WriteSums(tree, End))) == Done(tree, End)
            && ExtrasSums(tree) == [1, -1]
            && Count(tree) == 2 && CountFrom(PostSums(tree), 0) == 2
  {
    var last := More(CallOne(g, numeral), NoMore);
    var tree := More(CallThree(f, numeral), last);
    CallOneIs(g, numeral);
    CallOneWritten(g, numeral, End);
    assert SumsOk(last, DEPTH_MAX);
    assert WriteSums(last, End) == WriteSum(CallOne(g, numeral), End);
    CallThreeIs(f, numeral, Next(Op(','), WriteSums(last, End)));
    assert SumsOk(tree, DEPTH_MAX);
    assert Scanner.Scannable(Next(Op(','), WriteSums(last, End)));
    Formulas.EveryTreeCanBeTyped(tree);
    TwoWrongsPosts(f, g, numeral);
    CountTwoWrongs(f, g, numeral);
  }

  lemma TwoWrongsPosts(f: NameText, g: NameText, numeral: NumeralText)
    requires EffectOf(f) == Some(Effect(2, 1)) && EffectOf(g) == Some(Effect(2, 1))
    requires IsShortName(f) && IsShortName(g) && IsShortNumber(numeral)
    ensures var tree, n := More(CallThree(f, numeral), More(CallOne(g, numeral), NoMore)), FloatText(numeral);
            && ExtrasSums(tree) == [1, -1] && Count(tree) == 2
            && PostSums(tree) == [n, n, n, f, n, g]
  {
    var last := More(CallOne(g, numeral), NoMore);
    var tree := More(CallThree(f, numeral), last);
    CallOneIs(g, numeral);
    CallThreeIs(f, numeral, End);
    assert ExtrasSums(NoMore) == [];
    assert ExtrasSums(last) == [Extra(g, 1)];
    assert Count(last) == 1 + Count(NoMore) == 1;
    assert Count(tree) == 1 + Count(last);
    var n := FloatText(numeral);
    assert PostSums(last) == [n, g];
  }

  lemma CountTwoWrongs(f: NameText, g: NameText, numeral: NumeralText)
    requires IsShortNumber(numeral)
    requires EffectOf(f) == Some(Effect(2, 1)) && EffectOf(g) == Some(Effect(2, 1))
    ensures var n := FloatText(numeral); CountFrom([n, n, n, f, n, g], 0) == 2
  {
    var n := FloatText(numeral);
    RunLiteral(Formulas.TableMachine(), numeral, []);
    NameIsNoNumber(f);
    NameIsNoNumber(g);
    assert CountFrom([g], 3) == 2 by { assert [g][1..] == []; }
    assert CountFrom([n, g], 2) == 2 by { assert [n, g][1..] == [g]; }
    assert CountFrom([f, n, g], 3) == 2 by { assert [f, n, g][1..] == [n, g]; }
    assert CountFrom([n, f, n, g], 2) == 2 by { assert [n, f, n, g][1..] == [f, n, g]; }
    assert CountFrom([n, n, f, n, g], 1) == 2 by { assert [n, n, f, n, g][1..] == [n, f, n, g]; }
    assert [n, n, n, f, n, g][1..] == [n, n, f, n, g];
  }

  predicate MakesUp(text: string) {
    var r := Reading(text);
    && r.Done? && r.rest == End && ExtrasSums(r.tree) == [1, -1]
    && CountFrom(PostSums(r.tree), 0) == Count(r.tree)
  }

  lemma TwoWrongsMakeUp(f: NameText, g: NameText, numeral: NumeralText)
    requires IsShortName(f) && IsShortName(g) && IsShortNumber(numeral)
    requires EffectOf(f) == Some(Effect(2, 1)) && EffectOf(g) == Some(Effect(2, 1))
    ensures exists text :: MakesUp(text)
  {
    TwoWrongsAgree(f, g, numeral);
    var tree := More(CallThree(f, numeral), More(CallOne(g, numeral), NoMore));
    assert MakesUp(Scanner.Spell(WriteSums(tree, End)));
  }

  lemma PowAndDivideAreNames()
    ensures IsName("pow") && IsName("divide")
  {
    OpenName("pow");
    OpenName("divide");
  }

  lemma OneIsNumeral()
    ensures IsNumeral("1")
  {
    OpenNumeral("1");
  }

  /** There is such a text: pow (1, 1, 1), divide (1). */
  lemma PowAndDivideAgree()
    ensures exists text :: MakesUp(text)
  {
    PowAndDivideAreNames();
    OneIsNumeral();
    EffectPow();
    EffectDivide();
    TwoWrongsMakeUp("pow", "divide", "1");
  }
}
