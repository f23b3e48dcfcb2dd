/** Whether the words of a formula ever run short of values, told from the formula; and so, exactly, when the count of
    its words is the number of values the translator reports. */
module Supply {
  import opened Basics
  import opened Text
  import opened Numeral
  import opened Formula
  import opened Words
  import opened Rpn
  import opened Compiler
  import opened Translator
  import opened Surplus
  import Formulas
  import Grammar
  import Scanner

  /** A word that is known and has what it takes. */
  predicate Has(word: string, depth: int) {
    EffectOf(word).Some? && depth >= EffectOf(word).value.takes
  }

  /** No word runs short. */
  predicate Suffices(words: seq<string>, depth: int) {
    words == [] || ((IsNumber(words[0]) || Has(words[0], depth)) && Suffices(words[1..], depth + Net(words[0])))
  }

  /** Exactly then is there a count, and it is what the words come to. */
  lemma {:induction false} CountedExactly(words: seq<string>, depth: nat)
    ensures CountFrom(words, depth) >= 0 <==> Suffices(words, depth)
    ensures Suffices(words, depth) ==> CountFrom(words, depth) == depth + NetAll(words)
    decreases |words|
  {
    if words != [] && (IsNumber(words[0]) || Has(words[0], depth)) {
      CountedExactly(words[1..], depth + Net(words[0]));
    }
  }

  lemma {:induction false} SufficesBoth(a: seq<string>, b: seq<string>, depth: int)
    ensures Suffices(a + b, depth) <==> Suffices(a, depth) && Suffices(b, depth + NetAll(a))
    decreases |a|
  {
    if a == [] {
      assert a + b == b;
    } else {
      assert (a + b)[1..] == a[1..] + b;
      SufficesBoth(a[1..], b, depth + Net(a[0]));
    }
  }

  lemma SufficesOne(word: string, depth: int)
    ensures Suffices([word], depth) <==> IsNumber(word) || Has(word, depth)
  {
    assert [word][1..] == [];
  }

  lemma SufficesThen(a: seq<string>, word: string, depth: int)
    requires !IsNumber(word)
    ensures Suffices(a + [word], depth) <==> Suffices(a, depth) && Has(word, depth + NetAll(a))
  {
    SufficesBoth(a, [word], depth);
    SufficesOne(word, depth + NetAll(a));
  }

  // -------------------------------------------------------- told from the formula

  /** How many values there are once something worth one has been written, with what its calls leave over. */
  function Then(depth: int, extras: seq<int>): int {
    depth + 1 + Total(extras)
  }

  predicate EnoughPrimary(p: Primary, depth: int) {
    match p
    case Literal(_) => true
    case Bracket(inner) => EnoughSum(inner, depth)
    case Call(name, args) => EnoughSums(args, depth) && Has(name, depth + Count(args) + Total(ExtrasSums(args)))
    case Bare(name) => Has(name, depth)
    case Of(name, arg) => EnoughUnary(arg, depth) && Has(name, Then(depth, ExtrasUnary(arg)))
  }

  /** A postfix word takes one value and leaves one, so the first of them is as good as all. */
  predicate EnoughPostfixed(p: Postfixed, depth: int) {
    EnoughPrimary(p.base, depth) && (p.posts != [] ==> Then(depth, ExtrasPrimary(p.base)) >= 1)
  }

  predicate EnoughPower(p: Power, depth: int) {
    match p
    case Plain(base) => EnoughPostfixed(base, depth)
    case Raised(base, exponent) =>
      var between := Then(depth, ExtrasPrimary(base.base));
      && EnoughPostfixed(base, depth) && EnoughUnary(exponent, between)
      && Then(between, ExtrasUnary(exponent)) >= 2
  }

  predicate EnoughUnary(u: Unary, depth: int) {
    match u
    case Minus(arg) => EnoughUnary(arg, depth) && Then(depth, ExtrasUnary(arg)) >= 1
    case Plus(arg) => EnoughUnary(arg, depth)
    case Unsigned(power) => EnoughPower(power, depth)
  }

  predicate EnoughProduct(p: Product, depth: int) {
    match p
    case Factor(first) => EnoughUnary(first, depth)
    case Times(left, right) =>
      var between := Then(depth, ExtrasProduct(left));
      EnoughProduct(left, depth) && EnoughUnary(right, between) && Then(between, ExtrasUnary(right)) >= 2
    case Over(left, right) =>
      var between := Then(depth, ExtrasProduct(left));
      EnoughProduct(left, depth) && EnoughUnary(right, between) && Then(between, ExtrasUnary(right)) >= 2
    case Beside(left, next) =>
      var between := Then(depth, ExtrasProduct(left));
      EnoughProduct(left, depth) && EnoughPower(next, between) && Then(between, ExtrasPower(next)) >= 2
  }

  predicate EnoughSum(s: Sum, depth: int) {
    match s
    case Term(first) => EnoughProduct(first, depth)
    case Add(left, right) =>
      var between := Then(depth, ExtrasSum(left));
      EnoughSum(left, depth) && EnoughProduct(right, between) && Then(between, ExtrasProduct(right)) >= 2
    case Subtract(left, right) =>
      var between := Then(depth, ExtrasSum(left));
      EnoughSum(left, depth) && EnoughProduct(right, between) && Then(between, ExtrasProduct(right)) >= 2
  }

  /** Every call's word is known, and neither it nor any operator is come to with fewer values than it takes. */
  predicate EnoughSums(s: Sums, depth: int) {
    match s
    case NoMore => true
    case More(head, tail) => EnoughSum(head, depth) && EnoughSums(tail, Then(depth, ExtrasSum(head)))
  }

  // ------------------------------------------------------- the words do as the tree

  /** An operator between two trees. */
  lemma BinarySuffices(a: seq<string>, b: seq<string>, w: string, x: seq<int>, depth: int, y: seq<int>)
    requires NetAll(a) == 1 + Total(x) && NetAll(b) == 1 + Total(y)
    requires !IsNumber(w) && EffectOf(w) == Some(Effect(2, 1))
    ensures Suffices(a + b + [w], depth) <==>
              && Suffices(a, depth) && Suffices(b, Then(depth, x))
              && Then(Then(depth, x), y) >= 2
  {
    assert Suffices(a + b + [w], depth) <==> Suffices(a + b, depth) && Then(Then(depth, x), y) >= 2 by {
      SufficesThen(a + b, w, depth);
      NetBoth(a, b);
    }
    SufficesBoth(a, b, depth);
  }

  lemma PowIsTaken()
    ensures !IsNumber("pow") && EffectOf("pow") == Some(Effect(2, 1))
  {
    EffectPow();
    NotNumber("pow");
  }

  lemma NotNumber(word: string)
    requires word == "-" || (word != "" && word[0] != '-' && word[0] != '.' && !IsDigit(word[0]))
    ensures !IsNumber(word)
  {
  }

  lemma TimesIsTaken()
    ensures !IsNumber("*") && EffectOf("*") == Some(Effect(2, 1))
  {
    EffectTimes();
    NotNumber("*");
  }

  lemma DivideIsTaken()
    ensures !IsNumber("divide") && EffectOf("divide") == Some(Effect(2, 1))
  {
    EffectDivide();
    NotNumber("divide");
  }

  lemma PlusIsTaken()
    ensures !IsNumber("+") && EffectOf("+") == Some(Effect(2, 1))
  {
    EffectPlus();
    NotNumber("+");
  }

  lemma MinusIsTaken()
    ensures !IsNumber("-") && EffectOf("-") == Some(Effect(2, 1))
  {
    EffectMinusSign();
    NotNumber("-");
  }

  lemma NegIsTaken()
    ensures !IsNumber("neg") && EffectOf("neg") == Some(Effect(1, 1))
  {
    EffectNeg();
    NotNumber("neg");
  }

  lemma PostfixIsTaken(p: Postfix)
    requires p.Word? ==> IsPostfixWord(p.word)
    ensures !IsNumber(PostWord(p)) && EffectOf(PostWord(p)) == Some(Effect(1, 1))
  {
    EffectFac();
    EffectSq();
    EffectCb();
    EffectInv();
    NotNumber(PostWord(p));
  }

  lemma {:induction false} PostsSuffice(posts: seq<Postfix>, depth: int)
    requires forall i :: 0 <= i < |posts| ==> posts[i].Word? ==> IsPostfixWord(posts[i].word)
    ensures Suffices(PostWords(posts), depth) <==> posts == [] || depth >= 1
    decreases |posts|
  {
    if posts != [] {
      var front, last := posts[..|posts| - 1], posts[|posts| - 1];
      PostsSuffice(front, depth);
      PostfixIsTaken(last);
      NetPosts(front);
      SufficesThen(PostWords(front), PostWord(last), depth);
    }
  }

  lemma LiteralSuffices(numeral: NumeralText, depth: int)
    requires IsShortNumber(numeral)
    ensures Suffices([FloatText(numeral)], depth)
  {
    NumeralParts(numeral);
    FloatIsNumber(PartsAt(numeral, 0));
    SufficesOne(FloatText(numeral), depth);
  }

  lemma {:induction false} PrimarySuffices(p: Primary, room: nat, depth: int)
    requires PrimaryOk(p, room)
    ensures Suffices(PostPrimary(p), depth) <==> EnoughPrimary(p, depth)
    decreases p, 0
  {
    match p
    case Literal(numeral) => LiteralSuffices(numeral, depth);
    case Bracket(inner) => SumSuffices(inner, room - 1, depth);
    case Call(name, args) =>
      SumsSuffice(args, room, depth);
      NameIsNoNumber(name);
      NetOfSums(args, room);
      SufficesThen(PostSums(args), name, depth);
    case Bare(name) =>
      NameIsNoNumber(name);
      SufficesOne(name, depth);
    case Of(name, arg) =>
      UnarySuffices(arg, room, depth);
      NameIsNoNumber(name);
      NetOfUnary(arg, room);
      SufficesThen(PostUnary(arg), name, depth);
  }

  lemma {:induction false} PostfixedSuffices(p: Postfixed, room: nat, depth: int)
    requires PostfixedOk(p, room)
    ensures Suffices(PostPostfixed(p), depth) <==> EnoughPostfixed(p, depth)
    decreases p, 1
  {
    PrimarySuffices(p.base, room, depth);
    NetOfPrimary(p.base, room);
    SufficesBoth(PostPrimary(p.base), PostWords(p.posts), depth);
    PostsSuffice(p.posts, Then(depth, ExtrasPrimary(p.base)));
  }

  lemma {:induction false} PowerSuffices(p: Power, room: nat, depth: int)
    requires PowerOk(p, room)
    ensures Suffices(PostPower(p), depth) <==> EnoughPower(p, depth)
    decreases p, 2
  {
    PostfixedSuffices(p.base, room, depth);
    if p.Raised? {
      var x := ExtrasPrimary(p.base.base);
      UnarySuffices(p.exponent, room, Then(depth, x));
      NetOfPostfixed(p.base, room);
      NetOfUnary(p.exponent, room);
      PowIsTaken();
      BinarySuffices(PostPostfixed(p.base), PostUnary(p.exponent), "pow", x, depth, ExtrasUnary(p.exponent));
    }
  }

  lemma NegSuffices(a: seq<string>, x: seq<int>, depth: int)
    requires NetAll(a) == 1 + Total(x)
    ensures Suffices(a + ["neg"], depth) <==> Suffices(a, depth) && Then(depth, x) >= 1
  {
    NegIsTaken();
    SufficesThen(a, "neg", depth);
  }

  lemma {:induction false} UnarySuffices(u: Unary, room: nat, depth: int)
    requires UnaryOk(u, room)
    ensures Suffices(PostUnary(u), depth) <==> EnoughUnary(u, depth)
    decreases u, 3
  {
    match u
    case Minus(arg) =>
      UnarySuffices(arg, room - 1, depth);
      NetOfUnary(arg, room - 1);
      NegSuffices(PostUnary(arg), ExtrasUnary(arg), depth);
    case Plus(arg) => UnarySuffices(arg, room - 1, depth);
    case Unsigned(power) => PowerSuffices(power, room - 1, depth);
  }

  lemma {:induction false} ProductSuffices(p: Product, room: nat, depth: int)
    requires ProductOk(p, room)
    ensures Suffices(PostProduct(p), depth) <==> EnoughProduct(p, depth)
    decreases p, 4
  {
    if p.Factor? {
      UnarySuffices(p.first, room, depth);
    } else {
      var x := ExtrasProduct(p.left);
      ProductSuffices(p.left, room, depth);
      NetOfProduct(p.left, room);
      match p {
        case Times(left, right) =>
          UnarySuffices(right, room, Then(depth, x));
          NetOfUnary(right, room);
          TimesIsTaken();
          BinarySuffices(PostProduct(left), PostUnary(right), "*", x, depth, ExtrasUnary(right));
        case Over(left, right) =>
          UnarySuffices(right, room, Then(depth, x));
          NetOfUnary(right, room);
          DivideIsTaken();
          BinarySuffices(PostProduct(left), PostUnary(right), "divide", x, depth, ExtrasUnary(right));
        case Beside(left, next) =>
          PowerSuffices(next, room, Then(depth, x));
          NetOfPower(next, room);
          TimesIsTaken();
          BinarySuffices(PostProduct(left), PostPower(next), "*", x, depth, ExtrasPower(next));
      }
    }
  }

  lemma {:induction false} SumSuffices(s: Sum, room: nat, depth: int)
    requires SumOk(s, room)
    ensures Suffices(PostSum(s), depth) <==> EnoughSum(s, depth)
    decreases s, 5
  {
    if s.Term? {
      ProductSuffices(s.first, room, depth);
    } else {
      var x := ExtrasSum(s.left);
      SumSuffices(s.left, room, depth);
      NetOfSum(s.left, room);
      ProductSuffices(s.right, room, Then(depth, x));
      NetOfProduct(s.right, room);
      PlusIsTaken();
      MinusIsTaken();
      BinarySuffices(PostSum(s.left), PostProduct(s.right), if s.Add? then "+" else "-",
                     x, depth, ExtrasProduct(s.right));
    }
  }

  lemma {:induction false} SumsSuffice(s: Sums, room: nat, depth: int)
    requires SumsOk(s, room)
    ensures Suffices(PostSums(s), depth) <==> EnoughSums(s, depth)
    decreases s, 6
  {
    if s.More? {
      SumSuffices(s.head, room, depth);
      NetOfSum(s.head, room);
      SumsSuffice(s.tail, room, Then(depth, ExtrasSum(s.head)));
      SufficesBoth(PostSum(s.head), PostSums(s.tail), depth);
    }
  }

  // ------------------------------------------------------------- what it comes to

  /** There is a count of a formula's words exactly where, from an empty stack, the formula has enough; and then it is
      what the translator reports and what the calls leave over. */
  lemma CountedWhereEnough(text: string, cap: nat, body: string)
    requires IsFormula(text, cap) && Split(body) == PostSums(Reading(text).tree)
    ensures var tree := Reading(text).tree;
            && (Results(body) >= 0 <==> EnoughSums(tree, 0))
            && (EnoughSums(tree, 0) ==> Results(body) == Count(tree) + SurplusOf(tree))
  {
    Grammar.SumsWritten(Scanner.Scan(text, 0), DEPTH_MAX);
    SumsSuffice(Reading(text).tree, DEPTH_MAX, 0);
    NetOfSums(Reading(text).tree, DEPTH_MAX);
    CountedExactly(Split(body), 0);
  }

  /** The count is the number of values the translator reports exactly where the formula has enough and its calls leave
      nothing over between them. */
  lemma CountAgreesExactly(text: string, cap: nat, body: string)
    requires IsFormula(text, cap) && Split(body) == PostSums(Reading(text).tree)
    ensures var tree := Reading(text).tree;
            Results(body) == Count(tree) <==> EnoughSums(tree, 0) && SurplusOf(tree) == 0
  {
    CountedWhereEnough(text, cap, body);
  }

  /** And a machine that has the table's words runs what the translator wrote on an empty stack exactly then, where all
      the words are known. */
  lemma RunsWhereEnough(text: string, cap: nat, body: string, m: Machine)
    requires IsFormula(text, cap) && Split(body) == PostSums(Reading(text).tree) && AllKnown(Split(body)) && m.Valid()
    ensures m.Run(Split(body), []).Some? <==> EnoughSums(Reading(text).tree, 0)
  {
    CountedWhereEnough(text, cap, body);
    Formulas.KnownIsCounted(Split(body), 0);
    CountIsWhatRunningLeaves(m, Split(body), []);
  }
}
