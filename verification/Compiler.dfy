/** From a tree to RPN, and what a tree is worth. */
module Compiler {
  import opened Basics
  import opened Text
  import opened Numeral
  import opened Formula
  import opened Words
  import opened Rpn

  // ------------------------------------------------------- operands, then word

  /** The numeral with a point in it, which makes its words divide as numbers with a point do. */
  function FloatText(numeral: NumeralText): string {
    NumeralParts(numeral);
    PartsAt(numeral, 0).AsFloat().Spell()
  }

  function PostWord(p: Postfix): string {
    if p.Bang? then "fac" else p.word
  }

  function PostPrimary(p: Primary): seq<string> {
    match p
    case Literal(numeral) => [FloatText(numeral)]
    case Bracket(inner) => PostSum(inner)
    case Call(name, args) => PostSums(args) + [name]
    case Bare(name) => [name]
    case Of(name, arg) => PostUnary(arg) + [name]
  }

  function PostWords(posts: seq<Postfix>): seq<string> {
    if posts == [] then [] else PostWords(posts[..|posts| - 1]) + [PostWord(posts[|posts| - 1])]
  }

  function PostPostfixed(p: Postfixed): seq<string> {
    PostPrimary(p.base) + PostWords(p.posts)
  }

  function PostPower(p: Power): seq<string> {
    match p
    case Plain(base) => PostPostfixed(base)
    case Raised(base, exponent) => PostPostfixed(base) + PostUnary(exponent) + ["pow"]
  }

  function PostUnary(u: Unary): seq<string> {
    match u
    case Minus(arg) => PostUnary(arg) + ["neg"]
    case Plus(arg) => PostUnary(arg)
    case Unsigned(power) => PostPower(power)
  }

  function PostProduct(p: Product): seq<string> {
    match p
    case Factor(first) => PostUnary(first)
    case Times(left, right) => PostProduct(left) + PostUnary(right) + ["*"]
    case Over(left, right) => PostProduct(left) + PostUnary(right) + ["divide"]
    case Beside(left, next) => PostProduct(left) + PostPower(next) + ["*"]
  }

  function PostSum(s: Sum): seq<string> {
    match s
    case Term(first) => PostProduct(first)
    case Add(left, right) => PostSum(left) + PostProduct(right) + ["+"]
    case Subtract(left, right) => PostSum(left) + PostProduct(right) + ["-"]
  }

  function PostSums(s: Sums): seq<string> {
    match s
    case NoMore => []
    case More(head, tail) => PostSum(head) + PostSums(tail)
  }

  function Count(s: Sums): nat {
    match s
    case NoMore => 0
    case More(_, tail) => 1 + Count(tail)
  }

  // ------------------------------------------------------ what a tree is worth

  predicate DoesArithmeticOn(m: Machine, a: real, b: real) {
    && m.apply("+", [a, b]) == [a + b]
    && m.apply("-", [a, b]) == [a - b]
    && m.apply("*", [a, b]) == [Multiply(a, b)]
    && (b != 0.0 ==> m.apply("divide", [a, b]) == [a / b])
    && m.apply("neg", [a]) == [-a]
  }

  /** The arithmetic words do arithmetic; everything else is the machine's own. */
  ghost predicate DoesArithmetic(m: Machine) {
    forall a: real, b: real :: DoesArithmeticOn(m, a, b)
  }

  /** The one value a word makes of its arguments. */
  function Apply(m: Machine, word: string, args: seq<real>): real {
    var r := m.apply(word, args); if r == [] then 0.0 else r[0]
  }

  function Multiply(a: real, b: real): real {
    a * b
  }

  function Quotient(m: Machine, a: real, b: real): real {
    if b != 0.0 then a / b else Apply(m, "divide", [a, b])
  }

  function NumeralValue(numeral: NumeralText): real {
    NumeralParts(numeral);
    PartsAt(numeral, 0).Value()
  }

  function ValuePrimary(p: Primary, m: Machine): real {
    match p
    case Literal(numeral) => NumeralValue(numeral)
    case Bracket(inner) => ValueSum(inner, m)
    case Call(name, args) => Apply(m, name, ValueSums(args, m))
    case Bare(name) => Apply(m, name, [])
    case Of(name, arg) => Apply(m, name, [ValueUnary(arg, m)])
  }

  /** Postfix words apply one after the other to the value before them. */
  function ValuePosts(base: real, posts: seq<Postfix>, m: Machine): real {
    if posts == [] then base
    else Apply(m, PostWord(posts[|posts| - 1]), [ValuePosts(base, posts[..|posts| - 1], m)])
  }

  function ValuePostfixed(p: Postfixed, m: Machine): real {
    ValuePosts(ValuePrimary(p.base, m), p.posts, m)
  }

  function ValuePower(p: Power, m: Machine): real {
    match p
    case Plain(base) => ValuePostfixed(base, m)
    case Raised(base, exponent) => Apply(m, "pow", [ValuePostfixed(base, m), ValueUnary(exponent, m)])
  }

  function ValueUnary(u: Unary, m: Machine): real {
    match u
    case Minus(arg) => -ValueUnary(arg, m)
    case Plus(arg) => ValueUnary(arg, m)
    case Unsigned(power) => ValuePower(power, m)
  }

  function ValueProduct(p: Product, m: Machine): real {
    match p
    case Factor(first) => ValueUnary(first, m)
    case Times(left, right) => Multiply(ValueProduct(left, m), ValueUnary(right, m))
    case Over(left, right) => Quotient(m, ValueProduct(left, m), ValueUnary(right, m))
    case Beside(left, next) => Multiply(ValueProduct(left, m), ValuePower(next, m))
  }

  function ValueSum(s: Sum, m: Machine): real {
    match s
    case Term(first) => ValueProduct(first, m)
    case Add(left, right) => ValueSum(left, m) + ValueProduct(right, m)
    case Subtract(left, right) => ValueSum(left, m) - ValueProduct(right, m)
  }

  function ValueSums(s: Sums, m: Machine): (r: seq<real>)
    ensures |r| == Count(s)
  {
    match s
    case NoMore => []
    case More(head, tail) => [ValueSum(head, m)] + ValueSums(tail, m)
  }

  // -------------------------------------------------------------------- arity

  /** Every call in the tree has as many arguments as its word takes, for one value. */
  ghost predicate ArityPrimary(p: Primary, effects: string -> Option<Effect>) {
    match p
    case Literal(_) => true
    case Bracket(inner) => AritySum(inner, effects)
    case Call(name, args) => effects(name) == Some(Effect(Count(args), 1)) && AritySums(args, effects)
    case Bare(name) => effects(name) == Some(Effect(0, 1))
    case Of(name, arg) => effects(name) == Some(Effect(1, 1)) && ArityUnary(arg, effects)
  }

  ghost predicate ArityPower(p: Power, effects: string -> Option<Effect>) {
    match p
    case Plain(base) => ArityPrimary(base.base, effects)
    case Raised(base, exponent) => ArityPrimary(base.base, effects) && ArityUnary(exponent, effects)
  }

  ghost predicate ArityUnary(u: Unary, effects: string -> Option<Effect>) {
    match u
    case Minus(arg) => ArityUnary(arg, effects)
    case Plus(arg) => ArityUnary(arg, effects)
    case Unsigned(power) => ArityPower(power, effects)
  }

  ghost predicate ArityProduct(p: Product, effects: string -> Option<Effect>) {
    match p
    case Factor(first) => ArityUnary(first, effects)
    case Times(left, right) => ArityProduct(left, effects) && ArityUnary(right, effects)
    case Over(left, right) => ArityProduct(left, effects) && ArityUnary(right, effects)
    case Beside(left, next) => ArityProduct(left, effects) && ArityPower(next, effects)
  }

  ghost predicate AritySum(s: Sum, effects: string -> Option<Effect>) {
    match s
    case Term(first) => ArityProduct(first, effects)
    case Add(left, right) => AritySum(left, effects) && ArityProduct(right, effects)
    case Subtract(left, right) => AritySum(left, effects) && ArityProduct(right, effects)
  }

  ghost predicate AritySums(s: Sums, effects: string -> Option<Effect>) {
    match s
    case NoMore => true
    case More(head, tail) => AritySum(head, effects) && AritySums(tail, effects)
  }

  // -------------------------------------------------------------- correctness

  /** The facts about a machine that the proof uses, apart from the table they come from. */
  ghost predicate Runs(m: Machine) {
    && DoesArithmetic(m)
    && (forall w, args :: m.effects(w).Some? && |args| == m.effects(w).value.takes
          ==> |m.apply(w, args)| == m.effects(w).value.leaves)
    && m.effects("+") == Some(Effect(2, 1)) && m.effects("-") == Some(Effect(2, 1))
    && m.effects("*") == Some(Effect(2, 1)) && m.effects("divide") == Some(Effect(2, 1))
    && m.effects("pow") == Some(Effect(2, 1)) && m.effects("neg") == Some(Effect(1, 1))
    && m.effects("fac") == Some(Effect(1, 1)) && m.effects("sq") == Some(Effect(1, 1))
    && m.effects("cb") == Some(Effect(1, 1)) && m.effects("inv") == Some(Effect(1, 1))
  }

  lemma NameIsNoNumber(name: NameText)
    ensures !IsNumber(name)
  {
    OpenName(name);
  }

  lemma KnowsSigns(m: Machine)
    requires m.Valid()
    ensures m.effects("+") == Some(Effect(2, 1)) && m.effects("-") == Some(Effect(2, 1))
    ensures m.effects("*") == Some(Effect(2, 1)) && m.effects("divide") == Some(Effect(2, 1))
    ensures m.effects("pow") == Some(Effect(2, 1))
  {
    assert m.effects("+") == Some(Effect(2, 1)) by { EffectPlus(); }
    assert m.effects("-") == Some(Effect(2, 1)) by { EffectMinusSign(); }
    assert m.effects("*") == Some(Effect(2, 1)) by { EffectTimes(); }
    assert m.effects("divide") == Some(Effect(2, 1)) by { EffectDivide(); }
    assert m.effects("pow") == Some(Effect(2, 1)) by { EffectPow(); }
  }

  lemma KnowsFunctions(m: Machine)
    requires m.Valid()
    ensures m.effects("neg") == Some(Effect(1, 1)) && m.effects("fac") == Some(Effect(1, 1))
    ensures m.effects("sq") == Some(Effect(1, 1)) && m.effects("cb") == Some(Effect(1, 1))
    ensures m.effects("inv") == Some(Effect(1, 1))
  {
    assert m.effects("neg") == Some(Effect(1, 1)) by { EffectNeg(); }
    assert m.effects("fac") == Some(Effect(1, 1)) by { EffectFac(); }
    assert m.effects("sq") == Some(Effect(1, 1)) by { EffectSq(); }
    assert m.effects("cb") == Some(Effect(1, 1)) by { EffectCb(); }
    assert m.effects("inv") == Some(Effect(1, 1)) by { EffectInv(); }
  }

  lemma MachineRuns(m: Machine)
    requires m.Valid() && DoesArithmetic(m)
    ensures Runs(m)
  {
    KnowsSigns(m);
    KnowsFunctions(m);
  }

  /** Running a, then one word that takes n values and leaves one. */
  lemma RunThenWord(m: Machine, a: seq<string>, w: string, stack: seq<real>, args: seq<real>)
    requires Runs(m) && !IsNumber(w)
    requires m.Run(a, stack) == Some(stack + args)
    requires m.effects(w) == Some(Effect(|args|, 1))
    ensures m.Run(a + [w], stack) == Some(stack + [Apply(m, w, args)])
  {
    RunAppend(m, a, [w], stack);
    assert (stack + args)[..|stack|] == stack && (stack + args)[|stack|..] == args;
    assert m.apply(w, args) == [Apply(m, w, args)];
    assert [w][1..] == [];
  }

  lemma ApplyPlus(m: Machine, a: real, b: real)
    requires DoesArithmetic(m)
    ensures Apply(m, "+", [a, b]) == a + b
  {
    assert DoesArithmeticOn(m, a, b);
  }

  lemma ApplyMinus(m: Machine, a: real, b: real)
    requires DoesArithmetic(m)
    ensures Apply(m, "-", [a, b]) == a - b
  {
    assert DoesArithmeticOn(m, a, b);
  }

  lemma ApplyTimes(m: Machine, a: real, b: real)
    requires DoesArithmetic(m)
    ensures Apply(m, "*", [a, b]) == Multiply(a, b)
  {
    assert DoesArithmeticOn(m, a, b);
  }

  lemma ApplyDivide(m: Machine, a: real, b: real)
    requires DoesArithmetic(m)
    ensures Apply(m, "divide", [a, b]) == Quotient(m, a, b)
  {
    assert DoesArithmeticOn(m, a, b);
  }

  lemma ApplyNeg(m: Machine, a: real)
    requires DoesArithmetic(m)
    ensures Apply(m, "neg", [a]) == -a
  {
    assert DoesArithmeticOn(m, a, 0.0);
  }

  /** Running a, then b. */
  lemma RunBoth(m: Machine, a: seq<string>, b: seq<string>, stack: seq<real>, x: seq<real>, y: seq<real>)
    requires m.Run(a, stack) == Some(stack + x)
    requires m.Run(b, stack + x) == Some(stack + x + y)
    ensures m.Run(a + b, stack) == Some(stack + (x + y))
  {
    RunAppend(m, a, b, stack);
    Above(stack, x, y);
  }

  lemma Above(stack: seq<real>, x: seq<real>, y: seq<real>)
    ensures stack + x + y == stack + (x + y)
  {
  }

  lemma RunLiteral(m: Machine, numeral: NumeralText, stack: seq<real>)
    requires IsShortNumber(numeral)
    ensures IsNumber(FloatText(numeral))
    ensures m.Run([FloatText(numeral)], stack) == Some(stack + [NumeralValue(numeral)])
  {
    NumeralParts(numeral);
    var p := PartsAt(numeral, 0);
    var q := p.AsFloat();
    AsFloatKeepsValue(p);
    SpeltIsNumeral(q);
    FloatIsNumber(p);
    assert [FloatText(numeral)][1..] == [];
  }

  lemma FloatIsNumber(p: Parts)
    requires p.Valid() && |p.Spell()| + 4 <= 64
    ensures IsNumber(p.AsFloat().Spell())
  {
    var q := p.AsFloat();
    AsFloatKeepsValue(p);
    SpeltIsNumeral(q);
    var s := q.Spell();
    assert q.whole != "" && IsDigit(q.whole[0]) && s[0] == q.whole[0];
    assert !StartsHex(s, 0) by {
      if |q.whole| > 1 { assert s[1] == q.whole[1]; }
      else if q.point { assert s[1] == '.'; }
      else { assert s[1] == q.exponent[0]; }
    }
  }

  lemma {:induction false} PrimaryRuns(p: Primary, room: nat, m: Machine, stack: seq<real>)
    requires Runs(m) && PrimaryOk(p, room) && ArityPrimary(p, m.effects)
    ensures m.Run(PostPrimary(p), stack) == Some(stack + [ValuePrimary(p, m)])
    decreases p, 0
  {
    match p
    case Literal(numeral) => RunLiteral(m, numeral, stack);
    case Bracket(inner) => SumRuns(inner, room - 1, m, stack);
    case Call(name, args) =>
      SumsRun(args, room, m, stack);
      NameIsNoNumber(name);
      RunThenWord(m, PostSums(args), name, stack, ValueSums(args, m));
    case Bare(name) =>
      assert stack + [] == stack;
      NameIsNoNumber(name);
      RunThenWord(m, [], name, stack, []);
      assert [] + [name] == [name];
    case Of(name, arg) =>
      UnaryRuns(arg, room, m, stack);
      NameIsNoNumber(name);
      RunThenWord(m, PostUnary(arg), name, stack, [ValueUnary(arg, m)]);
  }

  lemma {:induction false} PostsRun(base: seq<string>, value: real, posts: seq<Postfix>, m: Machine, stack: seq<real>)
    requires Runs(m) && m.Run(base, stack) == Some(stack + [value])
    requires forall i :: 0 <= i < |posts| ==> posts[i].Word? ==> IsPostfixWord(posts[i].word)
    ensures m.Run(base + PostWords(posts), stack) == Some(stack + [ValuePosts(value, posts, m)])
    decreases |posts|
  {
    if posts == [] {
      assert base + [] == base;
    } else {
      var front, last := posts[..|posts| - 1], posts[|posts| - 1];
      PostsRun(base, value, front, m, stack);
      if last.Word? { NameIsNoNumber(last.word); }
      RunThenWord(m, base + PostWords(front), PostWord(last), stack, [ValuePosts(value, front, m)]);
      assert base + PostWords(front) + [PostWord(last)] == base + (PostWords(front) + [PostWord(last)]);
    }
  }

  lemma {:induction false} PostfixedRuns(p: Postfixed, room: nat, m: Machine, stack: seq<real>)
    requires Runs(m) && PostfixedOk(p, room) && ArityPrimary(p.base, m.effects)
    ensures m.Run(PostPostfixed(p), stack) == Some(stack + [ValuePostfixed(p, m)])
    decreases p, 1
  {
    PrimaryRuns(p.base, room, m, stack);
    PostsRun(PostPrimary(p.base), ValuePrimary(p.base, m), p.posts, m, stack);
  }

  /** Two trees and the word that joins them. */
  lemma RunBinary(m: Machine, a: seq<string>, b: seq<string>, w: string, stack: seq<real>,
                  x: real, y: real, z: real)
    requires Runs(m) && !IsNumber(w) && m.effects(w) == Some(Effect(2, 1)) && Apply(m, w, [x, y]) == z
    requires m.Run(a, stack) == Some(stack + [x])
    requires m.Run(b, stack + [x]) == Some(stack + [x] + [y])
    ensures m.Run(a + b + [w], stack) == Some(stack + [z])
  {
    RunBoth(m, a, b, stack, [x], [y]);
    assert [x] + [y] == [x, y];
    RunThenWord(m, a + b, w, stack, [x, y]);
  }

  lemma {:induction false} PowerRuns(p: Power, room: nat, m: Machine, stack: seq<real>)
    requires Runs(m) && PowerOk(p, room) && ArityPower(p, m.effects)
    ensures m.Run(PostPower(p), stack) == Some(stack + [ValuePower(p, m)])
    decreases p, 2
  {
    PostfixedRuns(p.base, room, m, stack);
    if p.Raised? {
      var x := ValuePostfixed(p.base, m);
      UnaryRuns(p.exponent, room, m, stack + [x]);
      RunBinary(m, PostPostfixed(p.base), PostUnary(p.exponent), "pow", stack,
                x, ValueUnary(p.exponent, m), ValuePower(p, m));
    }
  }

  lemma {:induction false} UnaryRuns(u: Unary, room: nat, m: Machine, stack: seq<real>)
    requires Runs(m) && UnaryOk(u, room) && ArityUnary(u, m.effects)
    ensures m.Run(PostUnary(u), stack) == Some(stack + [ValueUnary(u, m)])
    decreases u, 3
  {
    match u
    case Minus(arg) =>
      UnaryRuns(arg, room - 1, m, stack);
      RunThenWord(m, PostUnary(arg), "neg", stack, [ValueUnary(arg, m)]);
      ApplyNeg(m, ValueUnary(arg, m));
    case Plus(arg) => UnaryRuns(arg, room - 1, m, stack);
    case Unsigned(power) => PowerRuns(power, room - 1, m, stack);
  }

  lemma {:induction false} ProductRuns(p: Product, room: nat, m: Machine, stack: seq<real>)
    requires Runs(m) && ProductOk(p, room) && ArityProduct(p, m.effects)
    ensures m.Run(PostProduct(p), stack) == Some(stack + [ValueProduct(p, m)])
    decreases p, 4
  {
    match p
    case Factor(first) => UnaryRuns(first, room, m, stack);
    case Times(left, right) =>
      var x := ValueProduct(left, m);
      ProductRuns(left, room, m, stack);
      UnaryRuns(right, room, m, stack + [x]);
      ApplyTimes(m, x, ValueUnary(right, m));
      RunBinary(m, PostProduct(left), PostUnary(right), "*", stack, x, ValueUnary(right, m), ValueProduct(p, m));
    case Over(left, right) =>
      var x := ValueProduct(left, m);
      ProductRuns(left, room, m, stack);
      UnaryRuns(right, room, m, stack + [x]);
      ApplyDivide(m, x, ValueUnary(right, m));
      RunBinary(m, PostProduct(left), PostUnary(right), "divide", stack, x, ValueUnary(right, m), ValueProduct(p, m));
    case Beside(left, next) =>
      var x := ValueProduct(left, m);
      ProductRuns(left, room, m, stack);
      PowerRuns(next, room, m, stack + [x]);
      ApplyTimes(m, x, ValuePower(next, m));
      RunBinary(m, PostProduct(left), PostPower(next), "*", stack, x, ValuePower(next, m), ValueProduct(p, m));
  }

  lemma {:induction false} SumRuns(s: Sum, room: nat, m: Machine, stack: seq<real>)
    requires Runs(m) && SumOk(s, room) && AritySum(s, m.effects)
    ensures m.Run(PostSum(s), stack) == Some(stack + [ValueSum(s, m)])
    decreases s, 5
  {
    match s
    case Term(first) => ProductRuns(first, room, m, stack);
    case Add(left, right) =>
      var x := ValueSum(left, m);
      SumRuns(left, room, m, stack);
      ProductRuns(right, room, m, stack + [x]);
      ApplyPlus(m, x, ValueProduct(right, m));
      RunBinary(m, PostSum(left), PostProduct(right), "+", stack, x, ValueProduct(right, m), ValueSum(s, m));
    case Subtract(left, right) =>
      var x := ValueSum(left, m);
      SumRuns(left, room, m, stack);
      ProductRuns(right, room, m, stack + [x]);
      ApplyMinus(m, x, ValueProduct(right, m));
      RunBinary(m, PostSum(left), PostProduct(right), "-", stack, x, ValueProduct(right, m), ValueSum(s, m));
  }

  lemma {:induction false} SumsRun(s: Sums, room: nat, m: Machine, stack: seq<real>)
    requires Runs(m) && SumsOk(s, room) && AritySums(s, m.effects)
    ensures m.Run(PostSums(s), stack) == Some(stack + ValueSums(s, m))
    decreases s, 6
  {
    match s
    case NoMore => assert stack + [] == stack;
    case More(head, tail) =>
      var x := ValueSum(head, m);
      SumRuns(head, room, m, stack);
      SumsRun(tail, room, m, stack + [x]);
      RunBoth(m, PostSum(head), PostSums(tail), stack, [x], ValueSums(tail, m));
  }
}
