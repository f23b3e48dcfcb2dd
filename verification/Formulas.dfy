/** What the translator promises of a text: that its RPN is worth what the formula is, and that
    counting the RPN without running it gives the number of values the translator reports. */
module Formulas {
  import opened Basics
  import opened Text
  import opened Formula
  import opened Words
  import opened Rpn
  import opened Compiler
  import opened Translator
  import Grammar

  /** Whatever the translator wrote, run on any stack, leaves that stack as it was with the values of
      the formula's expressions above it, in order. */
  lemma TranslationIsWorthTheFormula(text: string, cap: nat, body: string, m: Machine, stack: seq<real>)
    requires IsFormula(text, cap) && Split(body) == PostSums(Reading(text).tree)
    requires m.Valid() && DoesArithmetic(m) && AritySums(Reading(text).tree, m.effects)
    ensures m.Run(Split(body), stack) == Some(stack + ValueSums(Reading(text).tree, m))
  {
    MachineRuns(m);
    Grammar.SumsWritten(Scanner.Scan(text, 0), DEPTH_MAX);
    SumsRun(Reading(text).tree, DEPTH_MAX, m, stack);
  }

  // ------------------------------------------------- a machine with no more than the table

  function Zeros(n: nat): (z: seq<real>)
    ensures |z| == n
  {
    seq(n, _ => 0.0)
  }

  function TableApply(w: string, args: seq<real>): seq<real> {
    if w == "neg" && |args| == 1 then [-args[0]]
    else if w == "+" && |args| == 2 then [args[0] + args[1]]
    else if w == "-" && |args| == 2 then [args[0] - args[1]]
    else if w == "*" && |args| == 2 then [Multiply(args[0], args[1])]
    else if w == "divide" && |args| == 2 && args[1] != 0.0 then [args[0] / args[1]]
    else Zeros(if EffectOf(w).Some? then EffectOf(w).value.leaves else 0)
  }

  function TableMachine(): Machine {
    Machine(w => EffectOf(w), (w, args) => TableApply(w, args), _ => 0.0)
  }

  lemma TableApplyLeaves(w: string, args: seq<real>)
    requires EffectOf(w).Some? && |args| == EffectOf(w).value.takes
    ensures |TableApply(w, args)| == EffectOf(w).value.leaves
  {
    if w == "neg" { EffectNeg(); }
    else if w == "+" { EffectPlus(); }
    else if w == "-" { EffectMinusSign(); }
    else if w == "*" { EffectTimes(); }
    else if w == "divide" { EffectDivide(); }
  }

  lemma TableApplyAdds(a: real, b: real)
    ensures TableApply("+", [a, b]) == [a + b] && TableApply("-", [a, b]) == [a - b]
  {
    assert "+"[0] == '+' && "-"[0] == '-';
  }

  lemma TableApplyTimes(a: real, b: real)
    ensures TableApply("*", [a, b]) == [Multiply(a, b)]
  {
    var w := "*";
    assert "+"[0] == '+' && "-"[0] == '-' && w[0] == '*';
    assert w != "+" && w != "-" && w != "neg";
  }

  lemma TableApplyDivides(a: real, b: real)
    ensures b != 0.0 ==> TableApply("divide", [a, b]) == [a / b]
    ensures TableApply("neg", [a]) == [-a]
  {
    assert "+"[0] == '+' && "-"[0] == '-' && "*"[0] == '*';
  }

  lemma TableMachineIsOne()
    ensures TableMachine().Valid() && DoesArithmetic(TableMachine())
  {
    var m := TableMachine();
    forall w, args: seq<real> | m.effects(w).Some? && |args| == m.effects(w).value.takes
      ensures |m.apply(w, args)| == m.effects(w).value.leaves
    {
      TableApplyLeaves(w, args);
    }
    forall a: real, b: real ensures DoesArithmeticOn(m, a, b) {
      TableApplyAdds(a, b);
      TableApplyTimes(a, b);
      TableApplyDivides(a, b);
    }
  }

  lemma {:induction false} RunsOnlyWhatIsKnown(m: Machine, words: seq<string>, stack: seq<real>)
    requires m.Run(words, stack).Some?
    requires forall w :: m.effects(w) == EffectOf(w)
    ensures AllKnown(words)
  {
    if words != [] { RunsOnlyWhatIsKnown(m, words[1..], m.Step(words[0], stack).value); }
  }

  lemma {:induction false} KnownIsCounted(words: seq<string>, depth: nat)
    requires AllKnown(words)
    ensures CountFrom(words, depth) >= 0 || CountFrom(words, depth) == NOT
  {
    if words != [] {
      assert AllKnown(words[1..]);
      if IsNumber(words[0]) {
        KnownIsCounted(words[1..], depth + 1);
      } else if depth >= EffectOf(words[0]).value.takes {
        KnownIsCounted(words[1..], depth + EffectOf(words[0]).value.leaves - EffectOf(words[0]).value.takes);
      }
    }
  }

  /** Where every word is one of the table's, with as many arguments as it takes, what is counted of the words is what
      the translator reports. */
  lemma CountAgreesWithTranslator(text: string, cap: nat, body: string)
    requires IsFormula(text, cap) && Split(body) == PostSums(Reading(text).tree)
    requires AritySums(Reading(text).tree, w => EffectOf(w))
    ensures Results(body) == Count(Reading(text).tree)
  {
    var m := TableMachine();
    TableMachineIsOne();
    TranslationIsWorthTheFormula(text, cap, body, m, []);
    RunsOnlyWhatIsKnown(m, Split(body), []);
    KnownIsCounted(Split(body), 0);
    CountIsWhatRunningLeaves(m, Split(body), []);
  }

  /** Every tree of the grammar is what some text reads as: its tokens spelt out, spaces between. */
  lemma EveryTreeCanBeTyped(tree: Sums)
    requires tree.More? && SumsOk(tree, DEPTH_MAX) && Scanner.Scannable(WriteSums(tree, End))
    ensures Reading(Scanner.Spell(WriteSums(tree, End))) == Done(tree, End)
  {
    Scanner.ScanSpelt(WriteSums(tree, End));
    Grammar.ReadsExactlyTheGrammar(WriteSums(tree, End), tree, DEPTH_MAX);
  }
}
