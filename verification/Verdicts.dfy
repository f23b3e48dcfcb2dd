/** What a body that is not counted is said to be, told from the token that stopped it. */
module Verdicts {
  import opened Basics
  import opened Text
  import opened Words
  import opened Rpn

  lemma Stops(token: string, rest: seq<string>, depth: nat)
    requires !IsNumber(token) && EffectOf(token).None?
    ensures CountFrom([token] + rest, depth) == Verdict(token)
  {
    assert ([token] + rest)[0] == token;
  }

  predicate Letter(c: char) {
    'a' <= c <= 'z' || 'A' <= c <= 'Z' || c == '_'
  }

  /** A word of letters, digits, underscores and colons that is not in the table could do anything: minus two. */
  lemma NameSays(token: string, rest: seq<string>, depth: nat)
    requires token != "" && Letter(token[0]) && EffectOf(token).None?
    requires forall i :: 0 <= i < |token| ==> Letter(token[i]) || '0' <= token[i] <= '9' || token[i] == ':'
    ensures CountFrom([token] + rest, depth) == -2
  {
    OpenName(token);
    Stops(token, rest, depth);
  }

  /** The marks that only a formula has. */
  predicate Mark(c: char) {
    c == '(' || c == ')' || c == '^' || c == ',' || c == '+' || c == '-' || c == '*' || c == '/'
  }

  /** A token with one of them in it, wherever it is, and that is no number or word by itself, is a formula's: minus
      one. Two are the language's own. */
  lemma MarkSays(p: string, c: char, q: string, rest: seq<string>, depth: nat)
    requires Mark(c) && !IsNumber(p + [c] + q) && EffectOf(p + [c] + q).None?
    ensures CountFrom([p + [c] + q] + rest, depth) == if p + [c] + q == "->" || p + [c] + q == "--" then -2 else -1
  {
    var token := p + [c] + q;
    assert token[|p|] == c && IsFormulaChar(c) && !NameChar(c) && !NameStart(c);
    OpenName(token);
    Stops(token, rest, depth);
  }

  /** With none of them, it is a formula's only where it begins as a number does. */
  lemma OtherSays(token: string, rest: seq<string>, depth: nat)
    requires token != "" && !IsNumber(token) && EffectOf(token).None? && !IsName(token)
    requires forall i :: 0 <= i < |token| ==> !Mark(token[i])
    ensures CountFrom([token] + rest, depth) == if '0' <= token[0] <= '9' || token[0] == '.' then -1 else -2
  {
    Stops(token, rest, depth);
  }
}
