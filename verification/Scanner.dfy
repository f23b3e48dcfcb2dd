/** The tokens of a text, character by character. */
module Scanner {
  import opened Text
  import opened Numeral
  import opened Formula
  import Rpn

  /** What stands at a place in the text: nothing more, a character that cannot be read,
      or a token and where it starts and ends. */
  datatype Found = Nothing | Unreadable(at: char) | Got(token: Token, start: nat, end: nat)

  function NameEnd(s: string, i: nat): (j: nat)
    ensures i <= j && (i <= |s| ==> j <= |s|)
    ensures forall k :: i <= k < j && k < |s| ==> Rpn.NameChar(s[k])
    ensures !Rpn.NameChar(At(s, j))
    decreases |s| - i
  {
    if i < |s| && Rpn.NameChar(s[i]) then NameEnd(s, i + 1) else i
  }

  /** The sign a key that types a word stands for, between two values. */
  function OperatorOf(word: string): char {
    if word == "plus" then '+'
    else if word == "minus" then '-'
    else if word == "multiply" then '*'
    else if word == "divide" then '/'
    else if word == "pow" then '^'
    else NUL
  }

  predicate IsSymbol(c: char) {
    c == '+' || c == '-' || c == '*' || c == '/' || c == '^' || c == '(' || c == ')' || c == ',' || c == '!'
  }

  function Seen(s: string, p: nat): (f: Found)
    requires p <= |s|
    ensures f.Got? ==> p <= f.start < f.end <= |s|
  {
    var i := SkipSpace(s, p);
    if At(s, i) == NUL then Nothing
    else if StartsNumber(s, i) then
      var j := NumberEnd(s, i);
      CutIsNumeral(s, i);
      Got(Number(s[i..j]), i, j)
    else if Rpn.NameStart(s[i]) then
      var j := NameEnd(s, i + 1);
      Rpn.OpenName(s[i..j]);
      var call := At(s, SkipSpace(s, j)) == '(';
      var op := if call then NUL else OperatorOf(s[i..j]);
      Got(if op != NUL then Op(op) else Name(s[i..j], call), i, j)
    else if IsSymbol(s[i]) then Got(Op(s[i]), i, i + 1)
    else Unreadable(s[i])
  }

  /** Seen under covers: a proof about tokens does not look at the characters unless it asks. */
  function Covered(s: string, p: nat, covers: nat): (f: Found)
    requires p <= |s|
    ensures f.Got? ==> p <= f.start < f.end <= |s|
    decreases covers, s
  {
    if covers == 0 then Seen(s, p) else Covered(s, p, covers - 1)
  }

  function Find(s: string, p: nat): (f: Found)
    requires p <= |s|
    ensures f.Got? ==> p <= f.start < f.end <= |s|
  {
    Covered(s, p, 3)
  }

  lemma FindSees(s: string, p: nat)
    requires p <= |s|
    ensures Find(s, p) == Seen(s, p)
  {
    assert Covered(s, p, 1) == Covered(s, p, 0);
    assert Covered(s, p, 2) == Covered(s, p, 1);
  }

  lemma CutIsNumeral(s: string, i: nat)
    requires StartsNumber(s, i) && i <= |s|
    ensures IsNumeral(s[i..NumberEnd(s, i)])
  {
    PartsSpell(s, i);
    SpeltIsNumeral(PartsAt(s, i));
  }

  /** A token found is the text it stands on; a name's flag says whether a bracket comes next. */
  lemma FoundStands(s: string, p: nat)
    requires p <= |s| && Find(s, p).Got?
    ensures var Got(token, i, j) := Find(s, p);
            && (token.Number? ==> token.numeral == s[i..j])
            && (token.Name? ==> token.name == s[i..j] && (token.call <==> At(s, SkipSpace(s, j)) == '('))
  {
    FindSees(s, p);
  }

  /** All the tokens from p on. */
  function Scan(s: string, p: nat): Tokens
    requires p <= |s|
    decreases |s| - p
  {
    match Find(s, p)
    case Nothing => End
    case Unreadable(c) => Broken(c)
    case Got(token, _, end) => Next(token, Scan(s, end))
  }

  /** A bracket comes next exactly when the next token is one. */
  lemma BracketNext(s: string, p: nat)
    requires p <= |s|
    ensures IsOp(Scan(s, p), '(') <==> At(s, SkipSpace(s, p)) == '('
  {
    FindSees(s, p);
  }

  // --------------------------------------- tokens written out and scanned again

  function SpellToken(t: Token): string {
    match t
    case Number(numeral) => numeral
    case Name(name, _) => name
    case Op(op) => [op]
  }

  /** The tokens with a space after each. */
  function Spell(ts: Tokens): string {
    match ts
    case Next(head, tail) => SpellToken(head) + " " + Spell(tail)
    case Broken(c) => [c]
    case End => ""
  }

  predicate Unscannable(c: char) {
    c != NUL && !IsSpace(c) && !IsDigit(c) && !Rpn.NameStart(c) && !IsSymbol(c)
  }

  predicate TokenScans(t: Token, tail: Tokens) {
    match t
    case Number(_) => true
    case Name(name, call) => (call <==> IsOp(tail, '(')) && (call || OperatorOf(name) == NUL)
    case Op(op) => IsSymbol(op)
  }

  /** Tokens a text can have: each name knows what follows it, none is a spelt-out
      operator, and operators are the nine signs. */
  predicate Scannable(ts: Tokens) {
    match ts
    case End => true
    case Broken(c) => Unscannable(c)
    case Next(head, tail) => TokenScans(head, tail) && Scannable(tail)
  }

  /** How a spelt list of tokens begins. */
  lemma SpellStart(ts: Tokens)
    requires Scannable(ts)
    ensures ts == End <==> Spell(ts) == ""
    ensures Spell(ts) != "" ==> !IsSpace(Spell(ts)[0]) && (Spell(ts)[0] == '(' <==> IsOp(ts, '('))
  {
    if ts.Next? {
      match ts.head
      case Number(numeral) => OpenNumeral(numeral);
      case Name(name, _) => Rpn.OpenName(name);
      case Op(_) =>
    }
  }

  lemma {:induction false} NameRunsOn(w: string, s: string, i: nat)
    requires Stands(w, s, i) && (forall k :: 0 <= k < |w| ==> Rpn.NameChar(w[k])) && !Rpn.NameChar(At(s, i + |w|))
    ensures NameEnd(s, i) == i + |w|
    decreases |w|
  {
    if w != "" {
      StandsOn(w, s, i);
      NameRunsOn(w[1..], s, i + 1);
    }
  }

  lemma StandsOn(w: string, s: string, i: nat)
    requires w != "" && Stands(w, s, i)
    ensures s[i] == w[0] && Stands(w[1..], s, i + 1)
  {
    assert s[i] == s[i..i + |w|][0];
    assert s[i + 1..i + 1 + |w[1..]|] == s[i..i + |w|][1..];
  }

  lemma FindNumber(numeral: NumeralText, s: string, p: nat)
    requires Stands(numeral, s, p) && At(s, p + |numeral|) == ' '
    ensures Find(s, p) == Got(Number(numeral), p, p + |numeral|)
  {
    FindSees(s, p);
    NumeralThere(numeral, s, p);
    assert SkipSpace(s, p) == p;
  }

  lemma NumeralThere(numeral: NumeralText, s: string, p: nat)
    requires Stands(numeral, s, p) && At(s, p + |numeral|) == ' '
    ensures StartsNumber(s, p) && NumberEnd(s, p) == p + |numeral| && s[p..p + |numeral|] == numeral
  {
    NumeralParts(numeral);
    ReadBack(PartsAt(numeral, 0), s, p);
  }

  /** A name with a space behind it, as the scanner comes to it. */
  lemma NameThere(name: NameText, s: string, p: nat)
    requires Stands(name, s, p) && At(s, p + |name|) == ' '
    ensures p < |s| && Rpn.NameStart(s[p]) && !StartsNumber(s, p) && SkipSpace(s, p) == p && s[p] != NUL
    ensures NameEnd(s, p + 1) == p + |name| && s[p..p + |name|] == name
  {
    Rpn.OpenName(name);
    StandsOn(name, s, p);
    NameRunsOn(name[1..], s, p + 1);
  }

  lemma FindName(name: NameText, call: bool, s: string, p: nat)
    requires Stands(name, s, p) && At(s, p + |name|) == ' '
    requires call || OperatorOf(name) == NUL
    requires At(s, SkipSpace(s, p + |name|)) == '(' <==> call
    ensures Find(s, p) == Got(Name(name, call), p, p + |name|)
  {
    FindSees(s, p);
    NameThere(name, s, p);
  }

  lemma FindSign(op: char, s: string, p: nat)
    requires IsSymbol(op) && p < |s| && s[p] == op
    ensures Find(s, p) == Got(Op(op), p, p + 1)
  {
    FindSees(s, p);
  }

  lemma FindOperator(word: NameText, s: string, p: nat)
    requires Stands(word, s, p) && At(s, p + |word|) == ' ' && At(s, SkipSpace(s, p + |word|)) != '('
    requires OperatorOf(word) != NUL
    ensures Find(s, p) == Got(Op(OperatorOf(word)), p, p + |word|)
  {
    FindSees(s, p);
    NameThere(word, s, p);
  }

  /** A word the keypad types for an operator is that operator between two values, where no bracket comes next. */
  lemma TypedWord(word: string, sign: char, s: string, p: nat)
    requires || (word == "plus" && sign == '+') || (word == "minus" && sign == '-')
             || (word == "multiply" && sign == '*') || (word == "divide" && sign == '/')
             || (word == "pow" && sign == '^')
    requires Stands(word, s, p) && At(s, p + |word|) == ' ' && At(s, SkipSpace(s, p + |word|)) != '('
    ensures Find(s, p) == Got(Op(sign), p, p + |word|)
  {
    WordsAreNames(word);
    OperatorIs(word, sign);
    FindOperator(word, s, p);
  }

  lemma OperatorIs(word: string, sign: char)
    requires || (word == "plus" && sign == '+') || (word == "minus" && sign == '-')
             || (word == "multiply" && sign == '*') || (word == "divide" && sign == '/')
             || (word == "pow" && sign == '^')
    ensures OperatorOf(word) == sign != NUL
  {
  }

  lemma WordsAreNames(word: string)
    requires word == "plus" || word == "minus" || word == "multiply" || word == "divide" || word == "pow"
    ensures Rpn.IsName(word)
  {
    Rpn.OpenName(word);
  }

  /** A token with a space behind it is found whole. */
  lemma FindToken(t: Token, tail: Tokens, s: string, p: nat)
    requires TokenScans(t, tail) && Stands(SpellToken(t), s, p) && At(s, p + |SpellToken(t)|) == ' '
    requires At(s, SkipSpace(s, p + |SpellToken(t)|)) == '(' <==> IsOp(tail, '(')
    ensures Find(s, p) == Got(t, p, p + |SpellToken(t)|)
  {
    match t
    case Number(numeral) => FindNumber(numeral, s, p);
    case Name(name, call) => FindName(name, call, s, p);
    case Op(op) =>
      assert s[p] == [op][0];
      FindSign(op, s, p);
  }

  lemma SpeltApart(w: string, rest: string, s: string, p: nat)
    requires p <= |s| && s[p..] == w + (" " + rest)
    ensures Stands(w, s, p) && p + |w| < |s| && s[p + |w|] == ' ' && s[p + |w| + 1..] == rest
  {
    assert s[p..p + |w|] == s[p..][..|w|];
    assert s[p..][|w|] == (" " + rest)[0];
    assert s[p + |w| + 1..] == s[p..][|w| + 1..];
  }

  /** A space, and then what comes after it. */
  lemma PastOneSpace(rest: string, s: string, p: nat)
    requires p < |s| && s[p] == ' ' && s[p + 1..] == rest && (rest != "" ==> !IsSpace(rest[0]))
    ensures SkipSpace(s, p) == p + 1 && At(s, p + 1) == At(rest, 0)
  {
    assert rest != "" ==> s[p + 1] == s[p + 1..][0];
  }

  lemma ScanPastSpace(s: string, p: nat)
    requires p < |s| && IsSpace(s[p])
    ensures Scan(s, p) == Scan(s, p + 1)
  {
    FindSees(s, p);
    FindSees(s, p + 1);
  }

  /** Past a token and the space behind it. */
  lemma StepOver(w: string, rest: string, s: string, p: nat)
    requires p <= |s| && s[p..] == w + (" " + rest) && (rest != "" ==> !IsSpace(rest[0]))
    ensures var q := p + |w| + 1;
            && q <= |s| && s[q..] == rest && Stands(w, s, p) && At(s, p + |w|) == ' '
            && At(s, SkipSpace(s, p + |w|)) == At(rest, 0) && Scan(s, q - 1) == Scan(s, q)
  {
    SpeltApart(w, rest, s, p);
    PastOneSpace(rest, s, p + |w|);
    ScanPastSpace(s, p + |w|);
  }

  lemma SpeltBroken(c: char, s: string, p: nat)
    requires Unscannable(c) && p <= |s| && s[p..] == [c]
    ensures Scan(s, p) == Broken(c)
  {
    assert s[p..][0] == c && |s| == p + 1;
    FindSees(s, p);
  }

  /** And every text scans to tokens that can be. */
  lemma {:induction false} ScansAreScannable(s: string, p: nat)
    requires p <= |s|
    ensures Scannable(Scan(s, p))
    decreases |s| - p
  {
    FindSees(s, p);
    match Find(s, p)
    case Nothing =>
    case Unreadable(_) =>
    case Got(token, _, end) =>
      BracketNext(s, end);
      ScansAreScannable(s, end);
  }

  // ------------------------------------------------ operators typed as words

  /** How a sign may be typed, by its word or as it is; a bracket behind it would make a call of the word. */
  function Typed(t: Token, tail: Tokens, byWord: bool): string {
    if !byWord || !t.Op? || IsOp(tail, '(') then SpellToken(t)
    else match t.op
      case '+' => "plus"
      case '-' => "minus"
      case '*' => "multiply"
      case '/' => "divide"
      case '^' => "pow"
      case _ => SpellToken(t)
  }

  /** The tokens with a space after each, some of the signs typed by their words. */
  function TypeOut(ts: Tokens, byWord: nat -> bool, i: nat): string {
    match ts
    case Next(head, tail) => Typed(head, tail, byWord(i)) + " " + TypeOut(tail, byWord, i + 1)
    case Broken(c) => [c]
    case End => ""
  }

  lemma TypedStart(ts: Tokens, byWord: nat -> bool, i: nat)
    requires Scannable(ts)
    ensures var w := TypeOut(ts, byWord, i);
            && (ts == End <==> w == "")
            && (w != "" ==> !IsSpace(w[0]) && (w[0] == '(' <==> IsOp(ts, '(')))
  {
    SpellStart(ts);
    if ts.Next? {
      var w := Typed(ts.head, ts.tail, byWord(i));
      assert TypeOut(ts, byWord, i)[0] == w[0];
      assert Spell(ts)[0] == SpellToken(ts.head)[0];
    }
  }

  lemma FindTyped(head: Token, tail: Tokens, byWord: bool, s: string, p: nat)
    requires TokenScans(head, tail)
    requires var w := Typed(head, tail, byWord);
             && Stands(w, s, p) && At(s, p + |w|) == ' '
             && (At(s, SkipSpace(s, p + |w|)) == '(' <==> IsOp(tail, '('))
    ensures Find(s, p) == Got(head, p, p + |Typed(head, tail, byWord)|)
  {
    var w := Typed(head, tail, byWord);
    if w == SpellToken(head) {
      FindToken(head, tail, s, p);
    } else {
      TypedWord(w, head.op, s, p);
    }
  }

  lemma TypedStep(head: Token, tail: Tokens, byWord: nat -> bool, i: nat, s: string, p: nat)
    requires Scannable(tail) && TokenScans(head, tail) && p <= |s|
    requires s[p..] == Typed(head, tail, byWord(i)) + (" " + TypeOut(tail, byWord, i + 1))
    ensures var q := p + |Typed(head, tail, byWord(i))| + 1;
            && q <= |s| && s[q..] == TypeOut(tail, byWord, i + 1)
            && Find(s, p) == Got(head, p, q - 1) && Scan(s, q - 1) == Scan(s, q)
  {
    var w, rest := Typed(head, tail, byWord(i)), TypeOut(tail, byWord, i + 1);
    var q := p + |w| + 1;
    TypedStart(tail, byWord, i + 1);
    StepOver(w, rest, s, p);
    FindTyped(head, tail, byWord(i), s, p);
  }

  lemma {:induction false} ScanTypedAt(ts: Tokens, byWord: nat -> bool, i: nat, s: string, p: nat)
    requires Scannable(ts) && p <= |s| && s[p..] == TypeOut(ts, byWord, i)
    ensures Scan(s, p) == ts
    decreases ts
  {
    match ts
    case End => FindSees(s, p);
    case Broken(c) => SpeltBroken(c, s, p);
    case Next(head, tail) =>
      var q := p + |Typed(head, tail, byWord(i))| + 1;
      TypedStep(head, tail, byWord, i, s, p);
      ScanTypedAt(tail, byWord, i + 1, s, q);
  }

  /** Whichever of its signs are typed by their words, a formula scans to the same tokens. */
  lemma ScanTyped(ts: Tokens, byWord: nat -> bool)
    requires Scannable(ts)
    ensures Scan(TypeOut(ts, byWord, 0), 0) == ts
  {
    assert TypeOut(ts, byWord, 0)[0..] == TypeOut(ts, byWord, 0);
    ScanTypedAt(ts, byWord, 0, TypeOut(ts, byWord, 0), 0);
  }

  lemma {:induction false} NoneByWord(ts: Tokens, i: nat)
    ensures TypeOut(ts, _ => false, i) == Spell(ts)
  {
    if ts.Next? { NoneByWord(ts.tail, i + 1); }
  }

  /** Spelt out and scanned again, tokens are as they were. */
  lemma ScanSpelt(ts: Tokens)
    requires Scannable(ts)
    ensures Scan(Spell(ts), 0) == ts
  {
    NoneByWord(ts, 0);
    ScanTyped(ts, _ => false);
  }
}
