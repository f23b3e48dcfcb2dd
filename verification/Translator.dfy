/** The one-pass translator: it reads a formula and writes the RPN as it reads. */
module Translator {
  import opened Basics
  import opened Text
  import opened Numeral
  import opened Formula
  import opened Scanner
  import opened Compiler
  import Rpn
  import Words

  /** Why a text is no formula, as the message line says it. */
  datatype Complaint =
    | Fine | TooLong | NumberTooLong | NameTooLong | NeedsBrackets(name: string) | MissingBracket | TooDeep
    | NothingAfter(op: char) | NothingToWorkOut | NothingBefore(op: char) | CannotRead(at: char)
    | Unexpected(word: string)

  datatype Kind = AtEnd | AtNumber | AtName | AtOp

  /** Whether the words, each written in turn, stay within a buffer of that size. A word asks for
      room for a space before it and a NUL after it, even the first. */
  predicate Fits(words: seq<string>, cap: nat) {
    words == [] ||
    var front, last := words[..|words| - 1], words[|words| - 1];
    Fits(front, cap) && |Join(front)| + |last| + 2 <= cap
  }

  predicate AllWords(words: seq<string>) {
    forall i :: 0 <= i < |words| ==> IsWord(words[i])
  }

  lemma FitsOneMore(words: seq<string>, w: string, cap: nat)
    ensures Fits(words + [w], cap) <==> Fits(words, cap) && |Join(words)| + |w| + 2 <= cap
  {
    assert (words + [w])[..|words|] == words;
  }

  lemma {:induction false} FitsPrefix(a: seq<string>, b: seq<string>, cap: nat)
    requires Fits(a + b, cap)
    ensures Fits(a, cap)
    decreases |b|
  {
    if b == [] {
      assert a + b == a;
    } else {
      assert (a + b)[..|a + b| - 1] == a + b[..|b| - 1];
      FitsPrefix(a, b[..|b| - 1], cap);
    }
  }

  lemma JoinedIsEmpty(words: seq<string>)
    requires AllWords(words)
    ensures |Join(words)| == 0 <==> words == []
  {
    if words != [] { assert IsWord(words[0]); }
  }

  /** Once it has overflowed, more words do not help. */
  lemma Overflows(had: seq<string>, some: seq<string>, more: seq<string>, cap: nat)
    requires !Fits(had + some, cap)
    ensures !Fits(had + (some + more), cap)
  {
    if Fits(had + (some + more), cap) {
      assert had + (some + more) == (had + some) + more;
      FitsPrefix(had + some, more, cap);
    }
  }

  lemma Regrouped(had: seq<string>, a: seq<string>, b: seq<string>)
    ensures had + a + b == had + (a + b)
  {
  }

  class Parser {
    const text: string
    const out: array<char>
    var p: nat
    var kind: Kind
    var start: nat
    var len: nat
    var op: char
    var lastOp: char
    var used: nat
    var error: Complaint
    var failed: bool
    var depth: int
    /** The tokens still to be read, the current one first, and the words written so far. */
    ghost var rest: Tokens
    ghost var words: seq<string>

    /** The fields of the current token say what it is. */
    ghost predicate InStep()
      reads `kind, `start, `len, `op, `rest
    {
      InStepCovered(3)
    }

    /** The same under covers, which a proof takes off where it has to look. */
    ghost predicate InStepCovered(covers: nat)
      reads `kind, `start, `len, `op, `rest
      decreases covers, this
    {
      if covers == 0 then
        && (kind.AtEnd? <==> !rest.Next?)
        && (kind.AtNumber? <==> rest.Next? && rest.head.Number?)
        && (kind.AtName? <==> rest.Next? && rest.head.Name?)
        && (kind.AtOp? ==> rest.head == Op(op))
        && (kind.AtNumber? ==> start + len <= |text| && rest.head.numeral == text[start..start + len])
        && (kind.AtName? ==> start + len <= |text| && rest.head.name == text[start..start + len])
      else InStepCovered(covers - 1)
    }

    lemma OpenInStep()
      ensures InStep() <==> InStepCovered(0)
    {
      assert InStepCovered(1) <==> InStepCovered(0);
      assert InStepCovered(2) <==> InStepCovered(1);
    }

    /** What lies behind the current token is what the scanner finds from p on. */
    ghost predicate Scanning()
      reads `p, `rest
    {
      ScanningCovered(3)
    }

    /** The same under covers, which a proof takes off where it has to look. */
    ghost predicate ScanningCovered(covers: nat)
      reads `p, `rest
      decreases covers, this
    {
      if covers == 0 then
        && p <= |text|
        && (if rest.Next? then rest.tail else rest) == Scan(text, p)
        && (rest.Next? && rest.head.Name? ==> (rest.head.call <==> At(text, SkipSpace(text, p)) == '('))
      else ScanningCovered(covers - 1)
    }

    /** What is in the buffer is the words emitted, joined, and a NUL. */
    ghost predicate Writing()
      reads `used, `words, `failed, `error, out
    {
      WritingCovered(3)
    }

    /** The same under covers, which a proof takes off where it has to look. */
    ghost predicate WritingCovered(covers: nat)
      reads `used, `words, `failed, `error, out
      decreases covers, this
    {
      if covers == 0 then
        && AllWords(words) && Fits(words, out.Length)
        && used <= out.Length && out[..used] == Join(words)
        && (out.Length > 0 ==> used < out.Length && out[used] == NUL)
        && (failed <==> error != Fine)
      else WritingCovered(covers - 1)
    }

    lemma OpenScanning()
      ensures Scanning() <==> ScanningCovered(0)
    {
      assert ScanningCovered(1) <==> ScanningCovered(0);
      assert ScanningCovered(2) <==> ScanningCovered(1);
    }

    lemma OpenWriting()
      ensures Writing() <==> WritingCovered(0)
    {
      assert WritingCovered(1) <==> WritingCovered(0);
      assert WritingCovered(2) <==> WritingCovered(1);
    }

    ghost predicate Valid()
      reads this, out
    {
      Scanning() && InStep() && Writing()
    }

    /** No complaint but that of a character which cannot be read, and it is the next thing. */
    ghost predicate Going()
      reads this, out
    {
      Valid() && 0 <= depth <= DEPTH_MAX && (failed <==> rest.Broken?)
    }

    constructor (text: string, out: array<char>)
      requires out.Length > 0 ==> out[0] == NUL
      ensures this.text == text && this.out == out
      ensures Writing() && p == 0 && depth == 0 && !failed && words == []
    {
      this.text := text;
      this.out := out;
      p, kind, start, len := 0, AtEnd, 0, 0;
      op, lastOp := NUL, NUL;
      used, error, failed, depth := 0, Fine, false, 0;
      words := [];
      rest := End;
      new;
      OpenWriting();
    }

    /** The current token as it was typed. */
    function Spelling(): string
      reads `start, `len
    {
      if start + len <= |text| then text[start..start + len] else ""
    }

    /** The first complaint is the one that is shown. */
    method Complain(why: Complaint)
      requires why != Fine && Writing()
      modifies `failed, `error
      ensures Writing() && failed
      ensures error == if old(failed) then old(error) else why
    {
      OpenWriting();
      if !failed {
        error := why;
        failed := true;
      }
      OpenWriting();
    }

    /** The characters after those already written, and a NUL after them. */
    method Put(chars: string)
      requires used + |chars| < out.Length
      modifies `used, out
      ensures used == old(used) + |chars| && out[used] == NUL
      ensures out[..used] == old(out[..used]) + chars
    {
      forall i | 0 <= i < |chars| {
        out[used + i] := chars[i];
      }
      used := used + |chars|;
      out[used] := NUL;
    }

    method Emit(word: string) returns (ok: bool)
      requires Writing() && IsWord(word)
      modifies `used, `words, `failed, `error, out
      ensures Writing()
      ensures ok <==> Fits(old(words) + [word], out.Length)
      ensures ok ==> words == old(words) + [word] && failed == old(failed)
      ensures !ok ==> failed
    {
      OpenWriting();
      FitsOneMore(words, word, out.Length);
      JoinSnoc(words, word);
      if used + |word| + 2 > out.Length {
        Complain(TooLong);
        return false;
      }
      JoinedIsEmpty(words);
      Put(if used > 0 then " " + word else word);
      words := words + [word];
      OpenWriting();
      return true;
    }

    /** Emit, where what is written since had is some. */
    method EmitAfter(word: string, ghost had: seq<string>, ghost some: seq<string>) returns (ok: bool)
      requires Writing() && IsWord(word) && words == had + some
      modifies `used, `words, `failed, `error, out
      ensures Writing()
      ensures ok ==> words == had + (some + [word]) && failed == old(failed)
      ensures !ok ==> failed && !Fits(had + (some + [word]), out.Length)
    {
      Regrouped(had, some, [word]);
      ok := Emit(word);
    }

    /** Past any spaces. */
    method SkipSpaces(from: nat) returns (q: nat)
      requires from <= |text|
      ensures q == SkipSpace(text, from)
    {
      q := from;
      while q < |text| && IsSpace(text[q])
        invariant from <= q <= |text| && SkipSpace(text, from) == SkipSpace(text, q)
      {
        q := q + 1;
      }
    }

    method SkipOverDigits(from: nat) returns (q: nat)
      requires from <= |text|
      ensures q == SkipDigits(text, from)
    {
      q := from;
      while q < |text| && IsDigit(text[q])
        invariant from <= q <= |text| && SkipDigits(text, from) == SkipDigits(text, q)
      {
        q := q + 1;
      }
    }

    method NumberStop(from: nat) returns (q: nat)
      requires from <= |text|
      ensures q == NumberEnd(text, from)
    {
      q := SkipOverDigits(from);
      if At(text, q) == '.' {
        q := SkipOverDigits(q + 1);
      }
      // Without digits behind it the mark is a name, the number e
      if StartsExponent(text, q) {
        q := SkipOverDigits(q + 2);
      }
    }

    method NameStop(from: nat) returns (q: nat)
      requires from <= |text|
      ensures q == NameEnd(text, from)
    {
      q := from;
      while q < |text| && Rpn.NameChar(text[q])
        invariant from <= q <= |text| && NameEnd(text, from) == NameEnd(text, q)
      {
        q := q + 1;
      }
    }

    /** What stands at p, found by walking over it. */
    method Look() returns (f: Found)
      requires p <= |text|
      ensures f == Find(text, p)
    {
      FindSees(text, p);
      var i := SkipSpaces(p);
      if At(text, i) == NUL {
        return Nothing;
      }
      if StartsNumber(text, i) {
        var j := NumberStop(i);
        CutIsNumeral(text, i);
        return Got(Number(text[i..j]), i, j);
      }
      if Rpn.NameStart(text[i]) {
        var j := NameStop(i + 1);
        Rpn.OpenName(text[i..j]);
        // With a bracket behind it a word is called, even one that is an operator by itself
        var bracket := SkipSpaces(j);
        var call := At(text, bracket) == '(';
        var sign := if call then NUL else OperatorOf(text[i..j]);
        return Got(if sign != NUL then Op(sign) else Name(text[i..j], call), i, j);
      }
      if IsSymbol(text[i]) {
        return Got(Op(text[i]), i, i + 1);
      }
      return Unreadable(text[i]);
    }

    /** From p to the token there, whatever came before. */
    method Move()
      requires p <= |text| && Writing()
      modifies `p, `kind, `start, `len, `op, `lastOp, `failed, `error, `rest
      ensures Scanning() && InStep() && Writing()
      ensures rest == Scan(text, old(p))
      ensures failed <==> old(failed) || rest.Broken?
    {
      lastOp := if kind.AtOp? then op else NUL;
      var f := Look();
      rest := Scan(text, p);
      if f.Got? {
        FoundStands(text, p);
        Take(f.token, f.start, f.end);
      } else {
        if f.Unreadable? {
          Complain(CannotRead(f.at));
        }
        kind, start, len := AtEnd, p, 0;
        OpenScanning();
        OpenInStep();
      }
    }

    method Take(token: Token, from: nat, end: nat)
      requires from <= end <= |text| && rest == Next(token, Scan(text, end))
      requires token.Number? ==> token.numeral == text[from..end]
      requires token.Name? ==> token.name == text[from..end] && (token.call <==> At(text, SkipSpace(text, end)) == '(')
      modifies `p, `kind, `start, `len, `op
      ensures Scanning() && InStep()
    {
      start, len, p := from, end - from, end;
      match token {
        case Number(_) => kind := AtNumber;
        case Name(_, _) => kind := AtName;
        case Op(sign) => kind, op := AtOp, sign;
      }
      OpenScanning();
      OpenInStep();
    }

    /** On to the next token. */
    method Advance()
      requires Going() && rest.Next?
      modifies `p, `kind, `start, `len, `op, `lastOp, `failed, `error, `rest
      ensures Scanning() && InStep() && Writing()
      ensures rest == old(rest).tail
      ensures failed <==> rest.Broken?
      ensures old(rest).head.Name? ==> (old(rest).head.call <==> IsOp(rest, '('))
    {
      OpenScanning();
      BracketNext(text, p);
      Move();
    }

    predicate IsSign(sign: char)
      requires InStep()
      reads `kind, `start, `len, `op, `rest
      ensures IsSign(sign) <==> IsOp(rest, sign)
      ensures IsSign(sign) ==> op == sign
    {
      OpenInStep();
      kind.AtOp? && op == sign
    }

    /** Where a value begins. */
    predicate AtValue()
      requires InStep()
      reads `kind, `start, `len, `op, `rest
      ensures AtValue() <==> StartsValue(rest)
    {
      OpenInStep();
      kind.AtNumber? || kind.AtName? || IsSign('(')
    }

    /** Where a value begins that may stand beside another, to be multiplied by it. */
    predicate AtBeside()
      requires InStep()
      reads `kind, `start, `len, `op, `rest
      ensures AtBeside() <==> StartsBeside(rest)
    {
      OpenInStep();
      kind.AtName? || IsSign('(')
    }

    /** One of the TI's squares, inverses and factorials, which come after their argument. */
    predicate AtPostfix()
      requires Scanning() && InStep()
      reads `p, `kind, `start, `len, `op, `rest
      ensures AtPostfix() <==> IsPostfix(rest)
    {
      OpenScanning();
      OpenInStep();
      IsSign('!') ||
      (kind.AtName? && At(text, SkipSpace(text, p)) != '(' && IsPostfixWord(text[start..start + len]))
    }

    /** A number, written as a float. */
    method ReadNumber() returns (ok: bool)
      requires Going() && rest.Next? && rest.head.Number?
      modifies this, out
      ensures Valid()
      ensures var numeral := old(rest).head.numeral;
              if ok then Going() && depth == old(depth) && rest == old(rest).tail && IsShortNumber(numeral)
                         && words == old(words) + [FloatText(numeral)]
              else failed && (IsShortNumber(numeral) ==> !Fits(old(words) + [FloatText(numeral)], out.Length))
    {
      OpenInStep();
      if len + 4 > 64 {
        Complain(NumberTooLong);
        return false;
      }
      var numeral: NumeralText := text[start..start + len];
      var float := FloatOf(numeral);
      Advance();
      FloatIsWord(numeral);
      ok := Emit(float);
    }

    /** A name: a call, if a bracket comes next, or else by itself or with one argument after it. */
    method ReadName() returns (ok: bool, ghost r: Parsed<Primary>)
      requires Going() && rest.Next? && rest.head.Name?
      modifies this, out
      ensures Valid() && r == ParsePrimary(old(rest), DEPTH_MAX - old(depth))
      ensures ok ==> Going() && depth == old(depth)
      ensures ok ==> r.Done? && rest == r.rest && words == old(words) + PostPrimary(r.tree)
      ensures !ok ==> failed && (r.Done? ==> !Fits(old(words) + PostPrimary(r.tree), out.Length))
      decreases Length(rest), 0
    {
      OpenInStep();
      r := ParsePrimary(rest, DEPTH_MAX - depth);
      if len >= NAME_MAX {
        Complain(NameTooLong);
        return false, r;
      }
      var name: NameText := text[start..start + len];
      NameIsWord(name);
      Advance();
      if IsSign('(') {
        ok := ReadCall(name, r);
      } else {
        ok := ReadBare(name, r);
      }
    }

    /** Without a bracket: an argument follows where the word is known to take one, and nothing where it takes none. */
    method ReadBare(name: NameText, ghost r: Parsed<Primary>) returns (ok: bool)
      requires Going() && IsShortName(name) && IsWord(name)
      requires r == ParsePrimary(Next(Name(name, false), rest), DEPTH_MAX - depth)
      modifies this, out
      ensures Valid()
      ensures ok ==> Going() && depth == old(depth)
      ensures ok ==> r.Done? && rest == r.rest && words == old(words) + PostPrimary(r.tree)
      ensures !ok ==> failed && (r.Done? ==> !Fits(old(words) + PostPrimary(r.tree), out.Length))
      decreases Length(rest), 5
    {
      var effect := Words.EffectOf(name);
      if effect.Some? && effect.value.takes > 0 {
        if effect.value.takes != 1 || effect.value.leaves != 1 || !AtValue() {
          Complain(NeedsBrackets(name));
          return false;
        }
        ghost var arg;
        ok, arg := ReadUnary();
        if !ok {
          if arg.Done? { Overflows(old(words), PostUnary(arg.tree), [name], out.Length); }
          return;
        }
        ok := EmitAfter(name, old(words), PostUnary(arg.tree));
        return;
      }
      ok := Emit(name);
    }

    /** The arguments of a call, from its opening bracket, and then its name. */
    method ReadCall(name: NameText, ghost r: Parsed<Primary>) returns (ok: bool)
      requires Going() && IsOp(rest, '(') && IsShortName(name) && IsWord(name)
      requires r == ParsePrimary(Next(Name(name, true), rest), DEPTH_MAX - depth)
      modifies this, out
      ensures Valid()
      ensures ok ==> Going() && depth == old(depth)
      ensures ok ==> r.Done? && rest == r.rest && words == old(words) + PostPrimary(r.tree)
      ensures !ok ==> failed && (r.Done? ==> !Fits(old(words) + PostPrimary(r.tree), out.Length))
      decreases Length(rest), 0
    {
      Advance();
      ghost var args := Done(NoMore, rest);
      if !IsSign(')') {
        var count;
        ok, count, args := ReadSums();
        if !ok {
          if args.Done? { Overflows(old(words), PostSums(args.tree), [name], out.Length); }
          return;
        }
      }
      ok := EndCall(name, old(words), PostSums(args.tree));
    }

    method EndCall(name: NameText, ghost had: seq<string>, ghost posted: seq<string>) returns (ok: bool)
      requires Going() && IsWord(name) && words == had + posted
      modifies this, out
      ensures Valid()
      ensures ok ==> Going() && depth == old(depth) && IsOp(old(rest), ')') && rest == old(rest).tail
      ensures ok ==> words == had + (posted + [name])
      ensures !ok ==> failed && (IsOp(old(rest), ')') ==> !Fits(had + (posted + [name]), out.Length))
    {
      if !IsSign(')') {
        Complain(MissingBracket);
        return false;
      }
      Advance();
      ok := EmitAfter(name, had, posted);
    }

    method ReadPrimary() returns (ok: bool, ghost r: Parsed<Primary>)
      requires Going()
      modifies this, out
      ensures Valid() && r == ParsePrimary(old(rest), DEPTH_MAX - old(depth))
      ensures ok ==> Going() && depth == old(depth)
      ensures ok ==> r.Done? && rest == r.rest && words == old(words) + PostPrimary(r.tree)
      ensures !ok ==> failed && (r.Done? ==> !Fits(old(words) + PostPrimary(r.tree), out.Length))
      decreases Length(rest), 1
    {
      OpenInStep();
      r := ParsePrimary(rest, DEPTH_MAX - depth);
      if failed {
        return false, r;
      }
      if kind.AtNumber? {
        ok := ReadNumber();
        return;
      }
      if kind.AtName? {
        ok, r := ReadName();
        return;
      }
      if IsSign('(') {
        ok := ReadBracket(r);
        return;
      }
      ComplainOfNothing();
      return false, r;
    }

    /** A sum in brackets, which must be closed and not too deep. */
    method ReadBracket(ghost r: Parsed<Primary>) returns (ok: bool)
      requires Going() && IsOp(rest, '(') && r == ParsePrimary(rest, DEPTH_MAX - depth)
      modifies this, out
      ensures Valid()
      ensures ok ==> Going() && depth == old(depth)
      ensures ok ==> r.Done? && rest == r.rest && words == old(words) + PostPrimary(r.tree)
      ensures !ok ==> failed && (r.Done? ==> !Fits(old(words) + PostPrimary(r.tree), out.Length))
      decreases Length(rest), 0
    {
      depth := depth + 1;
      if depth > DEPTH_MAX {
        Complain(TooDeep);
        return false;
      }
      Advance();
      ghost var inner;
      ok, inner := ReadSum();
      if !ok {
        return;
      }
      if !IsSign(')') {
        Complain(MissingBracket);
        return false;
      }
      depth := depth - 1;
      Advance();
    }

    /** Where a value should be and is not. */
    method ComplainOfNothing()
      requires Writing()
      modifies `failed, `error
      ensures Writing() && failed
    {
      if lastOp != NUL && lastOp != '(' && lastOp != ',' {
        Complain(NothingAfter(lastOp));
      } else if kind.AtEnd? {
        Complain(NothingToWorkOut);
      } else {
        Complain(NothingBefore(op));
      }
    }

    method ReadPostfixed() returns (ok: bool, ghost r: Parsed<Postfixed>)
      requires Going()
      modifies this, out
      ensures Valid() && r == ParsePostfixed(old(rest), DEPTH_MAX - old(depth))
      ensures ok ==> Going() && depth == old(depth)
      ensures ok ==> r.Done? && rest == r.rest && words == old(words) + PostPostfixed(r.tree)
      ensures !ok ==> failed && (r.Done? ==> !Fits(old(words) + PostPostfixed(r.tree), out.Length))
      decreases Length(rest), 2
    {
      r := ParsePostfixed(rest, DEPTH_MAX - depth);
      ghost var base;
      ok, base := ReadPrimary();
      if !ok {
        if base.Done? {
          var more := PostfixTailGrows(base.tree, [], base.rest);
          assert PostPostfixed(Postfixed(base.tree, [])) == PostPrimary(base.tree);
          Overflows(old(words), PostPrimary(base.tree), more, out.Length);
        }
        return;
      }
      ghost var posts: seq<Postfix> := [];
      while AtPostfix()
        invariant Going() && depth == old(depth)
        invariant PostfixTail(base.tree, posts, rest) == (r.tree, r.rest)
        invariant words == old(words) + PostPostfixed(Postfixed(base.tree, posts))
        decreases Length(rest)
      {
        ok, posts := ReadPost(base.tree, posts, old(words));
        if !ok {
          return;
        }
      }
      return true, r;
    }

    method CurrentPost() returns (post: Postfix)
      requires InStep() && IsPostfix(rest)
      ensures post == PostfixOf(rest.head) && IsWord(PostWord(post))
    {
      OpenInStep();
      post := if IsSign('!') then Bang else Word(text[start..start + len]);
      if post.Word? { NameIsWord(post.word); }
    }

    /** One turn of the loop: a word applied to the value before it. */
    method ReadPost(ghost base: Primary, ghost seen: seq<Postfix>, ghost had: seq<string>)
      returns (ok: bool, ghost posts: seq<Postfix>)
      requires Going() && IsPostfix(rest) && words == had + PostPostfixed(Postfixed(base, seen))
      modifies this, out
      ensures Valid()
      ensures ok ==> Going() && depth == old(depth) && Length(rest) < Length(old(rest))
      ensures ok ==> PostfixTail(base, posts, rest) == PostfixTail(base, seen, old(rest))
      ensures ok ==> words == had + PostPostfixed(Postfixed(base, posts))
      ensures !ok ==> failed && !Fits(had + PostPostfixed(PostfixTail(base, seen, old(rest)).0), out.Length)
    {
      var post := CurrentPost();
      posts := seen + [post];
      PostOneMore(Postfixed(base, seen), post);
      ghost var more := PostfixTailGrows(base, posts, rest.tail);
      Advance();
      ok := EmitAfter(PostWord(post), had, PostPostfixed(Postfixed(base, seen)));
      if !ok {
        Overflows(had, PostPostfixed(Postfixed(base, posts)), more, out.Length);
      }
    }

    /** Powers group to the right, and an exponent may have a sign. */
    method ReadPower() returns (ok: bool, ghost r: Parsed<Power>)
      requires Going()
      modifies this, out
      ensures Valid() && r == ParsePower(old(rest), DEPTH_MAX - old(depth))
      ensures ok ==> Going() && depth == old(depth)
      ensures ok ==> r.Done? && rest == r.rest && words == old(words) + PostPower(r.tree)
      ensures !ok ==> failed && (r.Done? ==> !Fits(old(words) + PostPower(r.tree), out.Length))
      decreases Length(rest), 3
    {
      r := ParsePower(rest, DEPTH_MAX - depth);
      ghost var base;
      ok, base := ReadPostfixed();
      if !ok {
        if base.Done? { RaisedOverflows(old(words), base.tree, base.rest, DEPTH_MAX - old(depth), out.Length); }
        return;
      }
      if IsSign('^') {
        ok := ReadExponent(old(words), PostPostfixed(base.tree));
      }
    }

    method ReadExponent(ghost had: seq<string>, ghost base: seq<string>) returns (ok: bool)
      requires Going() && IsOp(rest, '^') && words == had + base
      modifies this, out
      ensures Valid()
      ensures var r := ParseUnary(old(rest).tail, DEPTH_MAX - old(depth));
              if ok then Going() && depth == old(depth) && r.Done? && rest == r.rest
                         && words == had + (base + PostUnary(r.tree) + ["pow"])
              else failed && (r.Done? ==> !Fits(had + (base + PostUnary(r.tree) + ["pow"]), out.Length))
      decreases Length(rest), 1
    {
      ghost var exponent;
      ok, exponent := ReadNextUnary();
      if ok {
        Regrouped(had, base, PostUnary(exponent.tree));
        ok := EmitAfter("pow", had, base + PostUnary(exponent.tree));
      } else if exponent.Done? {
        BothOverflow(had, base, PostUnary(exponent.tree), ["pow"], out.Length);
      }
    }

    /** Past the current token, and then what a sign may begin. */
    method ReadNextUnary() returns (ok: bool, ghost r: Parsed<Unary>)
      requires Going() && rest.Next?
      modifies this, out
      ensures Valid() && r == ParseUnary(old(rest).tail, DEPTH_MAX - old(depth))
      ensures ok ==> Going() && depth == old(depth)
      ensures ok ==> r.Done? && rest == r.rest && words == old(words) + PostUnary(r.tree)
      ensures !ok ==> failed && (r.Done? ==> !Fits(old(words) + PostUnary(r.tree), out.Length))
      decreases Length(rest), 0
    {
      Advance();
      ok, r := ReadUnary();
    }

    method ReadUnary() returns (ok: bool, ghost r: Parsed<Unary>)
      requires Going()
      modifies this, out
      ensures Valid() && r == ParseUnary(old(rest), DEPTH_MAX - old(depth))
      ensures ok ==> Going() && depth == old(depth)
      ensures ok ==> r.Done? && rest == r.rest && words == old(words) + PostUnary(r.tree)
      ensures !ok ==> failed && (r.Done? ==> !Fits(old(words) + PostUnary(r.tree), out.Length))
      decreases Length(rest), 4
    {
      r := ParseUnary(rest, DEPTH_MAX - depth);
      depth := depth + 1;
      if depth > DEPTH_MAX {
        Complain(TooDeep);
        return false, r;
      }
      ok := ReadSigned(r);
      depth := depth - 1;
    }

    method ReadSigned(ghost r: Parsed<Unary>) returns (ok: bool)
      requires Going() && depth > 0 && r == ParseUnary(rest, DEPTH_MAX - depth + 1)
      modifies this, out
      ensures Valid()
      ensures ok ==> Going() && depth == old(depth)
      ensures ok ==> r.Done? && rest == r.rest && words == old(words) + PostUnary(r.tree)
      ensures !ok ==> failed && (r.Done? ==> !Fits(old(words) + PostUnary(r.tree), out.Length))
      decreases Length(rest), 4, 0
    {
      if IsSign('-') {
        ok := ReadNegated();
      } else if IsSign('+') {
        ok := ReadPositive();
      } else {
        ghost var power;
        ok, power := ReadPower();
      }
    }

    /** What follows a plus. */
    method ReadPositive() returns (ok: bool)
      requires Going() && IsOp(rest, '+')
      modifies this, out
      ensures Valid()
      ensures var r := ParseUnary(old(rest).tail, DEPTH_MAX - old(depth));
              if ok then Going() && depth == old(depth) && r.Done? && rest == r.rest
                         && words == old(words) + PostUnary(Plus(r.tree))
              else failed && (r.Done? ==> !Fits(old(words) + PostUnary(Plus(r.tree)), out.Length))
      decreases Length(rest), 1
    {
      ghost var arg;
      ok, arg := ReadNextUnary();
    }

    /** What follows a minus, and then its word. */
    method ReadNegated() returns (ok: bool)
      requires Going() && IsOp(rest, '-')
      modifies this, out
      ensures Valid()
      ensures var r := ParseUnary(old(rest).tail, DEPTH_MAX - old(depth));
              if ok then Going() && depth == old(depth) && r.Done? && rest == r.rest
                         && words == old(words) + PostUnary(Minus(r.tree))
              else failed && (r.Done? ==> !Fits(old(words) + PostUnary(Minus(r.tree)), out.Length))
      decreases Length(rest), 1
    {
      ghost var arg;
      ok, arg := ReadNextUnary();
      if ok {
        ok := EmitAfter("neg", old(words), PostUnary(arg.tree));
      } else if arg.Done? {
        Overflows(old(words), PostUnary(arg.tree), ["neg"], out.Length);
      }
    }

    method ReadNextProduct() returns (ok: bool, ghost r: Parsed<Product>)
      requires Going() && rest.Next?
      modifies this, out
      ensures Valid() && r == ParseProduct(old(rest).tail, DEPTH_MAX - old(depth))
      ensures ok ==> Going() && depth == old(depth)
      ensures ok ==> r.Done? && rest == r.rest && words == old(words) + PostProduct(r.tree)
      ensures !ok ==> failed && (r.Done? ==> !Fits(old(words) + PostProduct(r.tree), out.Length))
      decreases Length(rest), 0
    {
      Advance();
      ok, r := ReadProduct();
    }

    method ReadProduct() returns (ok: bool, ghost r: Parsed<Product>)
      requires Going()
      modifies this, out
      ensures Valid() && r == ParseProduct(old(rest), DEPTH_MAX - old(depth))
      ensures ok ==> Going() && depth == old(depth)
      ensures ok ==> r.Done? && rest == r.rest && words == old(words) + PostProduct(r.tree)
      ensures !ok ==> failed && (r.Done? ==> !Fits(old(words) + PostProduct(r.tree), out.Length))
      decreases Length(rest), 5
    {
      ghost var room := DEPTH_MAX - depth;
      r := ParseProduct(rest, room);
      ghost var first;
      ok, first := ReadUnary();
      FirstFactor(old(rest), first, old(words), room, out.Length);
      if !ok {
        return;
      }
      ok := ReadFactors(Factor(first.tree), old(words), r);
    }

    /** The factors after the first. */
    method ReadFactors(ghost first: Product, ghost had: seq<string>, ghost r: Parsed<Product>) returns (ok: bool)
      requires Going() && words == had + PostProduct(first) && r == Factors(first, rest, DEPTH_MAX - depth)
      modifies this, out
      ensures Valid()
      ensures ok ==> Going() && depth == old(depth)
      ensures ok ==> r.Done? && rest == r.rest && words == had + PostProduct(r.tree)
      ensures !ok ==> failed && (r.Done? ==> !Fits(had + PostProduct(r.tree), out.Length))
      decreases Length(rest), 5, 0
    {
      ghost var left := first;
      while IsSign('*') || IsSign('/') || AtBeside()
        invariant Going() && depth == old(depth)
        invariant Factors(left, rest, DEPTH_MAX - depth) == r && words == had + PostProduct(left)
        invariant Length(rest) <= Length(old(rest))
        decreases Length(rest)
      {
        ok, left := ReadAnother(left, had, r);
        if !ok {
          return;
        }
      }
      NoMoreFactors(left, rest, DEPTH_MAX - depth);
      return true;
    }

    /** One turn of the loop. */
    method ReadAnother(ghost left: Product, ghost had: seq<string>, ghost r: Parsed<Product>)
      returns (ok: bool, ghost tree: Product)
      requires Going() && words == had + PostProduct(left)
      requires IsOp(rest, '*') || IsOp(rest, '/') || StartsBeside(rest)
      requires r == Factors(left, rest, DEPTH_MAX - depth)
      modifies this, out
      ensures Valid()
      ensures ok ==> Going() && depth == old(depth) && Length(rest) < Length(old(rest))
      ensures ok ==> Factors(tree, rest, DEPTH_MAX - depth) == r && words == had + PostProduct(tree)
      ensures !ok ==> failed && (r.Done? ==> !Fits(had + PostProduct(r.tree), out.Length))
      decreases Length(rest), 4, 1
    {
      if IsSign('*') || IsSign('/') {
        ok, tree := ReadFactor(left, had, r);
      } else {
        ok, tree := ReadBeside(left, had, r);
      }
    }

    /** A factor after * or /. */
    method ReadFactor(ghost left: Product, ghost had: seq<string>, ghost r: Parsed<Product>)
      returns (ok: bool, ghost tree: Product)
      requires Going() && words == had + PostProduct(left) && (IsOp(rest, '*') || IsOp(rest, '/'))
      requires r == Factors(left, rest, DEPTH_MAX - depth)
      modifies this, out
      ensures Valid()
      ensures ok ==> Going() && depth == old(depth) && Length(rest) < Length(old(rest))
      ensures ok ==> Factors(tree, rest, DEPTH_MAX - depth) == r && words == had + PostProduct(tree)
      ensures !ok ==> failed && (r.Done? ==> !Fits(had + PostProduct(r.tree), out.Length))
      decreases Length(rest), 4, 0
    {
      OpenInStep();
      var sign := op;
      ghost var room := DEPTH_MAX - depth;
      FactorStep(left, rest, room);
      ghost var right;
      ok, right := ReadNextUnary();
      tree := if right.Fail? then left else Multiplied(left, sign, right.tree);
      if ok {
        ok := EmitFactor(sign, left, right.tree, had);
      } else if right.Done? {
        FactorOverflows(had, left, sign, right.tree, out.Length);
      }
      if !ok && right.Done? { ProductOverflows(had, tree, right.rest, room, out.Length); }
    }

    method EmitFactor(sign: char, ghost left: Product, ghost right: Unary, ghost had: seq<string>) returns (ok: bool)
      requires Writing() && words == had + PostProduct(left) + PostUnary(right) && (sign == '*' || sign == '/')
      modifies `used, `words, `failed, `error, out
      ensures Writing()
      ensures ok ==> words == had + PostProduct(Multiplied(left, sign, right)) && failed == old(failed)
      ensures !ok ==> failed && !Fits(had + PostProduct(Multiplied(left, sign, right)), out.Length)
    {
      PostMultiplied(left, sign, right);
      Regrouped(had, PostProduct(left), PostUnary(right));
      ok := EmitAfter(FactorWord(sign), had, PostProduct(left) + PostUnary(right));
    }

    /** Two values side by side, the second no number, are multiplied. */
    method ReadBeside(ghost left: Product, ghost had: seq<string>, ghost r: Parsed<Product>)
      returns (ok: bool, ghost tree: Product)
      requires Going() && words == had + PostProduct(left) && StartsBeside(rest)
      requires r == Factors(left, rest, DEPTH_MAX - depth)
      modifies this, out
      ensures Valid()
      ensures ok ==> Going() && depth == old(depth) && Length(rest) < Length(old(rest))
      ensures ok ==> Factors(tree, rest, DEPTH_MAX - depth) == r && words == had + PostProduct(tree)
      ensures !ok ==> failed && (r.Done? ==> !Fits(had + PostProduct(r.tree), out.Length))
      decreases Length(rest), 4, 0
    {
      ghost var room := DEPTH_MAX - depth;
      BesideStep(left, rest, room);
      ghost var next;
      ok, next := ReadPower();
      tree := if next.Fail? then left else Beside(left, next.tree);
      if ok {
        ok := EmitBeside(left, next.tree, had);
      } else if next.Done? {
        BothOverflow(had, PostProduct(left), PostPower(next.tree), ["*"], out.Length);
      }
      if !ok && next.Done? {
        ProductOverflows(had, tree, next.rest, room, out.Length);
      }
    }

    method EmitBeside(ghost left: Product, ghost next: Power, ghost had: seq<string>) returns (ok: bool)
      requires Writing() && words == had + PostProduct(left) + PostPower(next)
      modifies `used, `words, `failed, `error, out
      ensures Writing()
      ensures ok ==> words == had + PostProduct(Beside(left, next)) && failed == old(failed)
      ensures !ok ==> failed && !Fits(had + PostProduct(Beside(left, next)), out.Length)
    {
      assert IsWord("*");
      Regrouped(had, PostProduct(left), PostPower(next));
      ok := EmitAfter("*", had, PostProduct(left) + PostPower(next));
    }

    method ReadSum() returns (ok: bool, ghost r: Parsed<Sum>)
      requires Going()
      modifies this, out
      ensures Valid() && r == ParseSum(old(rest), DEPTH_MAX - old(depth))
      ensures ok ==> Going() && depth == old(depth)
      ensures ok ==> r.Done? && rest == r.rest && words == old(words) + PostSum(r.tree)
      ensures !ok ==> failed && (r.Done? ==> !Fits(old(words) + PostSum(r.tree), out.Length))
      decreases Length(rest), 6
    {
      ghost var room := DEPTH_MAX - depth;
      r := ParseSum(rest, room);
      ghost var first;
      ok, first := ReadProduct();
      FirstTerm(old(rest), first, old(words), room, out.Length);
      if !ok {
        return;
      }
      ok := ReadTerms(Term(first.tree), old(words), r);
    }

    /** The terms after the first. */
    method ReadTerms(ghost first: Sum, ghost had: seq<string>, ghost r: Parsed<Sum>) returns (ok: bool)
      requires Going() && words == had + PostSum(first) && r == Terms(first, rest, DEPTH_MAX - depth)
      modifies this, out
      ensures Valid()
      ensures ok ==> Going() && depth == old(depth)
      ensures ok ==> r.Done? && rest == r.rest && words == had + PostSum(r.tree)
      ensures !ok ==> failed && (r.Done? ==> !Fits(had + PostSum(r.tree), out.Length))
      decreases Length(rest), 6, 0
    {
      ghost var left := first;
      while IsSign('+') || IsSign('-')
        invariant Going() && depth == old(depth)
        invariant Terms(left, rest, DEPTH_MAX - depth) == r && words == had + PostSum(left)
        invariant Length(rest) <= Length(old(rest))
        decreases Length(rest)
      {
        ok, left := ReadTerm(left, had, r);
        if !ok {
          return;
        }
      }
      NoMoreTerms(left, rest, DEPTH_MAX - depth);
      return true;
    }

    /** One turn of the loop: a term after + or -. */
    method ReadTerm(ghost left: Sum, ghost had: seq<string>, ghost r: Parsed<Sum>) returns (ok: bool, ghost tree: Sum)
      requires Going() && words == had + PostSum(left) && (IsOp(rest, '+') || IsOp(rest, '-'))
      requires r == Terms(left, rest, DEPTH_MAX - depth)
      modifies this, out
      ensures Valid()
      ensures ok ==> Going() && depth == old(depth) && Length(rest) < Length(old(rest))
      ensures ok ==> Terms(tree, rest, DEPTH_MAX - depth) == r && words == had + PostSum(tree)
      ensures !ok ==> failed && (r.Done? ==> !Fits(had + PostSum(r.tree), out.Length))
      decreases Length(rest), 5
    {
      OpenInStep();
      var sign := op;
      ghost var room := DEPTH_MAX - depth;
      TermStep(left, rest, room);
      ghost var right;
      ok, right := ReadNextProduct();
      tree := if right.Fail? then left else Added(left, sign, right.tree);
      if ok {
        ok := EmitTerm(sign, left, right.tree, had);
      } else if right.Done? {
        TermOverflows(had, left, sign, right.tree, out.Length);
      }
      if !ok && right.Done? {
        SumOverflows(had, tree, right.rest, room, out.Length);
      }
    }

    method EmitTerm(sign: char, ghost left: Sum, ghost right: Product, ghost had: seq<string>) returns (ok: bool)
      requires Writing() && words == had + PostSum(left) + PostProduct(right) && (sign == '+' || sign == '-')
      modifies `used, `words, `failed, `error, out
      ensures Writing()
      ensures ok ==> words == had + PostSum(Added(left, sign, right)) && failed == old(failed)
      ensures !ok ==> failed && !Fits(had + PostSum(Added(left, sign, right)), out.Length)
    {
      PostAdded(left, sign, right);
      Regrouped(had, PostSum(left), PostProduct(right));
      ok := EmitAfter(TermWord(sign), had, PostSum(left) + PostProduct(right));
    }

    /** Sums with commas between, and how many. */
    method ReadSums() returns (ok: bool, count: nat, ghost r: Parsed<Sums>)
      requires Going()
      modifies this, out
      ensures Valid() && r == ParseSums(old(rest), DEPTH_MAX - old(depth))
      ensures ok ==> Going() && depth == old(depth)
      ensures ok ==> r.Done? && rest == r.rest && words == old(words) + PostSums(r.tree)
      ensures ok ==> count == Count(r.tree)
      ensures !ok ==> failed && (r.Done? ==> !Fits(old(words) + PostSums(r.tree), out.Length))
      decreases Length(rest), 7
    {
      ghost var room := DEPTH_MAX - depth;
      r := ParseSums(rest, room);
      count := 1;
      ghost var head;
      ok, head := ReadSum();
      FirstSum(old(rest), head, old(words), room, out.Length);
      if !ok {
        return;
      }
      ok, count := ReadMoreSums([head.tree], old(words), r);
    }

    /** The sums after each comma, those done counted in. */
    method ReadMoreSums(ghost first: seq<Sum>, ghost had: seq<string>, ghost r: Parsed<Sums>)
      returns (ok: bool, count: nat)
      requires Going() && words == had + PostSums(Listed(first)) && |first| == 1
      requires r == Onward(first, rest, DEPTH_MAX - depth)
      modifies this, out
      ensures Valid()
      ensures ok ==> Going() && depth == old(depth)
      ensures ok ==> r.Done? && rest == r.rest && words == had + PostSums(r.tree) && count == Count(r.tree)
      ensures !ok ==> failed && (r.Done? ==> !Fits(had + PostSums(r.tree), out.Length))
      decreases Length(rest), 7, 0
    {
      count := 1;
      ghost var done := first;
      while IsSign(',')
        invariant Going() && depth == old(depth)
        invariant r == Onward(done, rest, DEPTH_MAX - depth) && count == |done|
        invariant words == had + PostSums(Listed(done))
        invariant Length(rest) <= Length(old(rest))
        decreases Length(rest)
      {
        ok, done := ReadNextSum(done, had, r);
        if !ok {
          return;
        }
        count := count + 1;
      }
      CountListed(done);
      return true, count;
    }

    /** One turn of the loop: a sum after a comma. */
    method ReadNextSum(ghost done: seq<Sum>, ghost had: seq<string>, ghost r: Parsed<Sums>)
      returns (ok: bool, ghost more: seq<Sum>)
      requires Going() && IsOp(rest, ',') && words == had + PostSums(Listed(done))
      requires r == Onward(done, rest, DEPTH_MAX - depth)
      modifies this, out
      ensures Valid()
      ensures ok ==> Going() && depth == old(depth) && Length(rest) < Length(old(rest)) && |more| == |done| + 1
      ensures ok ==> r == Onward(more, rest, DEPTH_MAX - depth) && words == had + PostSums(Listed(more))
      ensures !ok ==> failed && (r.Done? ==> !Fits(had + PostSums(r.tree), out.Length))
      decreases Length(rest), 6
    {
      ghost var room := DEPTH_MAX - depth;
      Advance();
      ghost var head;
      ok, head := ReadSum();
      NextSum(done, old(rest), head, had, room, out.Length);
      more := if head.Done? then done + [head.tree] else done;
    }
  }

  /** What a loop has read so far goes in front of what it has yet to read. */
  function Prepend(done: seq<Sum>, r: Parsed<Sums>): Parsed<Sums> {
    if done == [] then r
    else match Prepend(done[1..], r)
      case Fail => Fail
      case Done(tail, rest) => Done(More(done[0], tail), rest)
  }

  function Listed(done: seq<Sum>): Sums {
    if done == [] then NoMore else More(done[0], Listed(done[1..]))
  }

  function Onward(done: seq<Sum>, ts: Tokens, room: nat): Parsed<Sums> {
    if IsOp(ts, ',') then Prepend(done, ParseSums(ts.tail, room)) else Done(Listed(done), ts)
  }

  lemma {:induction false} PrependSnoc(done: seq<Sum>, head: Sum, r: Parsed<Sums>)
    ensures Prepend(done + [head], r) == Prepend(done, Prepend([head], r))
    ensures Prepend(done, Done(More(head, NoMore), End)).Done?
    ensures Listed(done + [head]) == Prepend(done, Done(More(head, NoMore), End)).tree
  {
    if done == [] {
      assert [] + [head] == [head];
      assert Listed([head]) == More(head, Listed([head][1..]));
    } else {
      assert (done + [head])[1..] == done[1..] + [head];
      PrependSnoc(done[1..], head, r);
    }
  }

  lemma {:induction false} PrependPosts(done: seq<Sum>, r: Parsed<Sums>)
    requires r.Done?
    ensures Prepend(done, r).Done? && Prepend(done, r).rest == r.rest
    ensures PostSums(Prepend(done, r).tree) == PostSums(Listed(done)) + PostSums(r.tree)
    ensures r.tree == NoMore ==> Prepend(done, r).tree == Listed(done)
  {
    if done == [] {
      assert [] + PostSums(r.tree) == PostSums(r.tree);
    } else {
      PrependPosts(done[1..], r);
      Regrouped(PostSum(done[0]), PostSums(Listed(done[1..])), PostSums(r.tree));
    }
  }

  lemma PostListed(done: seq<Sum>, head: Sum)
    ensures PostSums(Listed(done + [head])) == PostSums(Listed(done)) + PostSum(head)
  {
    var one := Done(More(head, NoMore), End);
    PrependSnoc(done, head, Fail);
    PrependPosts(done, one);
    assert PostSums(More(head, NoMore)) == PostSum(head);
  }

  lemma {:induction false} CountListed(done: seq<Sum>)
    ensures Count(Listed(done)) == |done|
  {
    if done != [] { CountListed(done[1..]); }
  }

  lemma FirstSum(ts: Tokens, head: Parsed<Sum>, had: seq<string>, room: nat, cap: nat)
    requires head == ParseSum(ts, room)
    ensures head.Fail? ==> ParseSums(ts, room).Fail?
    ensures head.Done? ==> ParseSums(ts, room) == Onward([head.tree], head.rest, room)
    ensures head.Done? ==> PostSums(Listed([head.tree])) == PostSum(head.tree)
    ensures head.Done? && ParseSums(ts, room).Done? && !Fits(had + PostSum(head.tree), cap)
            ==> !Fits(had + PostSums(ParseSums(ts, room).tree), cap)
  {
    if head.Done? {
      var one := [head.tree];
      assert one[1..] == [];
      assert Listed(one) == More(head.tree, Listed(one[1..]));
      if IsOp(head.rest, ',') {
        var r := ParseSums(head.rest.tail, room);
        assert Prepend(one[1..], r) == r;
      }
      assert PostSum(head.tree) + [] == PostSum(head.tree);
      if !Fits(had + PostSum(head.tree), cap) { SumsOverflow(had, head.tree, head.rest, room, cap); }
    }
  }

  lemma NextSum(done: seq<Sum>, ts: Tokens, head: Parsed<Sum>, had: seq<string>, room: nat, cap: nat)
    requires IsOp(ts, ',') && head == ParseSum(ts.tail, room)
    ensures head.Fail? ==> Onward(done, ts, room).Fail?
    ensures head.Done? ==> Onward(done, ts, room) == Onward(done + [head.tree], head.rest, room)
    ensures head.Done? ==>
              had + PostSums(Listed(done)) + PostSum(head.tree) == had + PostSums(Listed(done + [head.tree]))
    ensures head.Done? && Onward(done, ts, room).Done? && !Fits(had + PostSums(Listed(done)) + PostSum(head.tree), cap)
            ==> !Fits(had + PostSums(Onward(done, ts, room).tree), cap)
  {
    if head.Fail? {
      PrependFail(done);
    } else {
      var one := Done(More(head.tree, NoMore), head.rest);
      PostListed(done, head.tree);
      Regrouped(had, PostSums(Listed(done)), PostSum(head.tree));
      PrependSnoc(done, head.tree, if IsOp(head.rest, ',') then ParseSums(head.rest.tail, room) else Fail);
      PrependRest(done, head.tree, head.rest);
      assert [head.tree][1..] == [];
      if Onward(done, ts, room).Done? && !Fits(had + PostSums(Listed(done)) + PostSum(head.tree), cap) {
        OnwardGrows(done + [head.tree], head.rest, had, room, cap);
      }
    }
  }

  lemma {:induction false} PrependFail(done: seq<Sum>)
    ensures Prepend(done, Fail).Fail?
  {
    if done != [] { PrependFail(done[1..]); }
  }

  lemma PrependRest(done: seq<Sum>, head: Sum, rest: Tokens)
    ensures Prepend(done, Done(More(head, NoMore), rest)) == Done(Listed(done + [head]), rest)
  {
    PrependSnoc(done, head, Done(NoMore, rest));
    PrependPosts(done + [head], Done(NoMore, rest));
    assert [head][1..] == [];
  }

  lemma OnwardGrows(done: seq<Sum>, ts: Tokens, had: seq<string>, room: nat, cap: nat)
    requires Onward(done, ts, room).Done? && !Fits(had + PostSums(Listed(done)), cap)
    ensures !Fits(had + PostSums(Onward(done, ts, room).tree), cap)
  {
    if IsOp(ts, ',') {
      var r := ParseSums(ts.tail, room);
      if r.Fail? {
        PrependFail(done);
      } else {
        PrependPosts(done, r);
        Overflows(had, PostSums(Listed(done)), PostSums(r.tree), cap);
      }
    }
  }

  /** How a text reads from its first character. */
  function Reading(text: string): Parsed<Sums> {
    ParseSums(Scan(text, 0), DEPTH_MAX)
  }

  /** A text is a formula when all of it reads and what it comes to fits. */
  predicate IsFormula(text: string, cap: nat) {
    var r := Reading(text);
    r.Done? && r.rest == End && Fits(PostSums(r.tree), cap)
  }

  /** The words of a formula in the order they are run, a space between each two and a NUL after the last. */
  method InfixToRpn(text: string, out: array<char>) returns (ok: bool, used: nat, results: nat, error: Complaint)
    modifies out
    ensures ok <==> IsFormula(text, out.Length)
    ensures ok <==> error == Fine
    ensures ok ==> results == Count(Reading(text).tree)
    ensures ok ==> used < out.Length && out[..used] == Join(PostSums(Reading(text).tree)) && out[used] == NUL
    ensures ok ==> Split(out[..used]) == PostSums(Reading(text).tree)
  {
    if out.Length > 0 {
      out[0] := NUL;
    }
    var ps := new Parser(text, out);
    ps.Move();
    ghost var r;
    ok, results, r := ps.ReadSums();
    used := ps.used;
    assert r == Reading(text);
    if r.Done? { SumsPost(r.tree); }
    assert r.Done? ==> [] + PostSums(r.tree) == PostSums(r.tree);
    if ok { ps.OpenInStep(); }
    if ok && !ps.kind.AtEnd? {
      ps.Complain(Unexpected(ps.Spelling()));
    }
    ps.OpenWriting();
    SplitOfJoin(ps.words);
    error := ps.error;
    if !ok || ps.failed {
      return false, used, results, error;
    }
  }

  /** The reading of a product from some way along it, and of a sum. Under covers, for a method that reads one more
      has no need to look at what comes after. */
  function Factors(left: Product, ts: Tokens, room: nat): Parsed<Product> {
    FactorsCovered(left, ts, room, 3)
  }

  /** The same under covers, which a proof takes off where it has to look. */
  function FactorsCovered(left: Product, ts: Tokens, room: nat, covers: nat): Parsed<Product>
    decreases covers, ts
  {
    if covers > 0 then FactorsCovered(left, ts, room, covers - 1) else ProductTail(left, ts, room)
  }

  lemma OpenFactors(left: Product, ts: Tokens, room: nat)
    ensures Factors(left, ts, room) == ProductTail(left, ts, room)
  {
    assert FactorsCovered(left, ts, room, 1) == FactorsCovered(left, ts, room, 0);
    assert FactorsCovered(left, ts, room, 2) == FactorsCovered(left, ts, room, 1);
  }

  function Terms(left: Sum, ts: Tokens, room: nat): Parsed<Sum> {
    TermsCovered(left, ts, room, 3)
  }

  /** The same under covers, which a proof takes off where it has to look. */
  function TermsCovered(left: Sum, ts: Tokens, room: nat, covers: nat): Parsed<Sum>
    decreases covers, ts
  {
    if covers > 0 then TermsCovered(left, ts, room, covers - 1) else SumTail(left, ts, room)
  }

  lemma OpenTerms(left: Sum, ts: Tokens, room: nat)
    ensures Terms(left, ts, room) == SumTail(left, ts, room)
  {
    assert TermsCovered(left, ts, room, 1) == TermsCovered(left, ts, room, 0);
    assert TermsCovered(left, ts, room, 2) == TermsCovered(left, ts, room, 1);
  }

  lemma NoMoreFactors(left: Product, ts: Tokens, room: nat)
    requires !IsOp(ts, '*') && !IsOp(ts, '/') && !StartsBeside(ts)
    ensures Factors(left, ts, room) == Done(left, ts)
  {
    OpenFactors(left, ts, room);
  }

  lemma NoMoreTerms(left: Sum, ts: Tokens, room: nat)
    requires !IsOp(ts, '+') && !IsOp(ts, '-')
    ensures Terms(left, ts, room) == Done(left, ts)
  {
    OpenTerms(left, ts, room);
  }

  /** What the reading of a product makes of one factor, or of one thing beside it; and of a sum, of one term. */
  lemma FactorStep(left: Product, ts: Tokens, room: nat)
    requires IsOp(ts, '*') || IsOp(ts, '/')
    ensures var right := ParseUnary(ts.tail, room);
            Factors(left, ts, room)
            == if right.Fail? then Fail else Factors(Multiplied(left, ts.head.op, right.tree), right.rest, room)
  {
    var right := ParseUnary(ts.tail, room);
    OpenFactors(left, ts, room);
    if right.Done? { OpenFactors(Multiplied(left, ts.head.op, right.tree), right.rest, room); }
  }

  lemma BesideStep(left: Product, ts: Tokens, room: nat)
    requires StartsBeside(ts)
    ensures var next := ParsePower(ts, room);
            Factors(left, ts, room)
            == if next.Fail? then Fail else Factors(Beside(left, next.tree), next.rest, room)
  {
    var next := ParsePower(ts, room);
    OpenFactors(left, ts, room);
    if next.Done? { OpenFactors(Beside(left, next.tree), next.rest, room); }
  }

  lemma TermStep(left: Sum, ts: Tokens, room: nat)
    requires IsOp(ts, '+') || IsOp(ts, '-')
    ensures var right := ParseProduct(ts.tail, room);
            Terms(left, ts, room)
            == if right.Fail? then Fail else Terms(Added(left, ts.head.op, right.tree), right.rest, room)
  {
    var right := ParseProduct(ts.tail, room);
    OpenTerms(left, ts, room);
    if right.Done? { OpenTerms(Added(left, ts.head.op, right.tree), right.rest, room); }
  }

  lemma FactorOverflows(had: seq<string>, left: Product, sign: char, right: Unary, cap: nat)
    requires !Fits(had + PostProduct(left) + PostUnary(right), cap) && (sign == '*' || sign == '/')
    ensures !Fits(had + PostProduct(Multiplied(left, sign, right)), cap)
  {
    PostMultiplied(left, sign, right);
    BothOverflow(had, PostProduct(left), PostUnary(right), [FactorWord(sign)], cap);
  }

  lemma TermOverflows(had: seq<string>, left: Sum, sign: char, right: Product, cap: nat)
    requires !Fits(had + PostSum(left) + PostProduct(right), cap) && (sign == '+' || sign == '-')
    ensures !Fits(had + PostSum(Added(left, sign, right)), cap)
  {
    PostAdded(left, sign, right);
    BothOverflow(had, PostSum(left), PostProduct(right), [TermWord(sign)], cap);
  }

  /** Where a product has overflowed, so does all that is read into it. */
  lemma ProductOverflows(had: seq<string>, left: Product, ts: Tokens, room: nat, cap: nat)
    requires !Fits(had + PostProduct(left), cap)
    ensures var r := Factors(left, ts, room); r.Done? ==> !Fits(had + PostProduct(r.tree), cap)
  {
    OpenFactors(left, ts, room);
    if Factors(left, ts, room).Done? {
      var more := ProductTailGrows(left, ts, room);
      Overflows(had, PostProduct(left), more, cap);
    }
  }

  lemma SumOverflows(had: seq<string>, left: Sum, ts: Tokens, room: nat, cap: nat)
    requires !Fits(had + PostSum(left), cap)
    ensures var r := Terms(left, ts, room); r.Done? ==> !Fits(had + PostSum(r.tree), cap)
  {
    OpenTerms(left, ts, room);
    if Terms(left, ts, room).Done? {
      var more := SumTailGrows(left, ts, room);
      Overflows(had, PostSum(left), more, cap);
    }
  }

  /** Two lots of words that overflow one after the other. */
  lemma BothOverflow(had: seq<string>, a: seq<string>, b: seq<string>, more: seq<string>, cap: nat)
    requires !Fits(had + a + b, cap)
    ensures !Fits(had + (a + b + more), cap)
  {
    Regrouped(had, a, b);
    Overflows(had, a + b, more, cap);
  }

  // Every tree comes to a word at least.

  lemma {:induction false} UnaryPosts(u: Unary)
    ensures PostUnary(u) != []
    decreases u
  {
    match u
    case Minus(_) =>
    case Plus(arg) => UnaryPosts(arg);
    case Unsigned(power) =>
      var p := power.base;
      if p.base.Bracket? { SumPosts(p.base.inner); }
      assert PostPrimary(p.base) != [];
      assert PostPostfixed(p) != [];
  }

  lemma {:induction false} SumPosts(s: Sum)
    ensures PostSum(s) != []
    decreases s
  {
    if s.Term? && s.first.Factor? { UnaryPosts(s.first.first); }
  }

  lemma SumsPost(s: Sums)
    requires s.More?
    ensures PostSums(s) != []
  {
    SumPosts(s.head);
  }

  lemma NameIsWord(name: NameText)
    ensures IsWord(name)
  {
    Rpn.OpenName(name);
    forall i | 0 <= i < |name| ensures !IsSpace(name[i]) {
      assert Rpn.NameChar(name[i]);
    }
  }

  function FactorWord(sign: char): (w: string)
    ensures IsWord(w)
  {
    if sign == '*' then "*" else "divide"
  }

  function TermWord(sign: char): (w: string)
    ensures IsWord(w)
  {
    if sign == '+' then "+" else "-"
  }

  lemma PostMultiplied(left: Product, sign: char, right: Unary)
    ensures PostProduct(Multiplied(left, sign, right)) == PostProduct(left) + PostUnary(right) + [FactorWord(sign)]
  {
  }

  lemma PostAdded(left: Sum, sign: char, right: Product)
    ensures PostSum(Added(left, sign, right)) == PostSum(left) + PostProduct(right) + [TermWord(sign)]
  {
  }

  /** A loop only ever adds words. */
  lemma {:induction false} PostfixTailGrows(base: Primary, seen: seq<Postfix>, ts: Tokens) returns (more: seq<string>)
    ensures PostPostfixed(PostfixTail(base, seen, ts).0) == PostPostfixed(Postfixed(base, seen)) + more
    decreases ts
  {
    more := [];
    if IsPostfix(ts) {
      PostOneMore(Postfixed(base, seen), PostfixOf(ts.head));
      more := PostfixTailGrows(base, seen + [PostfixOf(ts.head)], ts.tail);
      Regrouped(PostPostfixed(Postfixed(base, seen)), [PostWord(PostfixOf(ts.head))], more);
      more := [PostWord(PostfixOf(ts.head))] + more;
    }
  }

  lemma PostOneMore(p: Postfixed, post: Postfix)
    ensures PostPostfixed(Postfixed(p.base, p.posts + [post])) == PostPostfixed(p) + [PostWord(post)]
  {
    var posts := p.posts + [post];
    assert posts[..|posts| - 1] == p.posts && posts[|posts| - 1] == post;
  }

  lemma {:induction false} ProductTailGrows(left: Product, ts: Tokens, room: nat) returns (more: seq<string>)
    requires ProductTail(left, ts, room).Done?
    ensures PostProduct(ProductTail(left, ts, room).tree) == PostProduct(left) + more
    decreases Length(ts)
  {
    more := [];
    if IsOp(ts, '*') || IsOp(ts, '/') {
      var Done(right, rest) := ParseUnary(ts.tail, room);
      var sign := ts.head.op;
      more := ProductTailGrows(Multiplied(left, sign, right), rest, room);
      PostMultiplied(left, sign, right);
      more := PostUnary(right) + [FactorWord(sign)] + more;
    } else if StartsBeside(ts) {
      var Done(next, rest) := ParsePower(ts, room);
      more := ProductTailGrows(Beside(left, next), rest, room);
      more := PostPower(next) + ["*"] + more;
    }
  }

  lemma {:induction false} SumTailGrows(left: Sum, ts: Tokens, room: nat) returns (more: seq<string>)
    requires SumTail(left, ts, room).Done?
    ensures PostSum(SumTail(left, ts, room).tree) == PostSum(left) + more
    decreases Length(ts)
  {
    more := [];
    if IsOp(ts, '+') || IsOp(ts, '-') {
      var Done(right, rest) := ParseProduct(ts.tail, room);
      var sign := ts.head.op;
      more := SumTailGrows(Added(left, sign, right), rest, room);
      PostAdded(left, sign, right);
      more := PostProduct(right) + [TermWord(sign)] + more;
    }
  }

  lemma FirstFactor(ts: Tokens, first: Parsed<Unary>, had: seq<string>, room: nat, cap: nat)
    requires first == ParseUnary(ts, room)
    ensures first.Fail? ==> ParseProduct(ts, room).Fail?
    ensures first.Done? ==> ParseProduct(ts, room) == Factors(Factor(first.tree), first.rest, room)
    ensures first.Done? ==> PostProduct(Factor(first.tree)) == PostUnary(first.tree) && Length(first.rest) < Length(ts)
    ensures first.Done? && ParseProduct(ts, room).Done? && !Fits(had + PostUnary(first.tree), cap)
            ==> !Fits(had + PostProduct(ParseProduct(ts, room).tree), cap)
  {
    if first.Done? { OpenFactors(Factor(first.tree), first.rest, room); }
    if first.Done? && ParseProduct(ts, room).Done? && !Fits(had + PostUnary(first.tree), cap) {
      var more := ProductTailGrows(Factor(first.tree), first.rest, room);
      Overflows(had, PostUnary(first.tree), more, cap);
    }
  }

  lemma FirstTerm(ts: Tokens, first: Parsed<Product>, had: seq<string>, room: nat, cap: nat)
    requires first == ParseProduct(ts, room)
    ensures first.Fail? ==> ParseSum(ts, room).Fail?
    ensures first.Done? ==> ParseSum(ts, room) == Terms(Term(first.tree), first.rest, room)
    ensures first.Done? ==> PostSum(Term(first.tree)) == PostProduct(first.tree) && Length(first.rest) < Length(ts)
    ensures first.Done? && ParseSum(ts, room).Done? && !Fits(had + PostProduct(first.tree), cap)
            ==> !Fits(had + PostSum(ParseSum(ts, room).tree), cap)
  {
    if first.Done? { OpenTerms(Term(first.tree), first.rest, room); }
    if first.Done? && ParseSum(ts, room).Done? && !Fits(had + PostProduct(first.tree), cap) {
      var more := SumTailGrows(Term(first.tree), first.rest, room);
      Overflows(had, PostProduct(first.tree), more, cap);
    }
  }

  lemma RaisedOverflows(had: seq<string>, base: Postfixed, rest: Tokens, room: nat, cap: nat)
    requires !Fits(had + PostPostfixed(base), cap)
    ensures !IsOp(rest, '^') ==> !Fits(had + PostPower(Plain(base)), cap)
    ensures IsOp(rest, '^') && ParseUnary(rest.tail, room).Done?
            ==> !Fits(had + PostPower(Raised(base, ParseUnary(rest.tail, room).tree)), cap)
  {
    if IsOp(rest, '^') && ParseUnary(rest.tail, room).Done? {
      var exponent := PostUnary(ParseUnary(rest.tail, room).tree);
      Overflows(had, PostPostfixed(base), exponent, cap);
      Overflows(had, PostPostfixed(base) + exponent, ["pow"], cap);
    }
  }

  lemma SumsOverflow(had: seq<string>, head: Sum, rest: Tokens, room: nat, cap: nat)
    requires !Fits(had + PostSum(head), cap)
    ensures !Fits(had + PostSums(More(head, NoMore)), cap)
    ensures IsOp(rest, ',') && ParseSums(rest.tail, room).Done?
            ==> !Fits(had + PostSums(More(head, ParseSums(rest.tail, room).tree)), cap)
  {
    Overflows(had, PostSum(head), PostSums(NoMore), cap);
    if IsOp(rest, ',') && ParseSums(rest.tail, room).Done? {
      Overflows(had, PostSum(head), PostSums(ParseSums(rest.tail, room).tree), cap);
    }
  }

  lemma FloatIsWord(numeral: NumeralText)
    ensures IsWord(FloatText(numeral))
  {
    NumeralParts(numeral);
    AsFloatKeepsValue(PartsAt(numeral, 0));
    var q := PartsAt(numeral, 0).AsFloat();
    SpeltIsNumeral(q);
    NumeralHasNoSpace(q);
  }

  lemma NumeralHasNoSpace(q: Parts)
    requires q.Valid()
    ensures forall i :: 0 <= i < |q.Spell()| ==> !IsSpace(q.Spell()[i])
  {
    if q.exponent != "" {
      assert forall i :: 2 <= i < |q.exponent| ==> IsDigit(q.exponent[i]);
    }
  }

  /** A nought goes between a point and the exponent mark. */
  function BeforeMark(p: Parts): string {
    if p.point && p.fraction == "" then "0" else ""
  }

  function Lead(p: Parts): string {
    if p.whole == "" then "0" else ""
  }

  function Mark(p: Parts): nat {
    |p.Spell()| - |p.exponent|
  }

  /** What has been written once the first k characters of the number are in. */
  function Written(p: Parts, k: nat): (w: string)
    requires k <= |p.Spell()|
    ensures |w| <= k + 2
  {
    if k <= Mark(p) then Lead(p) + p.Spell()[..k]
    else Lead(p) + p.Spell()[..Mark(p)] + BeforeMark(p) + p.Spell()[Mark(p)..k]
  }

  lemma SpellAt(p: Parts, k: nat)
    requires p.Valid() && k < |p.Spell()|
    ensures IsExponentMark(p.Spell()[k]) <==> k == Mark(p)
    ensures p.Spell()[k] == '.' <==> p.point && k == |p.whole|
  {
    if k > Mark(p) + 1 { assert IsDigit(p.exponent[k - Mark(p)]); }
  }

  /** The buffer before the exponent mark ends in a point exactly when a nought is due. */
  lemma PointBeforeMark(p: Parts)
    requires p.Valid()
    ensures var w := Lead(p) + p.Spell()[..Mark(p)];
            w != "" && (w[|w| - 1] == '.' <==> BeforeMark(p) != "")
  {
    var m := Mark(p);
    if m > 0 { SpellAtBefore(p, m - 1); }
  }

  lemma SpellAtBefore(p: Parts, k: nat)
    requires p.Valid() && k < Mark(p)
    ensures p.Spell()[k] == '.' <==> p.point && k == |p.whole|
    ensures k == |p.whole| && p.point && k + 1 == Mark(p) <==> p.point && p.fraction == "" && k + 1 == Mark(p)
  {
    SpellAt(p, k);
  }

  lemma WrittenStep(p: Parts, k: nat)
    requires p.Valid() && k < |p.Spell()|
    ensures k == Mark(p) ==> Written(p, k + 1) == Written(p, k) + BeforeMark(p) + [p.Spell()[k]]
    ensures k != Mark(p) ==> Written(p, k + 1) == Written(p, k) + [p.Spell()[k]]
  {
    assert p.Spell()[..k + 1] == p.Spell()[..k] + [p.Spell()[k]];
    if k >= Mark(p) {
      assert p.Spell()[Mark(p)..k + 1] == p.Spell()[Mark(p)..k] + [p.Spell()[k]];
    }
  }

  function Ending(p: Parts): string {
    if p.exponent != "" then "" else if p.point then BeforeMark(p) else ".0"
  }

  lemma SpellParted(p: Parts)
    ensures p.Spell()[..Mark(p)] == p.whole + (if p.point then "." + p.fraction else "")
    ensures p.Spell()[Mark(p)..] == p.exponent
  {
    var body := p.whole + if p.point then "." + p.fraction else "";
    assert p.Spell() == body + p.exponent;
  }

  lemma WrittenWhole(p: Parts)
    requires p.Valid()
    ensures Written(p, |p.Spell()|) ==
            Lead(p) + p.whole + (if p.point then "." + p.fraction else "") +
            (if p.exponent == "" then "" else BeforeMark(p) + p.exponent)
  {
    SpellParted(p);
    var s := p.Spell();
    var point := if p.point then "." + p.fraction else "";
    assert Lead(p) + (p.whole + point) == Lead(p) + p.whole + point;
    if p.exponent == "" {
      assert s[..|s|] == s[..Mark(p)];
      assert Lead(p) + p.whole + point + "" == Lead(p) + p.whole + point;
    } else {
      assert s[Mark(p)..|s|] == s[Mark(p)..];
    }
  }

  lemma Regroup(a: string, b: string, c: string, d: string)
    ensures a + (b + c) + d == a + b + (c + d)
  {
  }

  lemma Regroup4(whole: string, fraction: string, nought: string, e: string)
    ensures e == "" ==> whole + ("." + (fraction + nought)) + e == whole + ("." + fraction) + "" + nought
    ensures e != "" ==> whole + ("." + (fraction + nought)) + e == whole + ("." + fraction) + (nought + e) + ""
  {
    assert "." + (fraction + nought) == "." + fraction + nought;
    Regroup(whole, "." + fraction, nought, e);
    assert e == "" ==> nought + e == nought;
    assert whole + ("." + fraction) + "" == whole + ("." + fraction);
    assert whole + ("." + fraction) + (nought + e) + "" == whole + ("." + fraction) + (nought + e);
  }

  lemma WrittenWithPoint(p: Parts)
    requires p.Valid() && p.point
    ensures p.AsFloat().Spell() == Written(p, |p.Spell()|) + Ending(p)
  {
    WrittenWhole(p);
    assert p.AsFloat().fraction == p.fraction + BeforeMark(p);
    assert p.AsFloat().whole == Lead(p) + p.whole;
    Regroup4(Lead(p) + p.whole, p.fraction, BeforeMark(p), p.exponent);
  }

  lemma WrittenWithoutPoint(p: Parts)
    requires p.Valid() && !p.point
    ensures p.AsFloat().Spell() == Written(p, |p.Spell()|) + Ending(p)
  {
    WrittenWhole(p);
    var f := p.AsFloat();
    var whole, nought, e := Lead(p) + p.whole, BeforeMark(p), p.exponent;
    if e == "" {
      assert "." + f.fraction == ".0";
      assert whole + "" + "" + ".0" == whole + ".0" + "";
    } else {
      assert whole + "" + (nought + e) + "" == whole + "" + e;
    }
  }

  /** What the end of the number adds. */
  lemma WrittenDone(p: Parts)
    requires p.Valid()
    ensures p.AsFloat().Spell() == Written(p, |p.Spell()|) + Ending(p)
  {
    if p.point { WrittenWithPoint(p); } else { WrittenWithoutPoint(p); }
  }

  /** The number ends in a point only where the ending is a nought. */
  lemma LastWritten(p: Parts)
    requires p.Valid()
    ensures var w := Written(p, |p.Spell()|);
            w != "" && (w[|w| - 1] == '.' <==> Ending(p) == "0")
  {
    if p.exponent == "" {
      LastUnmarked(p);
    } else {
      LastMarked(p);
    }
  }

  lemma LastUnmarked(p: Parts)
    requires p.Valid() && p.exponent == ""
    ensures var w := Written(p, |p.Spell()|); w != "" && (w[|w| - 1] == '.' <==> BeforeMark(p) != "")
  {
    PointBeforeMark(p);
  }

  lemma LastMarked(p: Parts)
    requires p.Valid() && p.exponent != ""
    ensures var w := Written(p, |p.Spell()|); w != "" && w[|w| - 1] != '.'
  {
    var s := p.Spell();
    assert s[|s| - 1] != '.' by { SpellAt(p, |s| - 1); }
    var front := Lead(p) + s[..Mark(p)] + BeforeMark(p);
    LastOfMany(front, s, Mark(p));
    assert Written(p, |s|) == front + s[Mark(p)..|s|];
  }

  lemma LastOfMany(a: string, s: string, m: nat)
    requires m < |s|
    ensures (a + s[m..|s|])[|a + s[m..|s|]| - 1] == s[|s| - 1]
  {
  }

  lemma WrittenNone(p: Parts)
    requires p.Valid()
    ensures Written(p, 0) == Lead(p) && p.Spell() != ""
    ensures Lead(p) == if p.Spell()[0] == '.' then "0" else ""
  {
    SpellAt(p, 0);
    assert Lead(p) + p.Spell()[..0] == Lead(p);
  }

  /** What a nought due at this place makes of what is written. */
  function Noughted(w: string): string {
    if w != "" && w[|w| - 1] == '.' then w + "0" else w
  }

  lemma WrittenAtMark(p: Parts)
    requires p.Valid()
    ensures Noughted(Written(p, Mark(p))) == Written(p, Mark(p)) + BeforeMark(p)
  {
    PointBeforeMark(p);
  }

  lemma WrittenAtEnd(p: Parts)
    requires p.Valid()
    ensures p.AsFloat().Spell() ==
            Noughted(Written(p, |p.Spell()|)) + if p.point || p.exponent != "" then "" else ".0"
  {
    WrittenDone(p);
    LastWritten(p);
  }

  method FloatOf(numeral: NumeralText) returns (float: string)
    requires |numeral| + 4 <= 64
    ensures float == FloatText(numeral)
  {
    NumeralParts(numeral);
    float := FloatOfParts(numeral, PartsAt(numeral, 0));
  }

  predicate PointSeen(p: Parts, k: nat) {
    p.point && k > |p.whole|
  }

  predicate MarkSeen(p: Parts, k: nat) {
    k > Mark(p)
  }

  lemma SeenAtEnd(p: Parts)
    requires p.Valid()
    ensures PointSeen(p, |p.Spell()|) || MarkSeen(p, |p.Spell()|) <==> p.point || p.exponent != ""
  {
  }

  method FloatOfParts(numeral: string, ghost q: Parts) returns (float: string)
    requires |numeral| + 4 <= 64 && q.Valid() && q.Spell() == numeral
    ensures float == q.AsFloat().Spell()
  {
    var buffer := new char[64];
    var n: nat := 0;
    WrittenNone(q);
    if numeral[0] == '.' {
      n := Push(buffer, 0, '0');
    }
    var point, exponent := false, false;
    var k := 0;
    while k < |numeral|
      invariant 0 <= k <= |numeral|
      invariant n <= k + 2 && buffer[..n] == Written(q, k)
      invariant point <==> PointSeen(q, k)
      invariant exponent <==> MarkSeen(q, k)
    {
      n := PushNext(buffer, n, numeral[k], q, k);
      exponent := exponent || IsExponentMark(numeral[k]);
      point := point || numeral[k] == '.';
      k := k + 1;
    }
    float := Ended(buffer, n, point, exponent, q);
  }

  // What has neither point nor exponent gets a point and a nought
  method Ended(buffer: array<char>, n: nat, point: bool, exponent: bool, ghost q: Parts) returns (float: string)
    requires q.Valid() && n <= |q.Spell()| + 2 <= buffer.Length - 2 && buffer[..n] == Written(q, |q.Spell()|)
    requires (point <==> PointSeen(q, |q.Spell()|)) && (exponent <==> MarkSeen(q, |q.Spell()|))
    modifies buffer
    ensures float == q.AsFloat().Spell()
  {
    WrittenAtEnd(q);
    SeenAtEnd(q);
    var m := PushNought(buffer, n);
    if !point && !exponent {
      m := PushPoint(buffer, m);
    }
    float := buffer[..m];
  }

  method PushPoint(buffer: array<char>, n: nat) returns (m: nat)
    requires n + 2 <= buffer.Length
    modifies buffer
    ensures m <= buffer.Length && buffer[..m] == old(buffer[..n]) + ".0"
  {
    m := Push(buffer, n, '.');
    m := Push(buffer, m, '0');
  }

  // A point just before the exponent gets its nought there
  method PushNext(buffer: array<char>, n: nat, c: char, ghost q: Parts, ghost k: nat) returns (m: nat)
    requires q.Valid() && k < |q.Spell()| && q.Spell()[k] == c
    requires n <= k + 2 && k + 4 < buffer.Length && buffer[..n] == Written(q, k)
    modifies buffer
    ensures m <= k + 3 && m <= buffer.Length && buffer[..m] == Written(q, k + 1)
    ensures PointSeen(q, k + 1) <==> PointSeen(q, k) || c == '.'
    ensures MarkSeen(q, k + 1) <==> MarkSeen(q, k) || IsExponentMark(c)
  {
    SpellAt(q, k);
    WrittenStep(q, k);
    m := n;
    if IsExponentMark(c) {
      WrittenAtMark(q);
      m := PushNought(buffer, m);
    }
    m := Push(buffer, m, c);
  }

  method Push(buffer: array<char>, n: nat, c: char) returns (m: nat)
    requires n < buffer.Length
    modifies buffer
    ensures m == n + 1 && buffer[..m] == old(buffer[..n]) + [c]
  {
    buffer[n] := c;
    m := n + 1;
  }

  method PushNought(buffer: array<char>, n: nat) returns (m: nat)
    requires n < buffer.Length
    modifies buffer
    ensures n <= m <= n + 1 && buffer[..m] == Noughted(old(buffer[..n]))
  {
    m := n;
    if n > 0 && buffer[n - 1] == '.' {
      m := Push(buffer, n, '0');
    }
  }
}
