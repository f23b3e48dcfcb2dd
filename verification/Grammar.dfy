/** The reading of Formula.dfy against the grammar itself: what it accepts is
    exactly what the grammar writes, and nothing can be written two ways. */
module Grammar {
  import opened Formula

  // ------------------------------------- everything the grammar writes is read

  lemma {:induction false} ReadPosts(base: Primary, seen: seq<Postfix>, posts: seq<Postfix>, rest: Tokens)
    requires forall i :: 0 <= i < |posts| ==> posts[i].Word? ==> IsPostfixWord(posts[i].word)
    requires !IsPostfix(rest)
    ensures PostfixTail(base, seen, WritePosts(posts, rest)) == (Postfixed(base, seen + posts), rest)
    decreases |posts|
  {
    if posts == [] {
      assert seen + posts == seen;
    } else {
      ReadPosts(base, seen + [posts[0]], posts[1..], rest);
      assert seen + [posts[0]] + posts[1..] == seen + posts;
    }
  }

  lemma {:induction false} ReadPrimary(p: Primary, rest: Tokens, room: nat)
    requires PrimaryOk(p, room)
    requires p.Of? ==> EndsPower(rest)
    ensures ParsePrimary(WritePrimary(p, rest), room) == Done(p, rest)
    decreases p, 0
  {
    match p
    case Literal(_) =>
    case Bracket(inner) => ReadSum(inner, Next(Op(')'), rest), room - 1);
    case Call(name, args) =>
      if args.More? {
        ReadSums(args, Next(Op(')'), rest), room);
        SumsStart(args, Next(Op(')'), rest));
      }
    case Bare(_) =>
    case Of(_, arg) =>
      UnaryStart(arg, rest);
      ReadUnary(arg, rest, room);
  }

  lemma {:induction false} ReadPostfixed(p: Postfixed, rest: Tokens, room: nat)
    requires PostfixedOk(p, room)
    requires !IsPostfix(rest) && (p.base.Of? ==> EndsPower(rest))
    ensures ParsePostfixed(WritePostfixed(p, rest), room) == Done(p, rest)
    decreases p, 1
  {
    ReadPrimary(p.base, WritePosts(p.posts, rest), room);
    ReadPosts(p.base, [], p.posts, rest);
    assert [] + p.posts == p.posts;
  }

  lemma {:induction false} ReadPower(p: Power, rest: Tokens, room: nat)
    requires PowerOk(p, room) && EndsPower(rest)
    ensures ParsePower(WritePower(p, rest), room) == Done(p, rest)
    decreases p, 2
  {
    match p
    case Plain(base) => ReadPostfixed(base, rest, room);
    case Raised(base, exponent) =>
      ReadUnary(exponent, rest, room);
      ReadPostfixed(base, Next(Op('^'), WriteUnary(exponent, rest)), room);
  }

  lemma {:induction false} ReadUnary(u: Unary, rest: Tokens, room: nat)
    requires UnaryOk(u, room) && EndsPower(rest)
    ensures ParseUnary(WriteUnary(u, rest), room) == Done(u, rest)
    decreases u, 3
  {
    match u
    case Minus(arg) => ReadUnary(arg, rest, room - 1);
    case Plus(arg) => ReadUnary(arg, rest, room - 1);
    case Unsigned(power) =>
      ReadPower(power, rest, room - 1);
      PowerStart(power, rest);
  }

  /** Reading a written product comes back to the loop with that product in hand. */
  lemma {:induction false} ReadProduct(p: Product, rest: Tokens, room: nat)
    requires ProductOk(p, room) && EndsPower(rest)
    ensures ParseProduct(WriteProduct(p, rest), room) == ProductTail(p, rest, room)
    decreases p, 4
  {
    match p
    case Factor(first) => ReadUnary(first, rest, room);
    case Times(left, right) =>
      ReadProduct(left, Next(Op('*'), WriteUnary(right, rest)), room);
      ReadUnary(right, rest, room);
    case Over(left, right) =>
      ReadProduct(left, Next(Op('/'), WriteUnary(right, rest)), room);
      ReadUnary(right, rest, room);
    case Beside(left, next) =>
      PowerStart(next, rest);
      ReadProduct(left, WritePower(next, rest), room);
      ReadPower(next, rest, room);
  }

  lemma {:induction false} ReadSum'(s: Sum, rest: Tokens, room: nat)
    requires SumOk(s, room) && EndsProduct(rest)
    ensures ParseSum(WriteSum(s, rest), room) == SumTail(s, rest, room)
    decreases s, 5
  {
    match s
    case Term(first) => ReadProduct(first, rest, room);
    case Add(left, right) =>
      ReadSum'(left, Next(Op('+'), WriteProduct(right, rest)), room);
      ReadProduct(right, rest, room);
    case Subtract(left, right) =>
      ReadSum'(left, Next(Op('-'), WriteProduct(right, rest)), room);
      ReadProduct(right, rest, room);
  }

  lemma {:induction false} ReadSum(s: Sum, rest: Tokens, room: nat)
    requires SumOk(s, room) && EndsSum(rest)
    ensures ParseSum(WriteSum(s, rest), room) == Done(s, rest)
    decreases s, 6
  {
    ReadSum'(s, rest, room);
  }

  lemma {:induction false} ReadSums(s: Sums, rest: Tokens, room: nat)
    requires SumsOk(s, room) && s.More? && EndsSum(rest) && !IsOp(rest, ',')
    ensures ParseSums(WriteSums(s, rest), room) == Done(s, rest)
    decreases s, 7
  {
    if s.tail.NoMore? {
      ReadSum(s.head, rest, room);
    } else {
      ReadSum(s.head, Next(Op(','), WriteSums(s.tail, rest)), room);
      ReadSums(s.tail, rest, room);
    }
  }

  // ------------------------------------------------ how a written tree begins

  lemma PowerStart(p: Power, rest: Tokens)
    ensures StartsValue(WritePower(p, rest))
    ensures MayStandBeside(p) <==> StartsBeside(WritePower(p, rest)) && !IsPostfix(WritePower(p, rest))
  {
    var after := match p case Plain(_) => rest case Raised(_, exponent) => Next(Op('^'), WriteUnary(exponent, rest));
    assert WritePower(p, rest) == WritePrimary(p.base.base, WritePosts(p.base.posts, after));
  }

  lemma UnaryStart(u: Unary, rest: Tokens)
    ensures WriteUnary(u, rest).Next?
    ensures !IsOp(WriteUnary(u, rest), ')')
    ensures StartsValue(WriteUnary(u, rest)) <==> u.Unsigned?
  {
    if u.Unsigned? { PowerStart(u.power, rest); }
  }

  lemma {:induction false} ProductStart(p: Product, rest: Tokens)
    ensures WriteProduct(p, rest).Next? && !IsOp(WriteProduct(p, rest), ')')
    decreases p
  {
    match p
    case Factor(first) => UnaryStart(first, rest);
    case Times(left, right) => ProductStart(left, Next(Op('*'), WriteUnary(right, rest)));
    case Over(left, right) => ProductStart(left, Next(Op('/'), WriteUnary(right, rest)));
    case Beside(left, next) => ProductStart(left, WritePower(next, rest));
  }

  lemma {:induction false} SumStart(s: Sum, rest: Tokens)
    ensures WriteSum(s, rest).Next? && !IsOp(WriteSum(s, rest), ')')
    decreases s
  {
    match s
    case Term(first) => ProductStart(first, rest);
    case Add(left, right) => SumStart(left, Next(Op('+'), WriteProduct(right, rest)));
    case Subtract(left, right) => SumStart(left, Next(Op('-'), WriteProduct(right, rest)));
  }

  lemma SumsStart(s: Sums, rest: Tokens)
    requires s.More?
    ensures WriteSums(s, rest).Next? && !IsOp(WriteSums(s, rest), ')')
  {
    SumStart(s.head, rest);
    if s.tail.More? { SumStart(s.head, Next(Op(','), WriteSums(s.tail, rest))); }
  }

  // ---------------------------------- everything that is read, the grammar wrote

  lemma {:induction false} PostsWritten(base: Primary, seen: seq<Postfix>, ts: Tokens)
    ensures var (tree, left) := PostfixTail(base, seen, ts);
            && tree.base == base && seen <= tree.posts && !IsPostfix(left)
            && WritePosts(tree.posts[|seen|..], left) == ts
            && (forall i :: |seen| <= i < |tree.posts| ==> tree.posts[i].Word? ==> IsPostfixWord(tree.posts[i].word))
    decreases ts
  {
    if IsPostfix(ts) {
      var one := seen + [PostfixOf(ts.head)];
      PostsWritten(base, one, ts.tail);
      var (tree, left) := PostfixTail(base, one, ts.tail);
      assert tree.posts[|seen|] == one[|seen|];
      assert tree.posts[|seen|..][1..] == tree.posts[|one|..];
    }
  }

  lemma {:induction false} PrimaryWritten(ts: Tokens, room: nat)
    requires ParsePrimary(ts, room).Done?
    ensures var Done(tree, rest) := ParsePrimary(ts, room);
            PrimaryOk(tree, room) && WritePrimary(tree, rest) == ts && (tree.Of? ==> EndsPower(rest))
    decreases Length(ts), 0
  {
    match ts.head
    case Number(_) =>
    case Name(name, call) =>
      if call {
        assert Length(ts) == 2 + Length(ts.tail.tail);
        if !IsOp(ts.tail.tail, ')') { SumsWritten(ts.tail.tail, room); }
      } else if !StandsAlone(name) {
        UnaryWritten(ts.tail, room);
        var Done(arg, rest) := ParseUnary(ts.tail, room);
        UnaryStart(arg, rest);
      }
    case Op(_) => SumWritten(ts.tail, room - 1);
  }

  lemma {:induction false} PostfixedWritten(ts: Tokens, room: nat)
    requires ParsePostfixed(ts, room).Done?
    ensures var Done(tree, rest) := ParsePostfixed(ts, room);
            && PostfixedOk(tree, room) && WritePostfixed(tree, rest) == ts && !IsPostfix(rest)
            && (tree.base.Of? ==> EndsPower(rest))
    decreases Length(ts), 1
  {
    PrimaryWritten(ts, room);
    var Done(base, rest) := ParsePrimary(ts, room);
    PostsWritten(base, [], rest);
  }

  lemma {:induction false} PowerWritten(ts: Tokens, room: nat)
    requires ParsePower(ts, room).Done?
    ensures var Done(tree, rest) := ParsePower(ts, room);
            PowerOk(tree, room) && WritePower(tree, rest) == ts && EndsPower(rest)
    decreases Length(ts), 2
  {
    PostfixedWritten(ts, room);
    var Done(base, rest) := ParsePostfixed(ts, room);
    if IsOp(rest, '^') { UnaryWritten(rest.tail, room); }
  }

  lemma {:induction false} UnaryWritten(ts: Tokens, room: nat)
    requires ParseUnary(ts, room).Done?
    ensures var Done(tree, rest) := ParseUnary(ts, room);
            UnaryOk(tree, room) && WriteUnary(tree, rest) == ts && EndsPower(rest)
    decreases Length(ts), 3
  {
    if IsOp(ts, '-') || IsOp(ts, '+') { UnaryWritten(ts.tail, room - 1); } else { PowerWritten(ts, room - 1); }
  }

  lemma {:induction false} ProductTailWritten(left: Product, ts: Tokens, room: nat)
    requires ProductOk(left, room) && EndsPower(ts)
    requires ProductTail(left, ts, room).Done?
    ensures var Done(tree, rest) := ProductTail(left, ts, room);
            ProductOk(tree, room) && WriteProduct(tree, rest) == WriteProduct(left, ts) && EndsProduct(rest)
    decreases Length(ts), 4
  {
    if IsOp(ts, '*') || IsOp(ts, '/') {
      UnaryWritten(ts.tail, room);
      var Done(right, rest) := ParseUnary(ts.tail, room);
      ProductTailWritten(if ts.head.op == '*' then Times(left, right) else Over(left, right), rest, room);
    } else if StartsBeside(ts) {
      PowerWritten(ts, room);
      var Done(next, rest) := ParsePower(ts, room);
      PowerStart(next, rest);
      ProductTailWritten(Beside(left, next), rest, room);
    }
  }

  lemma {:induction false} ProductWritten(ts: Tokens, room: nat)
    requires ParseProduct(ts, room).Done?
    ensures var Done(tree, rest) := ParseProduct(ts, room);
            ProductOk(tree, room) && WriteProduct(tree, rest) == ts && EndsProduct(rest)
    decreases Length(ts), 5
  {
    UnaryWritten(ts, room);
    var Done(first, rest) := ParseUnary(ts, room);
    ProductTailWritten(Factor(first), rest, room);
  }

  lemma {:induction false} SumTailWritten(left: Sum, ts: Tokens, room: nat)
    requires SumOk(left, room) && EndsProduct(ts)
    requires SumTail(left, ts, room).Done?
    ensures var Done(tree, rest) := SumTail(left, ts, room);
            SumOk(tree, room) && WriteSum(tree, rest) == WriteSum(left, ts) && EndsSum(rest)
    decreases Length(ts), 6
  {
    if IsOp(ts, '+') || IsOp(ts, '-') {
      ProductWritten(ts.tail, room);
      var Done(right, rest) := ParseProduct(ts.tail, room);
      SumTailWritten(if ts.head.op == '+' then Add(left, right) else Subtract(left, right), rest, room);
    }
  }

  lemma {:induction false} SumWritten(ts: Tokens, room: nat)
    requires ParseSum(ts, room).Done?
    ensures var Done(tree, rest) := ParseSum(ts, room);
            SumOk(tree, room) && WriteSum(tree, rest) == ts && EndsSum(rest)
    decreases Length(ts), 7
  {
    ProductWritten(ts, room);
    var Done(first, rest) := ParseProduct(ts, room);
    SumTailWritten(Term(first), rest, room);
  }

  lemma {:induction false} SumsWritten(ts: Tokens, room: nat)
    requires ParseSums(ts, room).Done?
    ensures var Done(tree, rest) := ParseSums(ts, room);
            && tree.More? && SumsOk(tree, room) && WriteSums(tree, rest) == ts
            && EndsSum(rest) && !IsOp(rest, ',')
    decreases Length(ts), 8
  {
    SumWritten(ts, room);
    var Done(head, rest) := ParseSum(ts, room);
    if IsOp(rest, ',') { SumsWritten(rest.tail, room); }
  }

  // ------------------------------------------------------------- main results

  /** What is read is exactly what the grammar writes: sound, complete, and unambiguous. */
  lemma ReadsExactlyTheGrammar(ts: Tokens, tree: Sums, room: nat)
    ensures ParseSums(ts, room) == Done(tree, End) <==> tree.More? && SumsOk(tree, room) && WriteSums(tree, End) == ts
  {
    if ParseSums(ts, room) == Done(tree, End) { SumsWritten(ts, room); }
    if tree.More? && SumsOk(tree, room) && WriteSums(tree, End) == ts { ReadSums(tree, End, room); }
  }

  lemma Unambiguous(a: Sums, b: Sums, room: nat)
    requires a.More? && b.More? && SumsOk(a, room) && SumsOk(b, room)
    requires WriteSums(a, End) == WriteSums(b, End)
    ensures a == b
  {
    ReadsExactlyTheGrammar(WriteSums(a, End), a, room);
    ReadsExactlyTheGrammar(WriteSums(a, End), b, room);
  }
}
