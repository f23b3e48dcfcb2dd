/** The grammar a formula is read by, one datatype for each nonterminal of the
    recursive descent, and the reading itself over a list of tokens. */
module Formula {
  import opened Numeral
  import Rpn
  import Words

  type NumeralText = s: string | IsNumeral(s) witness "0"

  type NameText = s: string | Rpn.IsName(s) witness "x"

  /** What the scanner hands over. A name carries whether a bracket follows it,
      for the scanner looks ahead to find that out. */
  datatype Token = Number(numeral: NumeralText) | Name(name: NameText, call: bool) | Op(op: char)

  /** The tokens of a text, up to its end or to a character no token begins with. */
  datatype Tokens = End | Broken(at: char) | Next(head: Token, tail: Tokens)

  datatype Postfix = Bang | Word(word: NameText)

  datatype Primary =
    | Literal(numeral: NumeralText)
    | Bracket(inner: Sum)
    | Call(name: NameText, args: Sums)
    | Bare(name: NameText)
    | Of(name: NameText, arg: Unary)

  datatype Postfixed = Postfixed(base: Primary, posts: seq<Postfix>)

  datatype Power = Plain(base: Postfixed) | Raised(base: Postfixed, exponent: Unary)

  datatype Unary = Minus(arg: Unary) | Plus(arg: Unary) | Unsigned(power: Power)

  datatype Product =
    | Factor(first: Unary)
    | Times(left: Product, right: Unary)
    | Over(left: Product, right: Unary)
    | Beside(left: Product, next: Power)

  datatype Sum =
    | Term(first: Product)
    | Add(left: Sum, right: Product)
    | Subtract(left: Sum, right: Product)

  /** Sums with commas between them. */
  datatype Sums = NoMore | More(head: Sum, tail: Sums)

  datatype Parsed<T> = Fail | Done(tree: T, rest: Tokens)

  /** How many brackets and signs may be open at once; the reading recurs at each. */
  const DEPTH_MAX: nat := 32
  const NAME_MAX: nat := 64

  function Length(ts: Tokens): nat {
    match ts
    case Next(_, tail) => 1 + Length(tail)
    case _ => 0
  }

  predicate IsOp(ts: Tokens, op: char) {
    ts.Next? && ts.head == Op(op)
  }

  predicate StartsValue(ts: Tokens) {
    ts.Next? && (ts.head.Number? || ts.head.Name? || ts.head == Op('('))
  }

  predicate IsPostfixWord(w: string) {
    w == "sq" || w == "cb" || w == "inv" || w == "fac"
  }

  predicate IsPostfix(ts: Tokens) {
    ts.Next? && (ts.head == Op('!') || (ts.head.Name? && !ts.head.call && IsPostfixWord(ts.head.name)))
  }

  predicate StartsBeside(ts: Tokens) {
    ts.Next? && (ts.head.Name? || ts.head == Op('('))
  }

  predicate IsShortNumber(text: string) {
    |text| + 4 <= 64
  }

  predicate IsShortName(text: string) {
    |text| < NAME_MAX
  }

  /** A word that stands for a value by itself: unknown here, or taking nothing. */
  predicate StandsAlone(name: string) {
    var e := Words.EffectOf(name);
    e.Some? ==> e.value.takes == 0
  }

  /** A function that may take its argument without brackets. */
  predicate AppliesBare(name: NameText) {
    var e := Words.EffectOf(name);
    e.Some? && e.value.takes == 1 && e.value.leaves == 1
  }

  // ---------------------------------------------------------------- reading

  /** @p room is how many more brackets and signs may be opened. */
  function ParsePrimary(ts: Tokens, room: nat): (r: Parsed<Primary>)
    ensures r.Done? ==> Length(r.rest) < Length(ts)
    decreases Length(ts), 0
  {
    if !ts.Next? then Fail
    else match ts.head
      case Number(numeral) =>
        if IsShortNumber(numeral) then Done(Literal(numeral), ts.tail) else Fail
      case Name(name, call) =>
        if !IsShortName(name) then Fail
        else if call then
          if !IsOp(ts.tail, '(') then Fail
          else if IsOp(ts.tail.tail, ')') then
            assert Length(ts.tail.tail) == 1 + Length(ts.tail.tail.tail);
            assert Length(ts.tail) == 1 + Length(ts.tail.tail);
            Done(Call(name, NoMore), ts.tail.tail.tail)
          else (
            match ParseSums(ts.tail.tail, room)
            case Fail => Fail
            case Done(args, rest) => if IsOp(rest, ')') then Done(Call(name, args), rest.tail) else Fail
          )
        else if StandsAlone(name) then Done(Bare(name), ts.tail)
        else if !AppliesBare(name) || !StartsValue(ts.tail) then Fail
        else (
          match ParseUnary(ts.tail, room)
          case Fail => Fail
          case Done(arg, rest) => Done(Of(name, arg), rest)
        )
      case Op(op) =>
        if op != '(' || room == 0 then Fail
        else match ParseSum(ts.tail, room - 1)
          case Fail => Fail
          case Done(inner, rest) => if IsOp(rest, ')') then Done(Bracket(inner), rest.tail) else Fail
  }

  function PostfixOf(t: Token): Postfix {
    if t.Name? then Word(t.name) else Bang
  }

  function PostfixTail(base: Primary, posts: seq<Postfix>, ts: Tokens): (r: (Postfixed, Tokens))
    ensures Length(r.1) <= Length(ts)
    decreases ts
  {
    if IsPostfix(ts) then PostfixTail(base, posts + [PostfixOf(ts.head)], ts.tail)
    else (Postfixed(base, posts), ts)
  }

  function ParsePostfixed(ts: Tokens, room: nat): (r: Parsed<Postfixed>)
    ensures r.Done? ==> Length(r.rest) < Length(ts)
    decreases Length(ts), 1
  {
    match ParsePrimary(ts, room)
    case Fail => Fail
    case Done(base, rest) => var (tree, left) := PostfixTail(base, [], rest); Done(tree, left)
  }

  function ParsePower(ts: Tokens, room: nat): (r: Parsed<Power>)
    ensures r.Done? ==> Length(r.rest) < Length(ts)
    decreases Length(ts), 2
  {
    match ParsePostfixed(ts, room)
    case Fail => Fail
    case Done(base, rest) =>
      if !IsOp(rest, '^') then Done(Plain(base), rest)
      else match ParseUnary(rest.tail, room)
        case Fail => Fail
        case Done(exponent, left) => Done(Raised(base, exponent), left)
  }

  function ParseUnary(ts: Tokens, room: nat): (r: Parsed<Unary>)
    ensures r.Done? ==> Length(r.rest) < Length(ts)
    decreases Length(ts), 3
  {
    if room == 0 then Fail
    else if IsOp(ts, '-') then (
      match ParseUnary(ts.tail, room - 1)
      case Fail => Fail
      case Done(arg, rest) => Done(Minus(arg), rest)
    )
    else if IsOp(ts, '+') then (
      match ParseUnary(ts.tail, room - 1)
      case Fail => Fail
      case Done(arg, rest) => Done(Plus(arg), rest)
    )
    else match ParsePower(ts, room - 1)
      case Fail => Fail
      case Done(power, rest) => Done(Unsigned(power), rest)
  }

  function Multiplied(left: Product, sign: char, right: Unary): Product {
    if sign == '*' then Times(left, right) else Over(left, right)
  }

  function Added(left: Sum, sign: char, right: Product): Sum {
    if sign == '+' then Add(left, right) else Subtract(left, right)
  }

  function ProductTail(left: Product, ts: Tokens, room: nat): (r: Parsed<Product>)
    ensures r.Done? ==> Length(r.rest) <= Length(ts)
    decreases Length(ts), 4
  {
    if IsOp(ts, '*') || IsOp(ts, '/') then (
      match ParseUnary(ts.tail, room)
      case Fail => Fail
      case Done(right, rest) =>
        ProductTail(Multiplied(left, ts.head.op, right), rest, room)
    )
    else if StartsBeside(ts) then (
      match ParsePower(ts, room)
      case Fail => Fail
      case Done(next, rest) => ProductTail(Beside(left, next), rest, room)
    )
    else Done(left, ts)
  }

  function ParseProduct(ts: Tokens, room: nat): (r: Parsed<Product>)
    ensures r.Done? ==> Length(r.rest) < Length(ts)
    decreases Length(ts), 5
  {
    match ParseUnary(ts, room)
    case Fail => Fail
    case Done(first, rest) => ProductTail(Factor(first), rest, room)
  }

  function SumTail(left: Sum, ts: Tokens, room: nat): (r: Parsed<Sum>)
    ensures r.Done? ==> Length(r.rest) <= Length(ts)
    decreases Length(ts), 6
  {
    if IsOp(ts, '+') || IsOp(ts, '-') then (
      match ParseProduct(ts.tail, room)
      case Fail => Fail
      case Done(right, rest) =>
        SumTail(Added(left, ts.head.op, right), rest, room)
    )
    else Done(left, ts)
  }

  function ParseSum(ts: Tokens, room: nat): (r: Parsed<Sum>)
    ensures r.Done? ==> Length(r.rest) < Length(ts)
    decreases Length(ts), 7
  {
    match ParseProduct(ts, room)
    case Fail => Fail
    case Done(first, rest) => SumTail(Term(first), rest, room)
  }

  /** One sum or more, commas between. */
  function ParseSums(ts: Tokens, room: nat): (r: Parsed<Sums>)
    ensures r.Done? ==> Length(r.rest) < Length(ts) && r.tree.More?
    decreases Length(ts), 8
  {
    match ParseSum(ts, room)
    case Fail => Fail
    case Done(head, rest) =>
      if !IsOp(rest, ',') then Done(More(head, NoMore), rest)
      else match ParseSums(rest.tail, room)
        case Fail => Fail
        case Done(tail, left) => Done(More(head, tail), left)
  }

  // ------------------------------------------------- writing a tree as tokens

  function WritePrimary(p: Primary, rest: Tokens): Tokens {
    match p
    case Literal(numeral) => Next(Number(numeral), rest)
    case Bracket(inner) => Next(Op('('), WriteSum(inner, Next(Op(')'), rest)))
    case Call(name, args) => Next(Name(name, true), Next(Op('('), WriteSums(args, Next(Op(')'), rest))))
    case Bare(name) => Next(Name(name, false), rest)
    case Of(name, arg) => Next(Name(name, false), WriteUnary(arg, rest))
  }

  function WritePosts(posts: seq<Postfix>, rest: Tokens): Tokens {
    if posts == [] then rest
    else Next(if posts[0].Bang? then Op('!') else Name(posts[0].word, false), WritePosts(posts[1..], rest))
  }

  function WritePostfixed(p: Postfixed, rest: Tokens): Tokens {
    WritePrimary(p.base, WritePosts(p.posts, rest))
  }

  function WritePower(p: Power, rest: Tokens): Tokens {
    match p
    case Plain(base) => WritePostfixed(base, rest)
    case Raised(base, exponent) => WritePostfixed(base, Next(Op('^'), WriteUnary(exponent, rest)))
  }

  function WriteUnary(u: Unary, rest: Tokens): Tokens {
    match u
    case Minus(arg) => Next(Op('-'), WriteUnary(arg, rest))
    case Plus(arg) => Next(Op('+'), WriteUnary(arg, rest))
    case Unsigned(power) => WritePower(power, rest)
  }

  function WriteProduct(p: Product, rest: Tokens): Tokens {
    match p
    case Factor(first) => WriteUnary(first, rest)
    case Times(left, right) => WriteProduct(left, Next(Op('*'), WriteUnary(right, rest)))
    case Over(left, right) => WriteProduct(left, Next(Op('/'), WriteUnary(right, rest)))
    case Beside(left, next) => WriteProduct(left, WritePower(next, rest))
  }

  function WriteSum(s: Sum, rest: Tokens): Tokens {
    match s
    case Term(first) => WriteProduct(first, rest)
    case Add(left, right) => WriteSum(left, Next(Op('+'), WriteProduct(right, rest)))
    case Subtract(left, right) => WriteSum(left, Next(Op('-'), WriteProduct(right, rest)))
  }

  function WriteSums(s: Sums, rest: Tokens): Tokens {
    match s
    case NoMore => rest
    case More(head, NoMore) => WriteSum(head, rest)
    case More(head, tail) => WriteSum(head, Next(Op(','), WriteSums(tail, rest)))
  }

  // ---------------------------------------------------------- what is allowed

  predicate PrimaryOk(p: Primary, room: nat) {
    match p
    case Literal(numeral) => IsShortNumber(numeral)
    case Bracket(inner) => room > 0 && SumOk(inner, room - 1)
    case Call(name, args) => IsShortName(name) && SumsOk(args, room)
    case Bare(name) => IsShortName(name) && StandsAlone(name)
    case Of(name, arg) =>
      IsShortName(name) && !StandsAlone(name) && AppliesBare(name) && UnaryOk(arg, room) && arg.Unsigned?
  }

  /** Of reaches as far right as it can, so no postfix applies to the whole of it. */
  predicate PostfixedOk(p: Postfixed, room: nat) {
    && PrimaryOk(p.base, room)
    && (p.base.Of? ==> p.posts == [])
    && forall i :: 0 <= i < |p.posts| ==> p.posts[i].Word? ==> IsPostfixWord(p.posts[i].word)
  }

  predicate PowerOk(p: Power, room: nat) {
    match p
    case Plain(base) => PostfixedOk(base, room)
    case Raised(base, exponent) => PostfixedOk(base, room) && !base.base.Of? && UnaryOk(exponent, room)
  }

  predicate UnaryOk(u: Unary, room: nat) {
    room > 0 &&
    match u
    case Minus(arg) => UnaryOk(arg, room - 1)
    case Plus(arg) => UnaryOk(arg, room - 1)
    case Unsigned(power) => PowerOk(power, room - 1)
  }

  /** Side by side, the second is no number and does not begin with a postfix word. */
  predicate MayStandBeside(p: Power) {
    match p.base.base
    case Literal(_) => false
    case Bracket(_) => true
    case Call(_, _) => true
    case Bare(name) => !IsPostfixWord(name)
    case Of(name, _) => !IsPostfixWord(name)
  }

  predicate ProductOk(p: Product, room: nat) {
    match p
    case Factor(first) => UnaryOk(first, room)
    case Times(left, right) => ProductOk(left, room) && UnaryOk(right, room)
    case Over(left, right) => ProductOk(left, room) && UnaryOk(right, room)
    case Beside(left, next) => ProductOk(left, room) && PowerOk(next, room) && MayStandBeside(next)
  }

  predicate SumOk(s: Sum, room: nat) {
    match s
    case Term(first) => ProductOk(first, room)
    case Add(left, right) => SumOk(left, room) && ProductOk(right, room)
    case Subtract(left, right) => SumOk(left, room) && ProductOk(right, room)
  }

  predicate SumsOk(s: Sums, room: nat) {
    match s
    case NoMore => true
    case More(head, tail) => SumOk(head, room) && SumsOk(tail, room)
  }

  // ------------------------------------------------------------- what follows

  predicate EndsPower(rest: Tokens) {
    !IsPostfix(rest) && !IsOp(rest, '^')
  }

  predicate EndsProduct(rest: Tokens) {
    EndsPower(rest) && !IsOp(rest, '*') && !IsOp(rest, '/') && !StartsBeside(rest)
  }

  predicate EndsSum(rest: Tokens) {
    EndsProduct(rest) && !IsOp(rest, '+') && !IsOp(rest, '-')
  }
}
