/** The lint's count of what words without branches do to the stack, and a signature
    checked against it. */
module Lint {
  import opened Basics
  import opened Words
  import opened Rpn

  /** The syntax tree, as far as the count tells its nodes apart. */
  datatype Node =
    | Comment
    | Block(children: seq<Node>)
    | Literal
    | Local(names: seq<string>)
    | Word(name: string)
    | Other

  /** What words without branches do, counted from nothing: how deep into what was there they reach, and where they
      end. In doubt, the count says nothing. */
  datatype Tally = Tally(takes: int, depth: int, known: bool, bound: set<string>)

  /** Nothing counted yet, with these names bound around it. */
  function Start(scope: set<string>): Tally {
    Tally(0, 0, true, scope)
  }

  /** One step that takes so many values and then leaves so many. */
  function Count1(t: Tally, takes: nat, leaves: nat): Tally {
    var low := t.depth - takes;
    t.(takes := if -low > t.takes then -low else t.takes, depth := low + leaves)
  }

  function CountNode(node: Node, t: Tally): Tally
    decreases node, 1
  {
    if !t.known then t
    else match node
      case Comment => t
      case Block(children) => CountAll(children, t)
      case Literal => Count1(t, 0, 1)
      case Local(names) => Count1(t, |names|, 0).(bound := t.bound + (set n | n in names))
      case Word(name) =>
        if name in t.bound then Count1(t, 0, 1)
        else
          var e := EffectOf(name);
          if e.None? then t.(known := false) else Count1(t, e.value.takes, e.value.leaves)
      case Other => t.(known := false)
  }

  function CountAll(nodes: seq<Node>, t: Tally): Tally
    decreases nodes, 0
  {
    if nodes == [] then t else CountAll(nodes[1..], CountNode(nodes[0], t))
  }

  /** The effect record and the names a body has bound for itself, updated as the walk goes. */
  class Counter {
    var takes: int
    var depth: int
    var known: bool
    var bound: set<string>

    ghost function Now(): Tally
      reads this
    {
      Tally(takes, depth, known, bound)
    }

    constructor (scope: set<string>)
      ensures Now() == Start(scope)
    {
      takes, depth, known, bound := 0, 0, true, scope;
    }

    method Count(node: Node)
      modifies this
      ensures Now() == CountNode(node, old(Now()))
      decreases node
    {
      if !known {
        return;
      }
      var t, l := 0, 0;
      match node {
        case Comment => return;
        case Block(children) =>
          ghost var before := Now();
          assert children[0..] == children;
          for i := 0 to |children|
            invariant CountAll(children, before) == CountAll(children[i..], Now())
          {
            assert children[i..][1..] == children[i + 1..];
            Count(children[i]);
          }
          return;
        case Literal => l := 1;
        case Local(names) =>
          assert names[..|names|] == names;
          for i := 0 to |names|
            invariant takes == old(takes) && depth == old(depth) && known && t == i
            invariant bound == old(bound) + set n | n in names[..i]
          {
            bound := bound + {names[i]};
            t := t + 1;
          }
        case Word(name) =>
          if name in bound {
            l := 1;
          } else {
            var e := EffectOf(name);
            if e.None? {
              known := false;
              return;
            }
            t, l := e.value.takes, e.value.leaves;
          }
        case Other =>
          known := false;
          return;
      }
      depth := depth - t;
      if -depth > takes {
        takes := -depth;
      }
      depth := depth + l;
    }
  }

  // ------------------------------------------------- what running it comes to

  /** The same walk over a stack of so many values; None where a word runs short. */
  datatype Outcome = Short | Left(values: nat, names: set<string>)

  function Step1(values: nat, takes: nat, leaves: nat, names: set<string>): Outcome {
    if values < takes then Short else Left(values - takes + leaves, names)
  }

  function RunNode(node: Node, values: nat, names: set<string>): Outcome
    decreases node, 1
  {
    match node
    case Comment => Left(values, names)
    case Block(children) => RunAll(children, values, names)
    case Literal => Step1(values, 0, 1, names)
    case Local(bound) => Step1(values, |bound|, 0, names + set n | n in bound)
    case Word(name) =>
      if name in names then Step1(values, 0, 1, names)
      else
        var e := EffectOf(name);
        if e.None? then Short else Step1(values, e.value.takes, e.value.leaves, names)
    case Other => Short
  }

  function RunAll(nodes: seq<Node>, values: nat, names: set<string>): Outcome
    decreases nodes, 0
  {
    if nodes == [] then Left(values, names)
    else
      var r := RunNode(nodes[0], values, names);
      if r.Short? then Short else RunAll(nodes[1..], r.values, r.names)
  }

  /** A tally and an outcome of one walk begun with s values: it has gone short exactly when s was
      less than takes, and has s + depth values otherwise. */
  predicate Agrees(t: Tally, s: nat, r: Outcome) {
    && t.takes >= 0 && t.takes + t.depth >= 0
    && (r.Short? <==> s < t.takes)
    && (r.Left? ==> r.values == s + t.depth && r.names == t.bound)
  }

  lemma {:induction false} CountIsExact(node: Node, t: Tally, s: nat, r: Outcome)
    requires t.known && Agrees(t, s, r) && CountNode(node, t).known
    ensures Agrees(CountNode(node, t), s, if r.Short? then Short else RunNode(node, r.values, r.names))
    decreases node, 1
  {
    if node.Block? { CountAllIsExact(node.children, t, s, r); }
  }

  lemma {:induction false} DoubtStays(nodes: seq<Node>, t: Tally)
    requires !t.known
    ensures CountAll(nodes, t) == t
    decreases |nodes|
  {
    if nodes != [] { DoubtStays(nodes[1..], t); }
  }

  lemma {:induction false} CountAllIsExact(nodes: seq<Node>, t: Tally, s: nat, r: Outcome)
    requires t.known && Agrees(t, s, r) && CountAll(nodes, t).known
    ensures Agrees(CountAll(nodes, t), s, if r.Short? then Short else RunAll(nodes, r.values, r.names))
    decreases nodes, 0
  {
    if nodes != [] {
      var next := CountNode(nodes[0], t);
      if !next.known { DoubtStays(nodes[1..], next); }
      CountIsExact(nodes[0], t, s, r);
      CountAllIsExact(nodes[1..], next, s, if r.Short? then Short else RunNode(nodes[0], r.values, r.names));
    }
  }

  /** Where the count knows, a body runs from s values exactly when s reaches takes, and then leaves
      s + depth: that is what takes and depth are. */
  lemma BodyRunsFromTakes(body: Node, scope: set<string>, s: nat)
    requires CountNode(body, Start(scope)).known
    ensures var t := CountNode(body, Start(scope));
            && (RunNode(body, s, scope).Left? <==> s >= t.takes)
            && (s >= t.takes ==> RunNode(body, s, scope).values == s + t.depth)
  {
    CountIsExact(body, Start(scope), s, Left(s, scope));
  }

  // ------------------------------------------------------------- the signature

  datatype Verdict = NoDoubt | DeclareIt(takes: nat, leaves: nat) | TakesMore(takes: nat) | LeavesOther(leaves: nat)

  /** A signature against its body. Inputs are on the stack, unless the definition takes them by name. */
  method CheckEffect(body: Node, scope: set<string>, inputs: nat, outputs: nat, isStack: bool) returns (v: Verdict)
    ensures var given := if isStack then inputs else 0;
            CountNode(body, Start(scope)).known ==>
              (v == NoDoubt <==> RunNode(body, given, scope).Left? && RunNode(body, given, scope).values == outputs)
    ensures !CountNode(body, Start(scope)).known ==> v == NoDoubt
    ensures v.DeclareIt? ==> RunNode(body, v.takes, scope).Left? && RunNode(body, v.takes, scope).values == v.leaves
    ensures v.DeclareIt? ==> inputs == 0 && v.takes > 0 && forall s: nat | s < v.takes :: RunNode(body, s, scope).Short?
    ensures v.TakesMore? ==> inputs > 0 && RunNode(body, v.takes, scope).Left?
    ensures v.TakesMore? ==> v.takes > (if isStack then inputs else 0)
                             && forall s: nat | s < v.takes :: RunNode(body, s, scope).Short?
    ensures v.LeavesOther? ==> v.leaves != outputs
    ensures v.LeavesOther? ==> RunNode(body, if isStack then inputs else 0, scope).Left?
                               && RunNode(body, if isStack then inputs else 0, scope).values == v.leaves
  {
    var c := new Counter(scope);
    c.Count(body);
    if !c.known {
      return NoDoubt;
    }
    var given := if isStack then inputs else 0;
    forall s: nat ensures (RunNode(body, s, scope).Left? <==> s >= c.takes)
                          && (s >= c.takes ==> RunNode(body, s, scope).values == s + c.depth) {
      BodyRunsFromTakes(body, scope, s);
    }
    CountIsExact(body, Start(scope), 0, Left(0, scope));
    if c.takes > given && inputs == 0 {
      return DeclareIt(c.takes, c.takes + c.depth);
    } else if c.takes > given {
      return TakesMore(c.takes);
    } else if given + c.depth != outputs {
      return LeavesOther(given + c.depth);
    }
    return NoDoubt;
  }

  // -------------------------------------------------- two counters, one answer

  /** The words of a body as the parser makes nodes of them. */
  function NodeOf(word: string): Node {
    if IsNumber(word) then Literal else Word(word)
  }

  function NodesOf(words: seq<string>): seq<Node> {
    seq(|words|, i requires 0 <= i < |words| => NodeOf(words[i]))
  }

  lemma {:induction false} TakesOnlyGrow(nodes: seq<Node>, t: Tally)
    requires forall i :: 0 <= i < |nodes| ==> !nodes[i].Block?
    ensures CountAll(nodes, t).takes >= t.takes
    decreases |nodes|
  {
    if nodes != [] { TakesOnlyGrow(nodes[1..], CountNode(nodes[0], t)); }
  }

  lemma {:induction false} CountersAgreeFrom(words: seq<string>, t: Tally)
    requires AllKnown(words) && t.known && t.bound == {} && t.takes == 0 && t.depth >= 0
    ensures var r := CountAll(NodesOf(words), t);
            r.known && CountFrom(words, t.depth) == if r.takes == 0 then r.depth else NOT
    decreases |words|
  {
    if words != [] {
      assert NodesOf(words)[1..] == NodesOf(words[1..]);
      assert AllKnown(words[1..]);
      var next := CountNode(NodeOf(words[0]), t);
      if next.takes == 0 {
        CountersAgreeFrom(words[1..], next);
      } else {
        TakesOnlyGrow(NodesOf(words[1..]), next);
        KnownStays(words[1..], next);
      }
    }
  }

  lemma {:induction false} KnownStays(words: seq<string>, t: Tally)
    requires AllKnown(words) && t.known && t.bound == {}
    ensures CountAll(NodesOf(words), t).known
    decreases |words|
  {
    if words != [] {
      assert NodesOf(words)[1..] == NodesOf(words[1..]);
      assert AllKnown(words[1..]);
      KnownStays(words[1..], CountNode(NodeOf(words[0]), t));
    }
  }

  /** On a body of numbers and known words the plotter's count is the lint's depth where the lint finds
      nothing taken from below, and NOT where it does. */
  lemma CountersAgree(words: seq<string>)
    requires AllKnown(words)
    ensures var t := CountNode(Block(NodesOf(words)), Start({}));
            t.known && CountFrom(words, 0) == if t.takes == 0 then t.depth else NOT
  {
    CountersAgreeFrom(words, Start({}));
  }

  // ------------------------------------------------ the tally and the machine

  /** What the tally says of words, a machine does: it runs them on a stack exactly where there are as many
      values as the tally takes, and then there are so many more or fewer. */
  lemma {:induction false} WordsRunFromTakes(m: Machine, words: seq<string>, stack: seq<real>, t: Tally, s: nat)
    requires m.Valid() && AllKnown(words) && t.known && t.bound == {}
    requires t.takes <= s && |stack| == s + t.depth
    ensures var r := CountAll(NodesOf(words), t);
            && r.known
            && (m.Run(words, stack).Some? <==> s >= r.takes)
            && (s >= r.takes ==> |m.Run(words, stack).value| == s + r.depth)
    decreases |words|
  {
    if words != [] {
      assert NodesOf(words)[1..] == NodesOf(words[1..]);
      assert AllKnown(words[1..]);
      var next := CountNode(NodeOf(words[0]), t);
      var step := m.Step(words[0], stack);
      if step.Some? {
        WordsRunFromTakes(m, words[1..], step.value, next, s);
      } else {
        TakesOnlyGrow(NodesOf(words[1..]), next);
        KnownStays(words[1..], next);
      }
    }
  }

  /** The lint's count of a body of known words, against any machine that has the table's words. */
  lemma TallyIsTheMachines(m: Machine, words: seq<string>, stack: seq<real>)
    requires m.Valid() && AllKnown(words)
    ensures var t := CountNode(Block(NodesOf(words)), Start({}));
            && t.known
            && (m.Run(words, stack).Some? <==> |stack| >= t.takes)
            && (|stack| >= t.takes ==> |m.Run(words, stack).value| == |stack| + t.depth)
  {
    WordsRunFromTakes(m, words, stack, Start({}), |stack|);
  }

  // ------------------------------------------------------ one body after another

  function Greater(a: int, b: int): int {
    if a > b then a else b
  }

  /** One tally and then another: the second reaches down from where the first ended, and is not begun
      where the first is in doubt. */
  function Then(a: Tally, b: Tally): Tally {
    if !a.known then a else Tally(Greater(a.takes, b.takes - a.depth), a.depth + b.depth, b.known, b.bound)
  }

  lemma {:induction false} NodeFrom(node: Node, t: Tally)
    requires t.known && t.takes + t.depth >= 0
    ensures var r := CountNode(node, t);
            r == Then(t, CountNode(node, Start(t.bound))) && r.takes + r.depth >= 0
    decreases node, 1
  {
    if node.Block? { AllFrom(node.children, t); }
  }

  /** A body counted from a tally is that tally and then the body's own. */
  lemma {:induction false} AllFrom(nodes: seq<Node>, t: Tally)
    requires t.known && t.takes + t.depth >= 0
    ensures var r := CountAll(nodes, t);
            r == Then(t, CountAll(nodes, Start(t.bound))) && r.takes + r.depth >= 0
    decreases nodes, 0
  {
    if nodes != [] {
      var next, first := CountNode(nodes[0], t), CountNode(nodes[0], Start(t.bound));
      NodeFrom(nodes[0], t);
      NodeFrom(nodes[0], Start(t.bound));
      if first.known {
        AllFrom(nodes[1..], next);
        AllFrom(nodes[1..], first);
      } else {
        DoubtStays(nodes[1..], next);
        DoubtStays(nodes[1..], first);
      }
    }
  }

  lemma {:induction false} CountBoth(a: seq<Node>, b: seq<Node>, t: Tally)
    ensures CountAll(a + b, t) == CountAll(b, CountAll(a, t))
    decreases |a|
  {
    if a == [] {
      assert a + b == b;
    } else {
      assert (a + b)[1..] == a[1..] + b;
      CountBoth(a[1..], b, CountNode(a[0], t));
    }
  }

  /** The tally of one body after another is made of theirs: it takes what the first takes, or what the second
      takes beyond what the first has left there, and their depths add up. */
  lemma TalliesCompose(a: seq<Node>, b: seq<Node>, scope: set<string>)
    ensures var first := CountNode(Block(a), Start(scope));
            CountNode(Block(a + b), Start(scope)) == Then(first, CountNode(Block(b), Start(first.bound)))
  {
    var first := CountAll(a, Start(scope));
    CountBoth(a, b, Start(scope));
    AllFrom(a, Start(scope));
    if first.known { AllFrom(b, first); } else { DoubtStays(b, first); }
  }
}
