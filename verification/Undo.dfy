/** One step back, and what a failure leaves: the stack and the step it can go back to, as if never tried. */
module Undo {
  import opened Basics

  const LEVELS: nat := 99

  /** What of a level a snapshot keeps. */
  datatype Value = Value(bits: int)

  /** A level of the stack: one a snapshot holds as it is, or one it holds only as text. */
  datatype Element = Holds(value: Value) | Shows(text: Value)

  type Stack = seq<Element>

  /** What evaluating something does to a stack, and whether it succeeds. */
  type Evaluation = Stack -> (Stack, bool)

  function Slot(e: Element): Value {
    match e
    case Holds(v) => v
    case Shows(t) => t
  }

  /** The top so many levels, the top first. */
  function TopFirst(st: Stack, n: nat): (t: seq<Value>)
    requires n <= |st|
    ensures |t| == n
  {
    seq(n, i requires 0 <= i < n => Slot(st[|st| - 1 - i]))
  }

  function Depth(st: Stack): (n: nat)
    ensures n <= |st| && n <= LEVELS
  {
    if |st| > LEVELS then LEVELS else |st|
  }

  /** Every level of the stack is in its snapshot, and can be pushed again as it was. */
  predicate Exact(st: Stack) {
    |st| <= LEVELS && forall i :: 0 <= i < |st| ==> st[i].Holds?
  }

  /** The stack a snapshot puts back. */
  function PutBack(snapshot: seq<Value>): (st: Stack)
    ensures |st| == |snapshot|
  {
    seq(|snapshot|, i requires 0 <= i < |snapshot| => Holds(snapshot[|snapshot| - 1 - i]))
  }

  function Clean(st: Stack): Stack {
    PutBack(TopFirst(st, Depth(st)))
  }

  /** What a snapshot puts back is the stack it was taken of exactly where that is exact. */
  lemma CleanExactly(st: Stack)
    ensures Clean(st) == st <==> Exact(st)
  {
    if Exact(st) {
      forall i | 0 <= i < |st| ensures Clean(st)[i] == st[i] {
        assert TopFirst(st, |st|)[|st| - 1 - i] == Slot(st[i]);
      }
    } else if Clean(st) == st {
      forall i | 0 <= i < |st| ensures st[i].Holds? { assert Clean(st)[i].Holds?; }
    }
  }

  // ------------------------------------------------------------ what it comes to

  /** A stack, and the one UNDO would bring back. */
  datatype State = State(stack: Stack, back: Option<Stack>)

  function Tried(s: State, eval: Evaluation): State {
    var (after, ok) := eval(s.stack);
    if ok || !Exact(s.stack) then State(after, Some(Clean(s.stack))) else s
  }

  function Undone(s: State): State {
    if s.back.None? then s else State(s.back.value, None)
  }

  /** What has been typed and not entered: nothing, something refused before it is tried, or something to evaluate. */
  datatype Entry = Nothing | Refused | Typed(eval: Evaluation)

  datatype Key = Line(eval: Evaluation) | Word(entry: Entry, eval: Evaluation) | UndoKey

  function Entered(s: State, entry: Entry): (State, bool) {
    match entry
    case Nothing => (s, true)
    case Refused => (s, false)
    case Typed(eval) => (Tried(s, eval), eval(s.stack).1)
  }

  function Pressed(s: State, key: Key): State {
    match key
    case Line(eval) => Tried(s, eval)
    case Word(entry, eval) =>
      var (t, goesOn) := Entered(s, entry);
      if goesOn then Tried(t, eval) else t
    case UndoKey => Undone(s)
  }

  // ------------------------------------------------------------- the shell does it

  class Shell {
    var stack: Stack
    var undo: seq<Value>
    var undoReady: bool
    var undoExact: bool
    // What the last snapshot replaced, and gives way to again after a failure
    var prev: seq<Value>
    var prevReady: bool
    var prevExact: bool

    constructor ()
      ensures Now() == State([], None)
    {
      stack, undo, undoReady, undoExact := [], [], false, false;
      prev, prevReady, prevExact := [], false, false;
    }

    function Now(): State
      reads this
    {
      State(stack, if undoReady then Some(PutBack(undo)) else None)
    }

    method Snapshot()
      modifies this
      ensures stack == old(stack) && undoReady && (undoExact <==> Exact(stack))
      ensures undo == TopFirst(stack, Depth(stack))
      ensures prev == old(undo) && prevReady == old(undoReady) && prevExact == old(undoExact)
    {
      prev, prevReady, prevExact := undo, undoReady, undoExact;
      var depth := Depth(stack);
      undo, undoExact := [], depth == |stack|;
      for i := 0 to depth
        invariant stack == old(stack) && undo == TopFirst(stack, i)
        invariant undoExact <==> depth == |stack| && forall j :: |stack| - i <= j < |stack| ==> stack[j].Holds?
        invariant prev == old(undo) && prevReady == old(undoReady) && prevExact == old(undoExact)
      {
        var level := stack[|stack| - 1 - i];
        undo := undo + [Slot(level)];
        undoExact := undoExact && level.Holds?;
      }
      undoReady := true;
    }

    method PutItBack()
      modifies `stack
      ensures stack == PutBack(undo)
    {
      stack := [];
      var i := |undo|;
      while i > 0
        invariant 0 <= i <= |undo| && |stack| == |undo| - i
        invariant forall k :: 0 <= k < |stack| ==> stack[k] == Holds(undo[|undo| - 1 - k])
      {
        stack := stack + [Holds(undo[i - 1])];
        i := i - 1;
      }
    }

    method Restore()
      modifies this
      ensures Now() == Undone(old(Now()))
    {
      if !undoReady {
        return;
      }
      PutItBack();
      undoReady := false;
    }

    /** Whatever a failure had done to the stack by then is taken back. */
    method Failed()
      modifies this
      ensures if old(undoReady && undoExact)
              then stack == PutBack(old(undo)) && undo == old(prev)
                   && undoReady == old(prevReady) && undoExact == old(prevExact)
              else Now() == old(Now())
    {
      if undoReady && undoExact {
        PutItBack();
        undo, undoReady, undoExact := prev, prevReady, prevExact;
      }
    }

    method Try(eval: Evaluation) returns (ok: bool)
      modifies this
      ensures Now() == Tried(old(Now()), eval) && ok == eval(old(stack)).1
    {
      Snapshot();
      CleanExactly(stack);
      var (after, done) := eval(stack);
      stack, ok := after, done;
      if !ok {
        Failed();
      }
    }

    method EntryCommit(entry: Entry) returns (goesOn: bool)
      modifies this
      ensures (Now(), goesOn) == Entered(old(Now()), entry)
    {
      match entry {
        case Nothing => return true;
        case Refused => return false;
        case Typed(eval) => goesOn := Try(eval);
      }
    }

    method ApplyKeyWord(entry: Entry, eval: Evaluation)
      modifies this
      ensures Now() == Pressed(old(Now()), Word(entry, eval))
    {
      var goesOn := EntryCommit(entry);
      if goesOn {
        var _ := Try(eval);
      }
    }

    method Press(key: Key)
      modifies this
      ensures Now() == Pressed(old(Now()), key)
    {
      match key {
        case Line(eval) => var _ := Try(eval);
        case Word(entry, eval) => ApplyKeyWord(entry, eval);
        case UndoKey => Restore();
      }
    }
  }

  // ------------------------------------------------------------------ over whole runs

  /** A failure changes nothing, whatever it had done to the stack, exactly where the stack was exact, or where it
      did nothing to a stack that UNDO would bring back the same. */
  lemma FailureIsNothing(s: State, eval: Evaluation)
    requires !eval(s.stack).1
    ensures Tried(s, eval) == s
            <==> Exact(s.stack) || (eval(s.stack).0 == s.stack && s.back == Some(Clean(s.stack)))
  {
  }

  /** Whatever an evaluation that fails may have done, nothing has changed: that is so exactly where the stack is
      exact. */
  lemma FailuresAreNothing(s: State)
    ensures (forall eval: Evaluation | !eval(s.stack).1 :: Tried(s, eval) == s) <==> Exact(s.stack)
  {
    if !Exact(s.stack) {
      var pushes: Evaluation := st => (st + [Holds(Value(0))], false);
      assert Tried(s, pushes).stack != s.stack;
    }
  }

  function Run(s: State, keys: seq<Key>): State
    decreases keys
  {
    if keys == [] then s else Run(Pressed(s, keys[0]), keys[1..])
  }

  /** The evaluations of a run, one after the other: a word with something typed before it is two. */
  datatype Step = Eval(eval: Evaluation) | Back

  function Steps(s: State, keys: seq<Key>): seq<Step>
    decreases keys
  {
    if keys == [] then []
    else StepsOf(s, keys[0]) + Steps(Pressed(s, keys[0]), keys[1..])
  }

  function StepsOf(s: State, key: Key): seq<Step> {
    match key
    case Line(eval) => [Eval(eval)]
    case Word(Nothing, eval) => [Eval(eval)]
    case Word(Refused, _) => []
    case Word(Typed(first), eval) => if first(s.stack).1 then [Eval(first), Eval(eval)] else [Eval(first)]
    case UndoKey => [Back]
  }

  function Taken(s: State, step: Step): State {
    match step
    case Eval(eval) => Tried(s, eval)
    case Back => Undone(s)
  }

  function All(s: State, steps: seq<Step>): State
    decreases steps
  {
    if steps == [] then s else All(Taken(s, steps[0]), steps[1..])
  }

  lemma {:induction false} AllBoth(s: State, a: seq<Step>, b: seq<Step>)
    ensures All(s, a + b) == All(All(s, a), b)
    decreases a
  {
    if a == [] {
      assert a + b == b;
    } else {
      assert (a + b)[1..] == a[1..] + b;
      AllBoth(Taken(s, a[0]), a[1..], b);
    }
  }

  /** A run of keys is the run of its steps. */
  lemma {:induction false} KeysAreSteps(s: State, keys: seq<Key>)
    ensures Run(s, keys) == All(s, Steps(s, keys))
    decreases keys
  {
    if keys != [] {
      var one, t := StepsOf(s, keys[0]), Pressed(s, keys[0]);
      KeysAreSteps(t, keys[1..]);
      AllBoth(s, one, Steps(t, keys[1..]));
      KeyIsSteps(s, keys[0]);
    }
  }

  lemma KeyIsSteps(s: State, key: Key)
    ensures All(s, StepsOf(s, key)) == Pressed(s, key)
  {
    match key {
      case Word(Typed(first), eval) =>
        OneStep(Tried(s, first), Eval(eval));
        OneStep(s, Eval(first));
        assert [Eval(first), Eval(eval)][1..] == [Eval(eval)];
      case Word(Nothing, eval) => OneStep(s, Eval(eval));
      case Word(Refused, _) =>
      case Line(eval) => OneStep(s, Eval(eval));
      case UndoKey => OneStep(s, Back);
    }
  }

  lemma OneStep(s: State, step: Step)
    ensures All(s, [step]) == Taken(s, step)
  {
    assert [step][1..] == [];
  }

  predicate Fails(s: State, step: Step) {
    step.Eval? && !step.eval(s.stack).1
  }

  /** The steps that did not fail. */
  function Good(s: State, steps: seq<Step>): seq<Step>
    decreases steps
  {
    if steps == [] then []
    else (if Fails(s, steps[0]) then [] else [steps[0]]) + Good(Taken(s, steps[0]), steps[1..])
  }

  /** Wherever something fails, the stack can be put back. */
  predicate FailsOnlyWhereExact(s: State, steps: seq<Step>)
    decreases steps
  {
    steps == [] || ((Fails(s, steps[0]) ==> Exact(s.stack)) && FailsOnlyWhereExact(Taken(s, steps[0]), steps[1..]))
  }

  /** A run with failures in it comes to what it comes to without them: the same stack, and the same step back. */
  lemma {:induction false} FailuresDropOut(s: State, steps: seq<Step>)
    requires FailsOnlyWhereExact(s, steps)
    ensures All(s, steps) == All(s, Good(s, steps))
    decreases steps
  {
    if steps != [] {
      var t := Taken(s, steps[0]);
      FailuresDropOut(t, steps[1..]);
      var rest := Good(t, steps[1..]);
      if Fails(s, steps[0]) {
        FailureIsNothing(s, steps[0].eval);
        assert [] + rest == rest;
      } else {
        assert ([steps[0]] + rest)[1..] == rest;
      }
    }
  }

  /** So does a run of keys: what they come to is what the evaluations among them that succeeded come to, one after the
      other, with the UNDOs between. */
  lemma KeysComeToTheirSuccesses(s: State, keys: seq<Key>)
    requires FailsOnlyWhereExact(s, Steps(s, keys))
    ensures Run(s, keys) == All(s, Good(s, Steps(s, keys)))
  {
    KeysAreSteps(s, keys);
    FailuresDropOut(s, Steps(s, keys));
  }

  /** So after any keys, UNDO brings back the stack from before the last step that succeeded, if that was exact. */
  lemma UndoAfterFailures(s: State, last: Evaluation, failures: seq<Step>)
    requires Exact(s.stack) && last(s.stack).1
    requires var t := Tried(s, last);
             && Exact(t.stack) && forall i :: 0 <= i < |failures| ==> Fails(t, failures[i])
    ensures Undone(All(Tried(s, last), failures)) == State(s.stack, None)
  {
    AllFail(Tried(s, last), failures);
    CleanExactly(s.stack);
  }

  lemma {:induction false} AllFail(t: State, failures: seq<Step>)
    requires Exact(t.stack) && forall i :: 0 <= i < |failures| ==> Fails(t, failures[i])
    ensures All(t, failures) == t
    decreases failures
  {
    if failures != [] {
      FailureIsNothing(t, failures[0].eval);
      AllFail(t, failures[1..]);
    }
  }
}
