/** Any sequence of keys on the editor, and what UNDO brings back after it. */
module Edits {
  import opened Editor

  /** What a key comes to on the editor. */
  datatype Edit = Char(c: char) | Rub | Return | Go(dx: int, dy: int) | GoTo(line: nat) | UndoKey

  function After(s: State, e: Edit): State {
    match e
    case Char(c) => Typed(s, c)
    case Rub => RubbedOut(s)
    case Return => Returned(s)
    case Go(dx, dy) => s.(doc := Moved(s.doc, dx, dy), last := NoOp)
    case GoTo(line) => s.(doc := WentTo(s.doc, line), last := NoOp)
    case UndoKey => Undone(s)
  }

  function All(s: State, es: seq<Edit>): State {
    if es == [] then s else After(All(s, es[..|es| - 1]), es[|es| - 1])
  }

  /** The editor taken through the keys. */
  method Press(b: Buffer, e: Edit)
    requires b.Valid()
    modifies b
    ensures b.Valid() && b.All() == After(old(b.All()), e)
  {
    match e {
      case Char(c) => b.InsertChar(c);
      case Rub => b.Backspace();
      case Return => b.Newline();
      case Go(dx, dy) => b.Move(dx, dy);
      case GoTo(line) => b.Goto(line);
      case UndoKey => var _ := b.Undo();
    }
  }

  method PressAll(b: Buffer, es: seq<Edit>)
    requires b.Valid()
    modifies b
    ensures b.Valid() && b.All() == All(old(b.All()), es)
  {
    for i := 0 to |es|
      invariant b.Valid() && b.All() == All(old(b.All()), es[..i])
    {
      assert es[..i + 1][..i] == es[..i];
      Press(b, es[i]);
    }
    assert es[..|es|] == es;
  }

  // -------------------------------------------------------- steps, by the keys pressed

  /** An edit that finds nothing to do. */
  predicate Idle(s: State, e: Edit) {
    (e.Rub? && s.doc.cursor == 0) || (e.UndoKey? && !s.canUndo)
  }

  /** The run an edit leaves going on: typing and a new line go on as typing, deleting as deleting,
      and moving or UNDO ends whatever it was. */
  function KindOf(e: Edit): Op {
    match e
    case Char(_) => Insert
    case Return => Insert
    case Rub => Delete
    case _ => NoOp
  }

  /** What was going on before the last edit, told from the keys alone. */
  function Going(s: State, es: seq<Edit>): Op {
    if es == [] then s.last
    else
      var front, e := es[..|es| - 1], es[|es| - 1];
      if Idle(All(s, front), e) then Going(s, front) else KindOf(e)
  }

  /** The k-th edit began a step: a new line or UNDO always does, typing and deleting where something
      else was going on, and moving never. */
  predicate Begins(s: State, es: seq<Edit>, k: nat)
    requires k < |es|
  {
    var e := es[k];
    && !Idle(All(s, es[..k]), e)
    && match e
       case Return => true
       case UndoKey => true
       case Char(_) => Going(s, es[..k]) != Insert
       case Rub => Going(s, es[..k]) != Delete
       case _ => false
  }

  lemma {:induction false} GoingIsLast(s: State, es: seq<Edit>)
    ensures All(s, es).last == Going(s, es)
  {
    if es != [] { GoingIsLast(s, es[..|es| - 1]); }
  }

  lemma Step(s: State, es: seq<Edit>)
    requires es != []
    ensures var front := es[..|es| - 1];
            var u, v := All(s, front), All(s, es);
            if Begins(s, es, |es| - 1) then v.undo == u.doc && v.canUndo
            else v.undo == u.undo && v.canUndo == u.canUndo
  {
    GoingIsLast(s, es[..|es| - 1]);
  }

  /** What UNDO would bring back is the document from before the last edit that began a step. */
  lemma {:induction false} UndoIsBeforeTheStep(s: State, es: seq<Edit>, k: nat)
    requires k < |es| && Begins(s, es, k) && forall j :: k < j < |es| ==> !Begins(s, es, j)
    ensures All(s, es).canUndo && All(s, es).undo == All(s, es[..k]).doc
    decreases |es|
  {
    var front := es[..|es| - 1];
    Step(s, es);
    if k < |front| {
      forall j | k <= j < |front| ensures Begins(s, front, j) <==> Begins(s, es, j) {
        assert front[..j] == es[..j];
      }
      UndoIsBeforeTheStep(s, front, k);
      assert front[..k] == es[..k];
    }
  }

  /** And where none did, what it was at first. */
  lemma {:induction false} UndoIsAsItWas(s: State, es: seq<Edit>)
    requires forall j :: 0 <= j < |es| ==> !Begins(s, es, j)
    ensures All(s, es).canUndo == s.canUndo && All(s, es).undo == s.undo
    decreases |es|
  {
    if es != [] {
      var front := es[..|es| - 1];
      Step(s, es);
      forall j | 0 <= j < |front| ensures !Begins(s, front, j) {
        assert front[..j] == es[..j];
        assert !Begins(s, es, j);
      }
      UndoIsAsItWas(s, front);
    }
  }

  /** After any keys whatever, UNDO takes back everything since the last step began, and no more; and
      UNDO again brings it all back. */
  lemma UndoTakesBackTheStep(s: State, es: seq<Edit>, k: nat)
    requires k < |es| && Begins(s, es, k) && forall j :: k < j < |es| ==> !Begins(s, es, j)
    ensures var once, twice := All(s, es + [UndoKey]), All(s, es + [UndoKey, UndoKey]);
            once.doc == All(s, es[..k]).doc && twice.doc == All(s, es).doc
  {
    UndoIsBeforeTheStep(s, es, k);
    UndoOnce(s, es);
    UndoOnce(s, es + [UndoKey]);
    assert es + [UndoKey, UndoKey] == es + [UndoKey] + [UndoKey];
  }

  lemma UndoOnce(s: State, es: seq<Edit>)
    ensures All(s, es + [UndoKey]) == Undone(All(s, es))
  {
    assert (es + [UndoKey])[..|es|] == es;
  }

  /** UNDO finds nothing to do exactly where it could not at first and no step has begun since. */
  lemma NothingToUndoExactly(s: State, es: seq<Edit>)
    ensures !All(s, es).canUndo <==> !s.canUndo && forall k :: 0 <= k < |es| ==> !Begins(s, es, k)
  {
    if k: nat :| k < |es| && Begins(s, es, k) {
      SomeStep(s, es, k);
    } else {
      UndoIsAsItWas(s, es);
    }
  }

  lemma {:induction false} SomeStep(s: State, es: seq<Edit>, k: nat)
    requires k < |es| && Begins(s, es, k)
    ensures All(s, es).canUndo
    decreases |es|
  {
    var front := es[..|es| - 1];
    Step(s, es);
    if k < |front| {
      assert front[..k] == es[..k];
      SomeStep(s, front, k);
    }
  }

  // ----------------------------------------------------------------- runs of one kind

  function Keys(t: string): (es: seq<Edit>)
    ensures |es| == |t| && forall i :: 0 <= i < |t| ==> es[i] == Char(t[i])
  {
    seq(|t|, i requires 0 <= i < |t| => Char(t[i]))
  }

  /** One step and no other: UNDO takes back all of it, and UNDO again brings it back. */
  predicate OneStep(s: State, es: seq<Edit>) {
    && All(s, es + [UndoKey]).doc == s.doc
    && All(s, es + [UndoKey, UndoKey]).doc == All(s, es).doc
  }

  lemma FirstStepOnly(s: State, es: seq<Edit>)
    requires es != [] && Begins(s, es, 0) && forall j :: 0 < j < |es| ==> !Begins(s, es, j)
    ensures OneStep(s, es)
  {
    UndoTakesBackTheStep(s, es, 0);
  }

  lemma GoingAfter(s: State, es: seq<Edit>, j: nat)
    requires 0 < j <= |es| && !Idle(All(s, es[..j - 1]), es[j - 1])
    ensures Going(s, es[..j]) == KindOf(es[j - 1])
  {
    assert es[..j][..j - 1] == es[..j - 1];
  }

  /** However much is typed in one run, it is one step. */
  lemma TypingRun(s: State, t: string)
    requires s.last != Insert && t != ""
    ensures OneStep(s, Keys(t))
  {
    var es := Keys(t);
    forall j | 0 < j < |es| ensures !Begins(s, es, j) {
      GoingAfter(s, es, j);
    }
    FirstStepOnly(s, es);
  }

  /** So is a new line with what is typed on it, whatever went before. */
  lemma NewlineRun(s: State, t: string)
    ensures OneStep(s, [Return] + Keys(t))
  {
    var es := [Return] + Keys(t);
    forall j | 0 < j < |es| ensures !Begins(s, es, j) {
      GoingAfter(s, es, j);
    }
    FirstStepOnly(s, es);
  }

  /** And a run of deletions, past the beginning of the text or not. */
  lemma DeletingRun(s: State, n: nat)
    requires s.last != Delete && 0 < n && s.doc.cursor > 0
    ensures OneStep(s, seq(n, _ => Rub))
  {
    var es := seq(n, _ => Rub);
    forall j | 0 < j < |es| ensures !Begins(s, es, j) {
      DeletingGoesOn(s, es, j);
    }
    FirstStepOnly(s, es);
  }

  lemma {:induction false} DeletingGoesOn(s: State, es: seq<Edit>, j: nat)
    requires 0 < j <= |es| && s.doc.cursor > 0 && forall i :: 0 <= i < |es| ==> es[i] == Rub
    ensures Going(s, es[..j]) == Delete
  {
    assert es[..j][..j - 1] == es[..j - 1];
    if j > 1 { DeletingGoesOn(s, es, j - 1); }
  }

  /** Typing with the cursor moved in the middle of it is two steps, and UNDO takes back the second. */
  lemma MovedBetween(s: State, t: string, dx: int, dy: int, u: string)
    requires u != ""
    ensures var before := Keys(t) + [Go(dx, dy)];
            All(s, before + Keys(u) + [UndoKey]).doc == All(s, before).doc
  {
    var before := Keys(t) + [Go(dx, dy)];
    var es := before + Keys(u);
    var k := |before|;
    assert es[..k] == before && es[k - 1] == Go(dx, dy);
    GoingAfter(s, es, k);
    forall j | k < j < |es| ensures !Begins(s, es, j) {
      GoingAfter(s, es, j);
    }
    UndoTakesBackTheStep(s, es, k);
  }
}
