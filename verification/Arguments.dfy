/** What an app is handed of its caller's stack, and what it hands back. */
module Arguments {
  import opened Basics
  import opened Visitor

  lemma OneMore(sh: Shell, caller: Stack, own: Stack, front: seq<Act>, act: Act)
    ensures var before, d := Does(sh, caller, own, front), Does(sh, caller, own, front + [act]);
            if before.failed then d == before
            else d == DoesOne(before.sh, caller, before.own, act).(done := before.done + 1)
  {
    assert (front + [act])[..|front|] == front;
  }

  /** The next argument is the caller's next number from the top with 1 over it; where the next is no number, or there
      is none, it is nought with nought over it, and nothing more is read. */
  lemma ArgIsNext(sh: Shell, caller: Stack, own: Stack, front: seq<Act>)
    requires !Does(sh, caller, own, front).failed
    ensures var before, d := Does(sh, caller, own, front), Does(sh, caller, own, front + [Arg]);
            var k := before.sh.taken;
            && !d.failed
            && if k < |caller| && caller[|caller| - 1 - k].Number? then
                 d.own == before.own + [caller[|caller| - 1 - k], Number(1)] && d.sh == before.sh.(taken := k + 1)
               else
                 d.own == before.own + [Number(0), Number(0)] && d.sh == before.sh
  {
    OneMore(sh, caller, own, front, Arg);
  }

  /** An answer is the top of the app's own stack; it is refused exactly where there are eight, or nothing to give. */
  lemma AnswerIsTop(sh: Shell, caller: Stack, own: Stack, front: seq<Act>)
    requires !Does(sh, caller, own, front).failed
    ensures var before, d := Does(sh, caller, own, front), Does(sh, caller, own, front + [Answer]);
            if |before.sh.answers| >= 8 || before.own == [] then
              d.failed && d.sh == before.sh && d.own == before.own
            else
              && !d.failed && d.own == before.own[..|before.own| - 1]
              && d.sh == before.sh.(answers := before.sh.answers + before.own[|before.own| - 1..])
  {
    OneMore(sh, caller, own, front, Answer);
  }

  /** What is set is had and saved at once. */
  lemma ConfigureSets(sh: Shell, caller: Stack, own: Stack, front: seq<Act>, c: Config)
    requires !Does(sh, caller, own, front).failed
    ensures var before, d := Does(sh, caller, own, front), Does(sh, caller, own, front + [Configure(c)]);
            && !d.failed && d.own == before.own && d.sh.now.config == c && d.sh.stored.config == c
            && d.sh.now.(config := before.sh.now.config) == before.sh.now
  {
    OneMore(sh, caller, own, front, Configure(c));
  }

  /** So is what is drawn, with a word for each body. */
  lemma DrawSets(sh: Shell, caller: Stack, own: Stack, front: seq<Act>, s: seq<Plot>, v: View, g: bool, a: bool)
    requires !Does(sh, caller, own, front).failed
    ensures var before, d := Does(sh, caller, own, front), Does(sh, caller, own, front + [Draw(s, v, g, a)]);
            && !d.failed && d.own == before.own && d.sh.now == Found(before.sh.now.config, s, v, g, a)
            && d.sh.stored == Found(before.sh.stored.config, s, v, g, a)
            && |d.sh.declared| == |s| && forall i :: 0 <= i < |s| ==> d.sh.declared[i] == s[i].body
  {
    OneMore(sh, caller, own, front, Draw(s, v, g, a));
  }

  /** Calling keep raises its flag, and nothing else. */
  lemma KeepRaises(sh: Shell, caller: Stack, own: Stack, front: seq<Act>)
    requires !Does(sh, caller, own, front).failed
    ensures var before, d := Does(sh, caller, own, front), Does(sh, caller, own, front + [KeepCfg]);
            !d.failed && d.own == before.own && d.sh == before.sh.(keepCfg := true)
    ensures var before, d := Does(sh, caller, own, front), Does(sh, caller, own, front + [KeepGr]);
            !d.failed && d.own == before.own && d.sh == before.sh.(keepGr := true)
  {
    OneMore(sh, caller, own, front, KeepCfg);
    OneMore(sh, caller, own, front, KeepGr);
  }

  /** Computing is on the app's own stack, and touches nothing else. */
  lemma ComputeDoes(sh: Shell, caller: Stack, own: Stack, front: seq<Act>, f: Stack -> Stack)
    requires !Does(sh, caller, own, front).failed
    ensures var before, d := Does(sh, caller, own, front), Does(sh, caller, own, front + [Compute(f)]);
            !d.failed && d.sh == before.sh && d.own == f(before.own)
  {
    OneMore(sh, caller, own, front, Compute(f));
  }

  /** An app that is not there any more has gone wrong, and changed nothing. */
  lemma GoneFails(sh: Shell, caller: Stack)
    ensures Ran(sh, caller, Gone) == (sh, caller, false)
  {
  }

  /** A failure ends the app, and so does a break, which is not forgotten. */
  lemma WhatEnds(sh: Shell, caller: Stack, own: Stack, front: seq<Act>)
    requires !Does(sh, caller, own, front).failed
    ensures Does(sh, caller, own, front + [Fail]).failed
    ensures Does(sh, caller, own, front + [Break]).failed && Does(sh, caller, own, front + [Break]).sh.broken
  {
    OneMore(sh, caller, own, front, Fail);
    OneMore(sh, caller, own, front, Break);
  }

  /** An app run inside, on the app's own stack, ends it too where it went wrong and nothing catches that. */
  lemma RunInside(sh: Shell, caller: Stack, own: Stack, front: seq<Act>, app: App, caught: bool)
    requires !Does(sh, caller, own, front).failed
    ensures var before, d := Does(sh, caller, own, front), Does(sh, caller, own, front + [Run(app, caught)]);
            var (after, left, ok) := Ran(before.sh, before.own, app);
            d.sh == after && d.own == left && (d.failed <==> !ok && !caught)
  {
    OneMore(sh, caller, own, front, Run(app, caught));
  }

  /** With keep called, what was set stays set when the app ends, however it ends; and so does what was drawn. */
  lemma KeptStays(sh: Shell, caller: Stack, app: App)
    requires app.App?
    ensures var d, t := Does(Begun(sh, app), caller, [], app.acts), Ran(sh, caller, app).0;
            && (d.sh.keepCfg ==> t.now.config == d.sh.now.config)
            && (d.sh.keepGr ==> t.now == d.sh.now.(config := t.now.config) && t.declared == d.sh.declared)
            && (d.sh.keepCfg && d.sh.keepGr ==> t.stored == d.sh.stored)
  {
  }

  function Dropped(own: Stack): Stack {
    if own == [] then [] else own[..|own| - 1]
  }

  /** Reads a number, drops what says there was one, and answers with it, so many times. */
  function Turning(n: nat): seq<Act> {
    if n == 0 then [] else Turning(n - 1) + [Arg] + [Compute(Dropped)] + [Answer]
  }

  /** The top so many of a stack, the top first. */
  function Top(caller: Stack, n: nat): (t: Stack)
    requires n <= |caller|
    ensures |t| == n && forall j :: 0 <= j < n ==> t[j] == caller[|caller| - 1 - j]
  {
    seq(n, j requires 0 <= j < n => caller[|caller| - 1 - j])
  }

  lemma TopMore(caller: Stack, n: nat)
    requires n < |caller|
    ensures Top(caller, n + 1) == Top(caller, n) + [caller[|caller| - 1 - n]]
  {
  }

  /** What so many acts come to, under covers. */
  predicate LeadsTo(sh: Shell, caller: Stack, acts: seq<Act>, d: Did, covers: nat) {
    if covers > 0 then LeadsTo(sh, caller, acts, d, covers - 1) else d == Does(sh, caller, [], acts)
  }

  lemma OpenLeads(sh: Shell, caller: Stack, acts: seq<Act>, d: Did)
    ensures LeadsTo(sh, caller, acts, d, 3) <==> d == Does(sh, caller, [], acts)
  {
    assert LeadsTo(sh, caller, acts, d, 1) == LeadsTo(sh, caller, acts, d, 0);
    assert LeadsTo(sh, caller, acts, d, 2) == LeadsTo(sh, caller, acts, d, 1);
  }

  lemma {:induction false} AfterArg(sh: Shell, caller: Stack, acts: seq<Act>, d: Did, e: Did, x: Value)
    requires LeadsTo(sh, caller, acts, d, 3) && !d.failed && d.sh.taken < Numbers(caller)
    requires x == caller[|caller| - 1 - d.sh.taken]
    requires e == Did(d.sh.(taken := d.sh.taken + 1), d.own + [x, Number(1)], d.done + 1, false)
    ensures LeadsTo(sh, caller, acts + [Arg], e, 3)
  {
    OpenLeads(sh, caller, acts, d);
    OneMore(sh, caller, [], acts, Arg);
    ArgIsNext(sh, caller, [], acts);
    OpenLeads(sh, caller, acts + [Arg], e);
  }

  lemma {:induction false} AfterDrop(sh: Shell, caller: Stack, acts: seq<Act>, d: Did, e: Did)
    requires LeadsTo(sh, caller, acts, d, 3) && !d.failed
    requires e == Did(d.sh, Dropped(d.own), d.done + 1, false)
    ensures LeadsTo(sh, caller, acts + [Compute(Dropped)], e, 3)
  {
    OpenLeads(sh, caller, acts, d);
    OneMore(sh, caller, [], acts, Compute(Dropped));
    OpenLeads(sh, caller, acts + [Compute(Dropped)], e);
  }

  lemma {:induction false} AfterAnswer(sh: Shell, caller: Stack, acts: seq<Act>, d: Did, e: Did, x: Value)
    requires LeadsTo(sh, caller, acts, d, 3) && !d.failed && d.own == [x] && |d.sh.answers| < 8
    requires e == Did(d.sh.(answers := d.sh.answers + [x]), [], d.done + 1, false)
    ensures LeadsTo(sh, caller, acts + [Answer], e, 3)
  {
    OpenLeads(sh, caller, acts, d);
    OneMore(sh, caller, [], acts, Answer);
    OpenLeads(sh, caller, acts + [Answer], e);
  }

  lemma {:induction false} OneTurn(sh: Shell, caller: Stack, acts: seq<Act>, d: Did, x: Value)
    requires LeadsTo(sh, caller, acts, d, 3) && !d.failed && d.own == []
    requires d.sh.taken < Numbers(caller) && |d.sh.answers| < 8 && x == caller[|caller| - 1 - d.sh.taken]
    ensures LeadsTo(sh, caller, acts + [Arg] + [Compute(Dropped)] + [Answer],
                    Did(d.sh.(taken := d.sh.taken + 1, answers := d.sh.answers + [x]), [], d.done + 3, false), 3)
  {
    var a := Did(d.sh.(taken := d.sh.taken + 1), [] + [x, Number(1)], d.done + 1, false);
    AfterArg(sh, caller, acts, d, a, x);
    var b := Did(a.sh, [x], d.done + 2, false);
    assert Dropped(a.own) == [x];
    AfterDrop(sh, caller, acts + [Arg], a, b);
    AfterAnswer(sh, caller, acts + [Arg] + [Compute(Dropped)], b, b.(
                  sh := b.sh.(answers := b.sh.answers + [x]), own := [], done := d.done + 3), x);
  }

  lemma {:induction false} TurningReads(sh: Shell, caller: Stack, n: nat)
    requires n <= Numbers(caller) && |sh.answers| + n <= 8 && sh.taken == 0
    ensures LeadsTo(sh, caller, Turning(n),
                    Did(sh.(taken := n, answers := sh.answers + Top(caller, n)), [], 3 * n, false), 3)
  {
    if n == 0 {
      assert sh.answers + Top(caller, 0) == sh.answers;
      OpenLeads(sh, caller, [], Did(sh, [], 0, false));
    } else {
      TurningReads(sh, caller, n - 1);
      var x := caller[|caller| - n];
      OneTurn(sh, caller, Turning(n - 1),
              Did(sh.(taken := n - 1, answers := sh.answers + Top(caller, n - 1)), [], 3 * (n - 1), false), x);
      TopMore(caller, n - 1);
      assert sh.answers + Top(caller, n - 1) + [x] == sh.answers + Top(caller, n);
    }
  }

  lemma {:induction false} TurningEnds(sh: Shell, caller: Stack, app: App, d: Did, top: Stack)
    requires app.App? && LeadsTo(Begun(sh, app), caller, app.acts, d, 3) && !d.failed && !d.sh.broken
    requires d.sh.answers == sh.answers + top && d.sh.taken == |top| <= |caller|
    ensures var (_, left, ok) := Ran(sh, caller, app); ok && left == caller[..|caller| - |top|] + top
  {
    OpenLeads(Begun(sh, app), caller, app.acts, d);
    assert d.sh.answers[|sh.answers|..] == top;
    if top == [] { assert caller[..|caller|] == caller; }
  }

  lemma {:induction false} TurningLeaves(sh: Shell, caller: Stack, app: App, n: nat)
    requires n <= Numbers(caller) && |sh.answers| + n <= 8 && !sh.broken && app.App? && app.acts == Turning(n)
    ensures var (_, left, ok) := Ran(sh, caller, app); ok && left == caller[..|caller| - n] + Top(caller, n)
  {
    var d := Did(Begun(sh, app).(taken := n, answers := sh.answers + Top(caller, n)), [], 3 * n, false);
    TurningReads(Begun(sh, app), caller, n);
    TurningEnds(sh, caller, app, d, Top(caller, n));
  }

  /** The same but for the top n, which are the other way up. */
  ghost predicate TurnedOver(left: Stack, caller: Stack, n: nat) {
    && n <= |caller| == |left| && left[..|caller| - n] == caller[..|caller| - n]
    && forall j :: |caller| - n <= j < |caller| ==> left[j] == caller[2 * |caller| - n - 1 - j]
  }

  lemma TopIsTurned(caller: Stack, n: nat)
    requires n <= |caller|
    ensures TurnedOver(caller[..|caller| - n] + Top(caller, n), caller, n)
  {
  }

  /** An app that does that n times leaves its caller's top n turned over, and what is below them where it was. */
  lemma {:induction false} TopTurnedOver(sh: Shell, caller: Stack, app: App, n: nat)
    requires n <= Numbers(caller) && |sh.answers| + n <= 8 && !sh.broken && app.App? && app.acts == Turning(n)
    ensures var (_, left, ok) := Ran(sh, caller, app); ok && TurnedOver(left, caller, n)
  {
    TurningLeaves(sh, caller, app, n);
    TopIsTurned(caller, n);
  }
}
