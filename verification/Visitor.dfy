/** Apps inside apps: each leaves things as it found them, and its caller's stack pays for its answers. */
module Visitor {
  import opened Basics

  const ANSWERS_MAX: nat := 8

  datatype Value = Number(n: int) | Other(n: int)

  type Stack = seq<Value>

  /** Angles, complex numbers, decimals, notation and when to turn off. */
  datatype Config = Config(degrees: bool, complex: int, decimals: int, notation: int, autoOff: nat)

  datatype Plot = Plot(body: string, on: bool)

  datatype View = View(x0: real, x1: real, y0: real, y1: real, xscl: real, yscl: real)

  /** All that an app can change, as it was found or as the store has it. */
  datatype Found = Found(config: Config, slots: seq<Plot>, view: View, gridOn: bool, axesOff: bool)

  /** The shell has declared a word for each slot's body; its folder is the running app's, by its name. */
  datatype Shell = Shell(
    now: Found, stored: Found, declared: seq<string>, appName: string,
    keepCfg: bool, keepGr: bool, answers: Stack, taken: nat, broken: bool)

  function Bodies(slots: seq<Plot>): (b: seq<string>)
    ensures |b| == |slots|
  {
    seq(|slots|, i requires 0 <= i < |slots| => slots[i].body)
  }

  /** What a running app does: its own computing is any change to its own stack. */
  datatype Act =
    | Configure(config: Config)
    | Draw(slots: seq<Plot>, view: View, gridOn: bool, axesOff: bool)
    | KeepCfg
    | KeepGr
    | Compute(f: Stack -> Stack)
    | Arg
    | Answer
    | Run(app: App, caught: bool)
    | Break
    | Fail

  datatype App = Gone | App(name: string, acts: seq<Act>)

  function Size(app: App): nat {
    if app.Gone? then 0 else 1 + Sizes(app.acts)
  }

  function Sizes(acts: seq<Act>): nat {
    if acts == [] then 0 else Sizes(acts[..|acts| - 1]) + 1 + SizeOf(acts[|acts| - 1])
  }

  function SizeOf(act: Act): nat {
    if act.Run? then Size(act.app) else 0
  }

  // --------------------------------------------------------------------- the words

  /** Setting something saves it at once. */
  function Configured(sh: Shell, c: Config): Shell {
    sh.(now := sh.now.(config := c), stored := sh.stored.(config := c))
  }

  function Drawn(sh: Shell, slots: seq<Plot>, view: View, gridOn: bool, axesOff: bool): Shell {
    sh.(now := sh.now.(slots := slots, view := view, gridOn := gridOn, axesOff := axesOff),
        stored := sh.stored.(slots := slots, view := view, gridOn := gridOn, axesOff := axesOff),
        declared := Bodies(slots))
  }

  /** The next of the caller's values to be read, if it is a number. */
  function NextArg(caller: Stack, taken: nat): Stack {
    if taken < |caller| && caller[|caller| - 1 - taken].Number? then [caller[|caller| - 1 - taken]] else []
  }

  /** How many of the caller's values from the top are numbers. */
  function Numbers(caller: Stack): (n: nat)
    ensures n <= |caller|
    ensures forall j :: |caller| - n <= j < |caller| ==> caller[j].Number?
    ensures n < |caller| ==> caller[|caller| - 1 - n].Other?
  {
    if caller == [] || caller[|caller| - 1].Other? then 0 else 1 + Numbers(caller[..|caller| - 1])
  }

  // ------------------------------------------------------------------ the put-back

  /** What is put back of what was found. */
  function PutBack(sh: Shell, found: Found, cfg: bool, gr: bool): Shell {
    var n := if cfg then sh.now.(config := found.config) else sh.now;
    var m := if !gr then n
             else n.(slots := found.slots, view := found.view, gridOn := found.gridOn, axesOff := found.axesOff);
    sh.(now := m, stored := Stored(sh, found, cfg, gr),
        declared := if gr then Redeclared(sh.now.slots, found.slots, sh.declared) else sh.declared)
  }

  /** Each slot is declared again whose body is put back. */
  function Redeclared(now: seq<Plot>, found: seq<Plot>, declared: seq<string>): seq<string> {
    if |now| != |found| || |now| != |declared| then declared
    else
      seq(|now|, i requires 0 <= i < |now| => if now[i].body != found[i].body then found[i].body else declared[i])
  }

  /** What is written: the settings together where one of them differs, each slot that does, the window if it does. */
  function Stored(sh: Shell, found: Found, cfg: bool, gr: bool): Found {
    var n := if cfg then sh.now.(config := found.config) else sh.now;
    var m := if !gr then n
             else n.(slots := found.slots, view := found.view, gridOn := found.gridOn, axesOff := found.axesOff);
    var settings := (cfg && found.config != sh.now.config)
                    || (gr && (found.gridOn != sh.now.gridOn || found.axesOff != sh.now.axesOff));
    var t := if settings then sh.stored.(config := m.config, gridOn := m.gridOn, axesOff := m.axesOff) else sh.stored;
    if !gr then t
    else
      t.(view := if found.view != sh.now.view then found.view else t.view,
         slots := SlotsStored(sh.now.slots, found.slots, t.slots))
  }

  function SlotsStored(now: seq<Plot>, found: seq<Plot>, stored: seq<Plot>): seq<Plot> {
    if |now| != |found| || |now| != |stored| then stored
    else seq(|now|, i requires 0 <= i < |now| => if now[i] != found[i] then found[i] else stored[i])
  }

  /** The store has what the shell has, and each slot's word is of the body it has. */
  predicate Synced(sh: Shell) {
    sh.stored == sh.now && sh.declared == Bodies(sh.now.slots)
  }

  // ------------------------------------------------------------------- the running

  datatype Did = Did(sh: Shell, own: Stack, done: nat, failed: bool)

  function DoesOne(sh: Shell, caller: Stack, own: Stack, act: Act): (d: Did)
    decreases SizeOf(act), 3
  {
    match act
    case Configure(c) => Did(Configured(sh, c), own, 1, false)
    case Draw(slots, view, gridOn, axesOff) => Did(Drawn(sh, slots, view, gridOn, axesOff), own, 1, false)
    case KeepCfg => Did(sh.(keepCfg := true), own, 1, false)
    case KeepGr => Did(sh.(keepGr := true), own, 1, false)
    case Compute(f) => Did(sh, f(own), 1, false)
    case Arg =>
      var x := NextArg(caller, sh.taken);
      Did(sh.(taken := sh.taken + |x|), own + (if x == [] then [Number(0), Number(0)] else x + [Number(1)]), 1, false)
    case Answer =>
      if |sh.answers| >= ANSWERS_MAX || own == [] then Did(sh, own, 1, true)
      else Did(sh.(answers := sh.answers + [own[|own| - 1]]), own[..|own| - 1], 1, false)
    case Run(app, caught) =>
      var r := Ran(sh, own, app);
      Did(r.0, r.1, 1, !r.2 && !caught)
    case Break => Did(sh.(broken := true), own, 1, true)
    case Fail => Did(sh, own, 1, true)
  }

  /** One act after another, until one fails. */
  function Does(sh: Shell, caller: Stack, own: Stack, acts: seq<Act>): (d: Did)
    ensures d.done <= |acts| && (!d.failed ==> d.done == |acts|)
    decreases Sizes(acts), 1
  {
    if acts == [] then Did(sh, own, 0, false)
    else
      var before := Does(sh, caller, own, acts[..|acts| - 1]);
      if before.failed then before
      else
        var d := DoesOne(before.sh, caller, before.own, acts[|acts| - 1]);
        d.(done := before.done + 1)
  }

  /** As an app finds it. */
  function Begun(sh: Shell, app: App): Shell
    requires app.App?
  {
    sh.(keepCfg := false, keepGr := false, taken := 0, appName := app.name)
  }

  /** An app run from a stack: the shell afterwards, that stack, and whether it went well. */
  function Ran(sh: Shell, caller: Stack, app: App): (Shell, Stack, bool)
    decreases Size(app), 2
  {
    if app.Gone? then (sh, caller, false)
    else
      var d := Does(Begun(sh, app), caller, [], app.acts);
      var back := PutBack(d.sh, sh.now, !d.sh.keepCfg, !d.sh.keepGr);
      var after := back.(keepCfg := sh.keepCfg, keepGr := sh.keepGr, taken := sh.taken, answers := sh.answers,
                         appName := "");
      if d.sh.broken || d.failed then (after, caller, false)
      else (after, Paid(caller, d.sh.taken, Given(sh.answers, d.sh.answers)), true)
  }

  /** The answers past those there were before. */
  function Given(before: Stack, answers: Stack): Stack {
    if |before| <= |answers| then answers[|before|..] else []
  }

  /** Only for an answer is what was read taken. */
  function Paid(caller: Stack, taken: nat, given: Stack): Stack {
    if given == [] || taken > |caller| then caller + given else caller[..|caller| - taken] + given
  }

  // --------------------------------------------------------------- the visitor's rules

  /** How many acts of a kind were done before the app ended. */
  function Count(acts: seq<Act>, kind: Act -> bool): nat {
    if acts == [] then 0 else Count(acts[..|acts| - 1], kind) + if kind(acts[|acts| - 1]) then 1 else 0
  }

  lemma {:induction false} CountAny(acts: seq<Act>, kind: Act -> bool)
    ensures Count(acts, kind) > 0 <==> exists i :: 0 <= i < |acts| && kind(acts[i])
  {
    if acts != [] {
      var front := acts[..|acts| - 1];
      CountAny(front, kind);
      if i :| 0 <= i < |front| && kind(front[i]) { assert kind(acts[i]); }
    }
  }

  lemma PutBackPuts(sh: Shell, found: Found, cfg: bool, gr: bool)
    requires |sh.now.slots| == |found.slots| && Synced(sh)
    ensures var t := PutBack(sh, found, cfg, gr);
            && Synced(t)
            && t.now.config == (if cfg then found.config else sh.now.config)
            && (gr ==> t.now == found.(config := t.now.config)) && (!gr ==> t.now == sh.now.(config := t.now.config))
            && t == sh.(now := t.now, stored := t.stored, declared := t.declared)
  {
    var t := PutBack(sh, found, cfg, gr);
    if gr {
      assert SlotsStored(sh.now.slots, found.slots, sh.stored.slots) == found.slots;
      assert Redeclared(sh.now.slots, found.slots, sh.declared) == Bodies(found.slots);
    }
  }

  predicate HasSlots(sh: Shell, n: nat) {
    |sh.now.slots| == n
  }

  predicate DrawsSlots(act: Act, n: nat) {
    && (act.Draw? ==> |act.slots| == n)
    && (act.Run? && act.app.App? ==> forall i :: 0 <= i < |act.app.acts| ==> DrawsSlots(act.app.acts[i], n))
  }

  predicate AllDraw(app: App, n: nat) {
    app.App? ==> forall i :: 0 <= i < |app.acts| ==> DrawsSlots(app.acts[i], n)
  }

  /** What the acts of an app leave: the answers there were and the new ones, as many as were given; as many of the
      caller's numbers read as were asked for and there were; and the keep flags it raised itself. */
  ghost predicate Kept(sh: Shell, caller: Stack, acts: seq<Act>, d: Did) {
    var done := acts[..if d.done <= |acts| then d.done else 0];
    && Synced(d.sh) && |d.sh.now.slots| == |sh.now.slots|
    && |sh.answers| <= |d.sh.answers| && d.sh.answers[..|sh.answers|] == sh.answers
    && |d.sh.answers| - |sh.answers| == Count(done, (a: Act) => a.Answer?) - (if RefusedLast(done, d) then 1 else 0)
    && d.sh.taken == Least(Count(done, (a: Act) => a.Arg?), Numbers(caller))
    && (d.sh.keepCfg <==> Count(done, (a: Act) => a.KeepCfg?) > 0)
    && (d.sh.keepGr <==> Count(done, (a: Act) => a.KeepGr?) > 0)
    && (!d.failed ==> d.done == |acts|)
  }

  predicate RefusedLast(done: seq<Act>, d: Did) {
    d.failed && done != [] && done[|done| - 1].Answer?
  }

  lemma {:induction false} DoesKeeps(sh: Shell, caller: Stack, own: Stack, acts: seq<Act>, n: nat)
    requires Synced(sh) && HasSlots(sh, n) && sh.taken == 0 && !sh.keepCfg && !sh.keepGr
    requires forall i :: 0 <= i < |acts| ==> DrawsSlots(acts[i], n)
    ensures Kept(sh, caller, acts, Does(sh, caller, own, acts))
    decreases Sizes(acts), 1
  {
    if acts == [] {
      assert acts[..0] == [];
    } else {
      var front, act := acts[..|acts| - 1], acts[|acts| - 1];
      DoesKeeps(sh, caller, own, front, n);
      var before := Does(sh, caller, own, front);
      if before.failed {
        assert acts[..before.done] == front[..before.done];
      } else {
        assert acts[..|acts|] == acts && front[..|front|] == front;
        OneKeeps(before.sh, caller, before.own, act, n);
        CountKinds(acts);
      }
    }
  }

  lemma CountKinds(acts: seq<Act>)
    requires acts != []
    ensures forall kind: Act -> bool ::
              Count(acts, kind) == Count(acts[..|acts| - 1], kind) + if kind(acts[|acts| - 1]) then 1 else 0
  {
  }

  lemma OneKeeps(sh: Shell, caller: Stack, own: Stack, act: Act, n: nat)
    requires Synced(sh) && HasSlots(sh, n) && DrawsSlots(act, n) && sh.taken <= Numbers(caller)
    ensures var d := DoesOne(sh, caller, own, act);
            && Synced(d.sh) && HasSlots(d.sh, n)
            && d.sh.keepCfg == (sh.keepCfg || act.KeepCfg?) && d.sh.keepGr == (sh.keepGr || act.KeepGr?)
            && d.sh.taken == (if act.Arg? then Least(sh.taken + 1, Numbers(caller)) else sh.taken)
            && (act.Answer? && !d.failed ==> own != [] && d.sh.answers == sh.answers + [own[|own| - 1]])
            && (!act.Answer? || d.failed ==> d.sh.answers == sh.answers)
    decreases SizeOf(act), 3
  {
    if act.Run? {
      Visits(sh, own, act.app, n);
    }
  }

  /** What is put back when an app ends, by which keep flags it left up. */
  lemma VisitEnds(sh: Shell, caller: Stack, app: App, d: Did)
    requires Synced(sh) && app.App?
    requires d == Does(Begun(sh, app), caller, [], app.acts)
    requires Synced(d.sh) && |d.sh.now.slots| == |sh.now.slots|
    ensures var t := Ran(sh, caller, app).0;
            && t.keepCfg == sh.keepCfg && t.keepGr == sh.keepGr && t.taken == sh.taken && t.answers == sh.answers
            && Synced(t) && |t.now.slots| == |sh.now.slots|
            && (!d.sh.keepCfg ==> t.now.config == sh.now.config)
            && (!d.sh.keepGr ==> t.now == sh.now.(config := t.now.config))
  {
    PutBackPuts(d.sh, sh.now, !d.sh.keepCfg, !d.sh.keepGr);
  }

  /** Whatever an app does, and whatever apps it runs: the keep flags, the arguments read and the answers of the one
      outside are as they were; so is all it could change, but what it said itself to keep; and the store agrees. */
  lemma {:induction false} Visits(sh: Shell, caller: Stack, app: App, n: nat)
    requires Synced(sh) && HasSlots(sh, n) && AllDraw(app, n)
    ensures var t := Ran(sh, caller, app).0;
            && t.keepCfg == sh.keepCfg && t.keepGr == sh.keepGr && t.taken == sh.taken && t.answers == sh.answers
            && Synced(t) && HasSlots(t, n)
            && (!Keeps(sh, caller, app, KeepCfg) ==> t.now.config == sh.now.config)
            && (!Keeps(sh, caller, app, KeepGr) ==> t.now == sh.now.(config := t.now.config))
    decreases Size(app), 2
  {
    if app.App? {
      var begun := Begun(sh, app);
      DoesKeeps(begun, caller, [], app.acts, n);
      var d := Does(begun, caller, [], app.acts);
      VisitEnds(sh, caller, app, d);
      CountAny(app.acts[..d.done], (a: Act) => a.KeepCfg?);
      CountAny(app.acts[..d.done], (a: Act) => a.KeepGr?);
    }
  }

  /** The app itself, not one it ran, called keep before it ended. */
  ghost predicate Keeps(sh: Shell, caller: Stack, app: App, act: Act) {
    app.App? &&
    exists i :: 0 <= i < Does(Begun(sh, app), caller, [], app.acts).done
                && app.acts[i] == act
  }

  /** The stack an app was run from: as it was, unless the app ended well with an answer; then without as many
      numbers from the top as it asked for and were there, and with the answers in the order they were given. */
  lemma Pays(sh: Shell, caller: Stack, app: App, n: nat)
    requires Synced(sh) && HasSlots(sh, n) && AllDraw(app, n) && app.App?
    ensures var d := Does(Begun(sh, app), caller, [], app.acts);
            var given, args := Given(sh.answers, d.sh.answers), Count(app.acts[..d.done], (a: Act) => a.Arg?);
            var (_, left, ok) := Ran(sh, caller, app);
            && (ok <==> !d.failed && !d.sh.broken)
            && (ok ==> |given| == Count(app.acts, (a: Act) => a.Answer?))
            && left == if ok && given != [] then caller[..|caller| - Least(args, Numbers(caller))] + given else caller
  {
    DoesKeeps(Begun(sh, app), caller, [], app.acts, n);
    var d := Does(Begun(sh, app), caller, [], app.acts);
    assert app.acts[..|app.acts|] == app.acts;
    assert caller + [] == caller;
  }

  predicate RunsOne(act: Act) {
    act.Run? && act.app.App?
  }

  predicate RunsAny(acts: seq<Act>) {
    exists i :: 0 <= i < |acts| && RunsOne(acts[i])
  }

  lemma OneNamed(sh: Shell, caller: Stack, own: Stack, act: Act)
    ensures DoesOne(sh, caller, own, act).sh.appName == if RunsOne(act) then "" else sh.appName
  {
  }

  lemma RunsMore(front: seq<Act>, act: Act)
    ensures RunsAny(front + [act]) <==> RunsAny(front) || RunsOne(act)
  {
    var all := front + [act];
    if RunsOne(act) { assert RunsOne(all[|front|]); }
    if i :| 0 <= i < |front| && RunsOne(front[i]) { assert RunsOne(all[i]); }
  }

  /** An app that has run another has no name any more, and so no folder to save into: it has its own exactly where it
      has run none that was there. */
  lemma {:induction false} NameExactly(sh: Shell, caller: Stack, own: Stack, acts: seq<Act>)
    ensures var d := Does(sh, caller, own, acts);
            d.sh.appName == if RunsAny(acts[..d.done]) then "" else sh.appName
    decreases |acts|
  {
    if acts != [] {
      var front, act := acts[..|acts| - 1], acts[|acts| - 1];
      NameExactly(sh, caller, own, front);
      var before := Does(sh, caller, own, front);
      if before.failed {
        assert acts[..before.done] == front[..before.done];
      } else {
        OneNamed(before.sh, caller, before.own, act);
        RunsMore(front, act);
        assert front[..|front|] == front && acts[..|acts|] == front + [act];
      }
    }
  }

  lemma {:induction false} BrokenStays(sh: Shell, caller: Stack, own: Stack, acts: seq<Act>)
    ensures sh.broken ==> Does(sh, caller, own, acts).sh.broken
    decreases Sizes(acts), 1
  {
    if acts != [] {
      var before := Does(sh, caller, own, acts[..|acts| - 1]);
      BrokenStays(sh, caller, own, acts[..|acts| - 1]);
      var act := acts[|acts| - 1];
      assert SizeOf(act) < Sizes(acts);
      if !before.failed && act.Run? { BrokenOutside(before.sh, before.own, act.app); }
    }
  }

  lemma {:induction false} BrokenOutside(sh: Shell, caller: Stack, app: App)
    ensures sh.broken ==> Ran(sh, caller, app).0.broken
    decreases Size(app), 2
  {
    if app.App? { BrokenStays(Begun(sh, app), caller, [], app.acts); }
  }

  /** An app broken at any point, or while one it ran was, is stopped too, and its caller's stack is left alone. */
  lemma BreakStops(sh: Shell, caller: Stack, app: App, i: nat)
    requires app.App? && i <= |app.acts|
    requires Does(Begun(sh, app), caller, [], app.acts[..i]).sh.broken
    ensures Ran(sh, caller, app).0.broken && !Ran(sh, caller, app).2 && Ran(sh, caller, app).1 == caller
  {
    BrokenOnwards(Begun(sh, app), caller, app.acts, i);
  }

  lemma {:induction false} BrokenOnwards(sh: Shell, caller: Stack, acts: seq<Act>, i: nat)
    requires i <= |acts| && Does(sh, caller, [], acts[..i]).sh.broken
    ensures Does(sh, caller, [], acts).sh.broken
    decreases |acts|
  {
    if i < |acts| {
      var front := acts[..|acts| - 1];
      assert front[..i] == acts[..i];
      BrokenOnwards(sh, caller, front, i);
      var before := Does(sh, caller, [], front);
      if !before.failed && acts[|acts| - 1].Run? { BrokenOutside(before.sh, before.own, acts[|acts| - 1].app); }
    } else {
      assert acts[..i] == acts;
    }
  }

  // ------------------------------------------------------------- the shell does it

  class Calculator {
    var config: Config
    var slots: seq<Plot>
    var view: View
    var gridOn: bool
    var axesOff: bool
    var stored: Found
    var declared: seq<string>
    var appName: string
    var keepCfg: bool
    var keepGr: bool
    var answers: Stack
    var taken: nat
    var broken: bool

    constructor (found: Found)
      ensures Now() == Shell(found, found, Bodies(found.slots), "", false, false, [], 0, false)
    {
      config, slots, view, gridOn, axesOff := found.config, found.slots, found.view, found.gridOn, found.axesOff;
      stored, declared, appName := found, Bodies(found.slots), "";
      keepCfg, keepGr, answers, taken, broken := false, false, [], 0, false;
    }

    function Have(): Found
      reads this
    {
      Found(config, slots, view, gridOn, axesOff)
    }

    function Now(): Shell
      reads this
    {
      Shell(Have(), stored, declared, appName, keepCfg, keepGr, answers, taken, broken)
    }

    method SaveSettings()
      modifies `stored
      ensures stored == old(stored).(config := config, gridOn := gridOn, axesOff := axesOff)
    {
      stored := stored.(config := config, gridOn := gridOn, axesOff := axesOff);
    }

    /** Each slot that differs is put back, and saved. */
    method PutSlotsBack(found: seq<Plot>)
      requires |slots| == |found| == |stored.slots| == |declared|
      modifies `slots, `stored, `declared
      ensures slots == found && declared == Redeclared(old(slots), found, old(declared))
      ensures stored == old(stored).(slots := SlotsStored(old(slots), found, old(stored).slots))
    {
      ghost var to, words := SlotsStored(slots, found, stored.slots), Redeclared(slots, found, declared);
      for i := 0 to |found|
        invariant |slots| == |found| == |stored.slots| == |declared| && stored == old(stored).(slots := stored.slots)
        invariant forall k :: 0 <= k < |found| ==> declared[k] == if k < i then words[k] else old(declared)[k]
        invariant forall k :: 0 <= k < i ==> slots[k] == found[k] && stored.slots[k] == to[k]
        invariant forall k :: i <= k < |found| ==> slots[k] == old(slots)[k] && stored.slots[k] == old(stored).slots[k]
      {
        if slots[i] == found[i] {
          continue;
        }
        var body := slots[i].body != found[i].body;
        slots := slots[i := found[i]];
        if body {
          declared := declared[i := slots[i].body];
        }
        stored := stored.(slots := stored.slots[i := slots[i]]);
      }
      assert slots == found && stored.slots == to && declared == words;
    }

    /** Slots, window and format. True where the format differed, which is saved with the settings. */
    method PutGraphBack(found: Found) returns (format: bool)
      requires |slots| == |found.slots| == |stored.slots| == |declared|
      modifies `slots, `view, `gridOn, `axesOff, `stored, `declared
      ensures declared == Redeclared(old(slots), found.slots, old(declared))
      ensures slots == found.slots && view == found.view && gridOn == found.gridOn && axesOff == found.axesOff
      ensures format == (found.gridOn != old(gridOn) || found.axesOff != old(axesOff))
      ensures stored == old(stored).(view := if found.view != old(view) then found.view else old(stored).view,
                                     slots := SlotsStored(old(slots), found.slots, old(stored).slots))
    {
      PutSlotsBack(found.slots);
      if found.view != view {
        view := found.view;
        stored := stored.(view := view);
      }
      format := found.gridOn != gridOn || found.axesOff != axesOff;
      gridOn, axesOff := found.gridOn, found.axesOff;
    }

    method PutConfigBack(found: Config) returns (settings: bool)
      modifies `config
      ensures config == found && settings == (found != old(config))
    {
      settings := found != config;
      config := found;
    }

    method PutItBack(found: Found, cfg: bool, gr: bool)
      requires |slots| == |found.slots| == |stored.slots| == |declared|
      modifies this
      ensures Now() == PutBack(old(Now()), found, cfg, gr)
    {
      var settings := false;
      if cfg {
        settings := PutConfigBack(found.config);
      }
      if gr {
        var format := PutGraphBack(found);
        settings := settings || format;
      }
      if settings {
        SaveSettings();
      }
    }

    method Set(c: Config)
      modifies `config, `stored
      ensures Now() == Configured(old(Now()), c)
    {
      config, stored := c, stored.(config := c);
    }

    method DrawThem(s: seq<Plot>, v: View, g: bool, a: bool)
      modifies `slots, `view, `gridOn, `axesOff, `stored, `declared
      ensures Now() == Drawn(old(Now()), s, v, g, a)
    {
      slots, view, gridOn, axesOff := s, v, g, a;
      stored := stored.(slots := s, view := v, gridOn := g, axesOff := a);
      declared := Bodies(s);
    }

    method ReadArg(caller: Stack, own: Stack) returns (after: Stack)
      modifies `taken
      ensures var d := DoesOne(old(Now()), caller, own, Arg); Now() == d.sh && after == d.own
    {
      var x := NextArg(caller, taken);
      taken := taken + |x|;
      after := own + if x == [] then [Number(0), Number(0)] else x + [Number(1)];
    }

    method GiveAnswer(own: Stack) returns (after: Stack, failed: bool)
      modifies `answers
      ensures var d := DoesOne(old(Now()), [], own, Answer); Now() == d.sh && after == d.own && failed == d.failed
    {
      if |answers| >= ANSWERS_MAX || own == [] {
        return own, true;
      }
      answers := answers + [own[|own| - 1]];
      return own[..|own| - 1], false;
    }

    method DoAct(act: Act, caller: Stack, own: Stack, ghost n: nat) returns (after: Stack, failed: bool)
      requires Synced(Now()) && HasSlots(Now(), n) && DrawsSlots(act, n) && taken <= Numbers(caller)
      modifies this
      ensures var d := DoesOne(old(Now()), caller, own, act); Now() == d.sh && after == d.own && failed == d.failed
      decreases SizeOf(act), 3
    {
      after, failed := own, false;
      match act {
        case Configure(c) =>
          Set(c);
        case Draw(s, v, g, a) =>
          DrawThem(s, v, g, a);
        case KeepCfg =>
          keepCfg := true;
        case KeepGr =>
          keepGr := true;
        case Compute(f) =>
          after := f(own);
        case Arg =>
          after := ReadArg(caller, own);
        case Answer =>
          after, failed := GiveAnswer(own);
        case Run(app, caught) =>
          var left, ok := RunApp(app, own, n);
          return left, !ok && !caught;
        case Break =>
          broken := true;
          failed := true;
        case Fail =>
          failed := true;
      }
    }

    /** The app's own interpreter, one act after another. */
    method DoActs(acts: seq<Act>, caller: Stack, ghost n: nat) returns (failed: bool, ghost d: Did)
      requires Synced(Now()) && HasSlots(Now(), n) && taken == 0 && !keepCfg && !keepGr
      requires forall i :: 0 <= i < |acts| ==> DrawsSlots(acts[i], n)
      modifies this
      ensures d == Does(old(Now()), caller, [], acts) && Now() == d.sh && failed == d.failed
      decreases Sizes(acts), 1
    {
      ghost var sh := Now();
      var own: Stack, i := [], 0;
      failed := false;
      while i < |acts| && !failed
        invariant 0 <= i <= |acts|
        invariant Does(sh, caller, [], acts[..i]) == Did(Now(), own, Does(sh, caller, [], acts[..i]).done, failed)
        invariant failed ==> Does(sh, caller, [], acts) == Does(sh, caller, [], acts[..i])
      {
        var front := acts[..i + 1];
        assert front[..i] == acts[..i] && front[i] == acts[i];
        DoesKeeps(sh, caller, [], acts[..i], n);
        SizesFront(acts, i);
        own, failed := DoAct(acts[i], caller, own, n);
        i := i + 1;
        if failed { StaysFailed(sh, caller, acts, i); }
      }
      assert acts[..|acts|] == acts;
      d := Does(sh, caller, [], acts);
    }

    /** However the app ended. */
    method Leave(found: Found, was: Shell) returns (given: Stack, read: nat)
      requires |slots| == |found.slots| == |stored.slots| == |declared| && |was.answers| <= |answers|
      requires answers[..|was.answers|] == was.answers
      modifies this
      ensures Now() == PutBack(old(Now()), found, !old(keepCfg), !old(keepGr)).(
                         keepCfg := was.keepCfg, keepGr := was.keepGr, taken := was.taken, answers := was.answers,
                         appName := "")
      ensures given == Given(was.answers, old(answers)) && read == old(taken)
    {
      read := taken;
      taken, appName := was.taken, "";
      PutItBack(found, !keepCfg, !keepGr);
      keepCfg, keepGr := was.keepCfg, was.keepGr;
      given := answers[|was.answers|..];
      answers := answers[..|was.answers|];
    }

    /** Take what was read, and give what was answered, if anything was. */
    method Pay(caller: Stack, read: nat, given: Stack) returns (left: Stack)
      requires read <= |caller|
      ensures left == Paid(caller, read, given)
    {
      left := caller;
      if given != [] {
        left := left[..|left| - read];
      }
      left := left + given;
    }

    method RunApp(app: App, caller: Stack, ghost n: nat) returns (left: Stack, ok: bool)
      requires Synced(Now()) && HasSlots(Now(), n) && AllDraw(app, n)
      modifies this
      ensures (Now(), left, ok) == Ran(old(Now()), caller, app)
      decreases Size(app), 2
    {
      if app.Gone? {
        return caller, false;
      }
      var was := Now();
      keepCfg, keepGr, taken, appName := false, false, 0, app.name;
      DoesFits(Now(), caller, app.acts, n);
      var failed, d := DoActs(app.acts, caller, n);
      var given, read := Leave(was.now, was);
      if broken || failed {
        return caller, false;
      }
      left := Pay(caller, read, given);
      return left, true;
    }
  }

  lemma DoesFits(sh: Shell, caller: Stack, acts: seq<Act>, n: nat)
    requires Synced(sh) && HasSlots(sh, n) && sh.taken == 0 && !sh.keepCfg && !sh.keepGr
    requires forall i :: 0 <= i < |acts| ==> DrawsSlots(acts[i], n)
    ensures var d := Does(sh, caller, [], acts);
            && |d.sh.now.slots| == |d.sh.stored.slots| == |d.sh.declared| == n && d.sh.taken <= |caller|
            && |sh.answers| <= |d.sh.answers| && d.sh.answers[..|sh.answers|] == sh.answers
  {
    DoesKeeps(sh, caller, [], acts, n);
  }

  lemma {:induction false} SizesFront(acts: seq<Act>, i: nat)
    requires i < |acts|
    ensures SizeOf(acts[i]) < Sizes(acts)
    decreases |acts|
  {
    if i < |acts| - 1 { SizesFront(acts[..|acts| - 1], i); }
  }

  lemma {:induction false} StaysFailed(sh: Shell, caller: Stack, acts: seq<Act>, i: nat)
    requires i <= |acts| && Does(sh, caller, [], acts[..i]).failed
    ensures Does(sh, caller, [], acts) == Does(sh, caller, [], acts[..i])
    decreases |acts|
  {
    if i < |acts| {
      assert acts[..|acts| - 1][..i] == acts[..i];
      StaysFailed(sh, caller, acts[..|acts| - 1], i);
    } else {
      assert acts[..i] == acts;
    }
  }
}
