/** Boots some of whose writes to the store do not go through: what is still remembered of a crash. */
module Unwritten {
  import opened BlockList
  import opened Recovery
  import opened Boots
  import opened Histories

  /** Whether the write a boot comes to as its i-th step goes through. A boot does not look whether it did, so its
      steps are the same. */
  type Goes = nat -> bool

  /** What the steps leave in the store. */
  function Kept(s: Store, steps: seq<Step>, goes: Goes): Store {
    if steps == [] then s
    else
      var m := |steps| - 1;
      if goes(m) then Next(Kept(s, steps[..m], goes), steps[m]) else Kept(s, steps[..m], goes)
  }

  /** Where all of them go through, that is what a boot leaves. */
  lemma {:induction false} AllGo(s: Store, steps: seq<Step>, goes: Goes)
    requires forall i :: 0 <= i < |steps| ==> goes(i)
    ensures Kept(s, steps, goes) == After(s, steps)
    decreases |steps|
  {
    if steps != [] { AllGo(s, steps[..|steps| - 1], goes); }
  }

  predicate WritesLoading(step: Step) {
    step.Wrote? && step.key == Loading
  }

  predicate WritesBlocked(step: Step) {
    step.Wrote? && step.key == Blocked
  }

  /** No name is written or cleared, though it was tried. */
  predicate NoNameWritten(steps: seq<Step>, goes: Goes) {
    forall i :: 0 <= i < |steps| && WritesLoading(steps[i]) ==> !goes(i)
  }

  lemma {:induction false} KeptLoading(s: Store, steps: seq<Step>, goes: Goes, name: string)
    requires s.loading == name && forall i :: 0 <= i < |steps| && WritesLoading(steps[i]) ==> steps[i].text != name
    ensures Kept(s, steps, goes).loading == name <==> NoNameWritten(steps, goes)
    decreases |steps|
  {
    if steps != [] {
      var m := |steps| - 1;
      var front := steps[..m];
      KeptLoading(s, front, goes, name);
      assert NoNameWritten(steps, goes) <==> NoNameWritten(front, goes) && (WritesLoading(steps[m]) ==> !goes(m)) by {
        assert forall i :: 0 <= i < m ==> front[i] == steps[i];
      }
    }
  }

  lemma {:induction false} KeptBlocked(s: Store, steps: seq<Step>, goes: Goes)
    requires forall i :: 0 < i < |steps| ==> !WritesBlocked(steps[i])
    ensures Kept(s, steps, goes).blocked
            == if steps != [] && WritesBlocked(steps[0]) && goes(0) then steps[0].text else s.blocked
    decreases |steps|
  {
    if steps != [] { KeptBlocked(s, steps[..|steps| - 1], goes); }
  }

  // ------------------------------------------------------------- what a boot writes

  lemma {:induction false} MetWrites(list: string, met: seq<Block>, names: set<string>, i: nat)
    requires Orderly(list, met, names) && i < |Flat(met)|
    ensures !WritesBlocked(Flat(met)[i])
    ensures WritesLoading(Flat(met)[i]) ==> Flat(met)[i].text == "" || !Listed(list, Flat(met)[i].text)
    decreases |met|
  {
    if met != [] {
      var front, b := met[..|met| - 1], met[|met| - 1];
      if i < |Flat(front)| {
        MetWrites(list, front, names, i);
      } else {
        assert Flat(met)[i] == Steps(b)[i - |Flat(front)|];
      }
    }
  }

  lemma StepAt(s: Store, life: Life, i: nat)
    requires i < |Taken(s, life)|
    ensures var r, met := RecoverSteps(s), Met(s, life.card);
            && (i >= |r| ==> i - |r| < |Flat(met)|)
            && Taken(s, life)[i] == if i < |r| then r[i] else Flat(met)[i - |r|]
  {
    OpenTaken(s, life);
    assert Taken(s, life)[i] == (RecoverSteps(s) + Flat(Met(s, life.card)))[i];
  }

  /** The list is written first if at all, and after that no name that is on it. */
  lemma TakenWrites(s: Store, life: Life, names: set<string>, i: nat)
    requires CardWithin(life.card, names) && i < |Taken(s, life)|
    ensures var step := Taken(s, life)[i];
            && (WritesBlocked(step) ==> i == 0 && s.loading != "" && step.text == Added(s.blocked, s.loading))
            && (s.loading != "" && i == 0 ==> WritesBlocked(step))
            && (WritesLoading(step) ==> step.text == "" || !Listed(Recovered(s).blocked, step.text))
  {
    var r, list, met := RecoverSteps(s), Recovered(s).blocked, Met(s, life.card);
    StepAt(s, life, i);
    CardOrderly(list, NONE, life.card, names);
    if i >= |r| { MetWrites(list, met, names, i - |r|); }
  }

  /** The list only grows, whatever goes through. */
  lemma ListOnlyGrows(s: Store, life: Life, goes: Goes, names: set<string>, name: string)
    requires Sound(s) && CardWithin(life.card, names) && name != ""
    ensures Listed(s.blocked, name) ==> Listed(Kept(s, Taken(s, life), goes).blocked, name)
  {
    TakenBlocked(s, life, goes, names);
    if s.loading != "" { AddedKeeps(s.blocked, s.loading, name); }
  }

  lemma TakenBlocked(s: Store, life: Life, goes: Goes, names: set<string>)
    requires CardWithin(life.card, names)
    ensures var t := Taken(s, life);
            Kept(s, t, goes).blocked
            == if t != [] && s.loading != "" && goes(0) then Added(s.blocked, s.loading) else s.blocked
  {
    var t := Taken(s, life);
    forall i | 0 <= i < |t|
      ensures WritesBlocked(t[i]) ==> i == 0 && s.loading != "" && t[i].text == Added(s.blocked, s.loading)
    {
      TakenWrites(s, life, names, i);
    }
    if t != [] { TakenWrites(s, life, names, 0); }
    KeptBlocked(s, t, goes);
  }

  // ------------------------------------------------------------- what is remembered

  /** A crash is still remembered after a boot exactly where the list was written, or the name was neither cleared nor
      written over. */
  lemma RememberedExactly(s: Store, life: Life, goes: Goes, names: set<string>)
    requires Sound(s) && s.loading != "" && Fits(s.blocked, s.loading) && !Listed(s.blocked, s.loading)
    requires CardWithin(life.card, names)
    ensures var t := Taken(s, life);
            Shut(Kept(s, t, goes), s.loading) <==> (t != [] && goes(0)) || NoNameWritten(t, goes)
  {
    var t, name := Taken(s, life), s.loading;
    AddedIsListed(s.blocked, name);
    TakenBlocked(s, life, goes, names);
    forall i | 0 <= i < |t| && WritesLoading(t[i]) ensures t[i].text != name { TakenWrites(s, life, names, i); }
    KeptLoading(s, t, goes, name);
  }

  /** A boot, and which of its writes go through. */
  datatype Unsure = Unsure(life: Life, goes: Goes)

  function Through(s: Store, h: seq<Unsure>): Store
    decreases |h|
  {
    if h == [] then s else Through(Kept(s, Taken(s, h[0].life), h[0].goes), h[1..])
  }

  predicate EverOpens(s: Store, h: seq<Unsure>, name: string)
    decreases |h|
  {
    h != [] && (Opening(name) in Taken(s, h[0].life)
                || EverOpens(Kept(s, Taken(s, h[0].life), h[0].goes), h[1..], name))
  }

  /** Each boot leaves the crash remembered, if it has not been listed by then. */
  predicate Remembered(s: Store, h: seq<Unsure>, name: string)
    decreases |h|
  {
    h == [] || (
      var t := Taken(s, h[0].life);
      && (Listed(s.blocked, name) || (t != [] && h[0].goes(0)) || NoNameWritten(t, h[0].goes))
      && Remembered(Kept(s, t, h[0].goes), h[1..], name))
  }

  predicate CardsWithin(h: seq<Unsure>, names: set<string>) {
    forall i :: 0 <= i < |h| ==> CardWithin(h[i].life.card, names)
  }

  lemma KeptIsSound(s: Store, life: Life, goes: Goes, names: set<string>)
    requires Sound(s) && CardWithin(life.card, names) && ValidNames(names)
    ensures Sound(Kept(s, Taken(s, life), goes))
  {
    TakenBlocked(s, life, goes, names);
    KeptName(s, Taken(s, life), goes);
    forall i | 0 <= i < |Taken(s, life)| && WritesLoading(Taken(s, life)[i])
      ensures Taken(s, life)[i].text == "" || ValidName(Taken(s, life)[i].text)
    {
      TakenNames(s, life, names, i);
    }
  }

  /** What is in the store for a name was there, or was written. */
  lemma {:induction false} KeptName(s: Store, steps: seq<Step>, goes: Goes)
    ensures var t := Kept(s, steps, goes).loading;
            t == s.loading || exists i :: 0 <= i < |steps| && WritesLoading(steps[i]) && steps[i].text == t
    decreases |steps|
  {
    if steps != [] {
      var m := |steps| - 1;
      var front := steps[..m];
      KeptName(s, front, goes);
      var t := Kept(s, front, goes).loading;
      if i :| 0 <= i < |front| && WritesLoading(front[i]) && front[i].text == t { assert steps[i] == front[i]; }
      if WritesLoading(steps[m]) { assert steps[m].text == steps[m].text; }
    }
  }

  lemma {:induction false} MetNames(list: string, met: seq<Block>, names: set<string>, i: nat)
    requires Orderly(list, met, names) && i < |Flat(met)| && WritesLoading(Flat(met)[i])
    ensures Flat(met)[i].text == "" || Flat(met)[i].text in names
    decreases |met|
  {
    if met != [] {
      var front, b := met[..|met| - 1], met[|met| - 1];
      if i < |Flat(front)| {
        MetNames(list, front, names, i);
      } else {
        assert Flat(met)[i] == Steps(b)[i - |Flat(front)|];
      }
    }
  }

  lemma TakenNames(s: Store, life: Life, names: set<string>, i: nat)
    requires CardWithin(life.card, names) && i < |Taken(s, life)| && WritesLoading(Taken(s, life)[i])
    ensures Taken(s, life)[i].text == "" || Taken(s, life)[i].text in names
  {
    var r, list, met := RecoverSteps(s), Recovered(s).blocked, Met(s, life.card);
    StepAt(s, life, i);
    CardOrderly(list, NONE, life.card, names);
    if i >= |r| { MetNames(list, met, names, i - |r|); }
  }

  lemma OneBoot(s: Store, life: Life, goes: Goes, names: set<string>, name: string)
    requires Sound(s) && CardWithin(life.card, names) && ValidNames(names) && ValidName(name) && Shut(s, name)
    ensures Opening(name) !in Taken(s, life)
    ensures var t := Taken(s, life);
            Shut(Kept(s, t, goes), name) <==>
              Listed(s.blocked, name) || (t != [] && goes(0)) || NoNameWritten(t, goes)
  {
    LifeStaysShut(s, life, names, name);
    if Listed(s.blocked, name) {
      ListOnlyGrows(s, life, goes, names, name);
    } else {
      RememberedExactly(s, life, goes, names);
    }
  }

  /** What faulted last is opened by none of a run of boots, whichever of their writes go through, so long as each
      leaves it remembered; */
  lemma {:induction false} NotOpenedWhileRemembered(s: Store, h: seq<Unsure>, names: set<string>, name: string)
    requires Sound(s) && ValidNames(names) && CardsWithin(h, names) && ValidName(name) && Shut(s, name)
    requires Remembered(s, h, name)
    ensures !EverOpens(s, h, name) && Shut(Through(s, h), name)
    decreases |h|
  {
    if h != [] {
      var t := Kept(s, Taken(s, h[0].life), h[0].goes);
      OneBoot(s, h[0].life, h[0].goes, names, name);
      KeptIsSound(s, h[0].life, h[0].goes, names);
      NotOpenedWhileRemembered(t, h[1..], names, name);
    }
  }

  /** and one that forgets it can be followed by one that opens it: the list not written, and the name cleared. */
  lemma Forgotten(name: string, goes: Goes)
    requires ValidName(name) && !goes(0) && goes(1)
    ensures var s := Store(name, "");
            var t := Kept(s, Boot(s, []), goes);
            t == Store("", "") && Opening(name) in Boot(t, [[Loose(Module(name, GoesIn))]])
  {
    var s := Store(name, "");
    OpenBoot(s, []);
    var r := RecoverSteps(s);
    assert Met(s, []) == [] && r + Flat([]) == r;
    assert r[..1][..0] == [] && r[..2] == r && r[..1] == [Wrote(Blocked, Added("", name))];
    assert Kept(s, r[..1], goes) == s;
    var t := Store("", "");
    OpenBoot(t, [[Loose(Module(name, GoesIn))]]);
    LoneModule(t, name, GoesIn);
    LoneFlat(Attempt(name, GoesIn));
    assert Flat([Attempt(name, GoesIn)])[1] == Opening(name);
  }

  /** A module that takes the machine down while it is opened has its name in the store exactly where the write of it
      went through, or what was there before was that. */
  lemma CrumbExactly(s: Store, life: Life, goes: Goes, name: string)
    requires DiesOpening(s, life, name)
    ensures var t := Taken(s, life);
            && |t| >= 2 && t[|t| - 2] == Wrote(Loading, name)
            && (Kept(s, t, goes).loading == name <==>
                  goes(|t| - 2) || Kept(s, t[..|t| - 2], goes).loading == name)
  {
    var t := Taken(s, life);
    DiesAfterWriting(s, life, name);
    assert t[..|t| - 1][..|t| - 2] == t[..|t| - 2];
  }

  lemma DiesAfterWriting(s: Store, life: Life, name: string)
    requires DiesOpening(s, life, name)
    ensures var t := Taken(s, life); |t| >= 2 && t[|t| - 2] == Wrote(Loading, name)
  {
    if life.upTo <= |RecoverSteps(s)| {
      CutRecovering(s, life);
    } else {
      var i, j := CutLoading(s, life);
      var met := Met(s, life.card);
      if 0 < j {
        LastOfAll(RecoverSteps(s) + Flat(met[..i]), Steps(met[i])[..j]);
      } else {
        NoOpeningLast(s, met[..i], name);
      }
    }
  }
}
