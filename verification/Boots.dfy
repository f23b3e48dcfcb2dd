/** Boot after boot, each cut short anywhere: what is never opened again, and how often the machine can go down. */
module Boots {
  import opened BlockList
  import opened Recovery

  // ------------------------------------------------------------------ the modules

  predicate FileWithin(f: File, names: set<string>) {
    f.Module? ==> f.name in names
  }

  predicate ItemWithin(item: Item, names: set<string>) {
    match item
    case Loose(f) => FileWithin(f, names)
    case Folder(files) => forall k :: 0 <= k < |files| ==> FileWithin(files[k], names)
  }

  /** Every module on the card has one of these names. */
  predicate CardWithin(card: seq<Scope>, names: set<string>) {
    forall i :: 0 <= i < |card| ==> forall k :: 0 <= k < |card[i]| ==> ItemWithin(card[i][k], names)
  }

  predicate ValidNames(names: set<string>) {
    forall n :: n in names ==> ValidName(n)
  }

  /** Only what is not listed is opened. */
  predicate Orderly(list: string, met: seq<Block>, names: set<string>) {
    forall i :: 0 <= i < |met| && met[i].Attempt? ==> met[i].name in names && !Listed(list, met[i].name)
  }

  lemma {:induction false} FilesOrderly(list: string, w: Walk, files: seq<File>, names: set<string>)
    requires Orderly(list, w.met, names) && forall k :: 0 <= k < |files| ==> FileWithin(files[k], names)
    ensures Orderly(list, WalkedFiles(list, w, files).met, names)
    decreases files
  {
    if files != [] && w.goes { FilesOrderly(list, WalkedFile(list, w, files[0]), files[1..], names); }
  }

  lemma {:induction false} ScopeOrderly(list: string, w: Walk, scope: Scope, names: set<string>)
    requires Orderly(list, w.met, names) && forall k :: 0 <= k < |scope| ==> ItemWithin(scope[k], names)
    ensures Orderly(list, WalkedScope(list, w, scope).met, names)
    decreases scope
  {
    if scope != [] && w.goes {
      if scope[0].Folder? { FilesOrderly(list, w, scope[0].files, names); }
      ScopeOrderly(list, WalkedItem(list, w, scope[0]), scope[1..], names);
    }
  }

  lemma {:induction false} CardOrderly(list: string, w: Walk, card: seq<Scope>, names: set<string>)
    requires Orderly(list, w.met, names) && CardWithin(card, names)
    ensures Orderly(list, WalkedCard(list, w, card).met, names)
    decreases card
  {
    if card != [] {
      var v := w.(loaded := 0, goes := true);
      ScopeOrderly(list, v, card[0], names);
      CardOrderly(list, WalkedScope(list, v, card[0]), card[1..], names);
    }
  }

  // --------------------------------------------------------------- cut anywhere

  /** What happens up to a cut: so many of what it met, and part of the next. */
  lemma {:induction false} CutInBlock(met: seq<Block>, k: nat) returns (i: nat, j: nat)
    requires k <= |Flat(met)|
    ensures i <= |met| && (i == |met| ==> j == 0) && (i < |met| ==> j < |Steps(met[i])|)
    ensures Flat(met)[..k] == Flat(met[..i]) + if i == |met| then [] else Steps(met[i])[..j]
  {
    if met == [] {
      return 0, 0;
    }
    var front := met[..|met| - 1];
    if k == |Flat(met)| {
      i, j := |met|, 0;
      assert met[..i] == met;
    } else if k < |Flat(front)| {
      i, j := CutInBlock(front, k);
      assert met[..i] == front[..i];
      assert Flat(met)[..k] == Flat(front)[..k];
    } else {
      i, j := |met| - 1, k - |Flat(front)|;
    }
  }

  /** What was met leaves the store as it found it. */
  lemma {:induction false} FlatLeaves(s: Store, met: seq<Block>)
    requires s.loading == ""
    ensures After(s, Flat(met)) == s
  {
    if met != [] {
      var front, b := met[..|met| - 1], met[|met| - 1];
      FlatLeaves(s, front);
      AfterBoth(s, Flat(front), Steps(b));
      PartLeaves(s, b, |Steps(b)|);
      assert Steps(b)[..|Steps(b)|] == Steps(b);
    }
  }

  /** Part of one leaves its name in the store from when it is written to when it is cleared. */
  lemma {:induction false} PartLeaves(s: Store, b: Block, j: nat)
    requires s.loading == "" && j <= |Steps(b)|
    ensures After(s, Steps(b)[..j]) == s.(loading := if b.Attempt? && 0 < j < |Steps(b)| then b.name else "")
  {
    if j > 0 {
      PartLeaves(s, b, j - 1);
      var part := Steps(b)[..j];
      assert part[..j - 1] == Steps(b)[..j - 1] && part[j - 1] == Steps(b)[j - 1];
    }
  }

  /** A boot, and how far it gets. */
  datatype Life = Life(card: seq<Scope>, upTo: nat)

  /** The steps it takes. Covered over, as over many boots only what is known of one matters. */
  function Taken(s: Store, life: Life): seq<Step> {
    TakenCovered(s, life, 3)
  }

  /** The same under covers, which a proof takes off where it has to look. */
  function TakenCovered(s: Store, life: Life, covers: nat): seq<Step>
    decreases covers, life
  {
    if covers > 0 then TakenCovered(s, life, covers - 1)
    else
      var all := Boot(s, life.card);
      if life.upTo <= |all| then all[..life.upTo] else all
  }

  lemma OpenTaken(s: Store, life: Life)
    ensures Boot(s, life.card) == RecoverSteps(s) + Flat(Met(s, life.card))
    ensures var all := Boot(s, life.card); Taken(s, life) == if life.upTo <= |all| then all[..life.upTo] else all
  {
    OpenBoot(s, life.card);
    assert TakenCovered(s, life, 1) == TakenCovered(s, life, 0);
    assert TakenCovered(s, life, 2) == TakenCovered(s, life, 1);
  }

  /** What it leaves in the store. */
  function Left(s: Store, life: Life): Store {
    LeftCovered(s, life, 3)
  }

  /** The same under covers, which a proof takes off where it has to look. */
  function LeftCovered(s: Store, life: Life, covers: nat): Store
    decreases covers, life
  {
    if covers > 0 then LeftCovered(s, life, covers - 1) else After(s, Taken(s, life))
  }

  lemma OpenLeft(s: Store, life: Life)
    ensures Left(s, life) == After(s, Taken(s, life))
  {
    assert LeftCovered(s, life, 1) == LeftCovered(s, life, 0);
    assert LeftCovered(s, life, 2) == LeftCovered(s, life, 1);
  }

  /** The cut falls while the module's name is in the store for its being opened. */
  ghost predicate InsideAttempt(s: Store, life: Life, name: string) {
    exists i: nat, j: nat ::
      IsCut(s, life, i, j) && Met(s, life.card)[i].Attempt? && Met(s, life.card)[i].name == name && 0 < j
  }

  /** The cut comes so far into what the walk met. */
  ghost predicate IsCut(s: Store, life: Life, i: nat, j: nat) {
    var met := Met(s, life.card);
    i < |met| && j < |Steps(met[i])| && Taken(s, life) == RecoverSteps(s) + Flat(met[..i]) + Steps(met[i])[..j]
  }

  lemma RecoverLeaves(s: Store)
    ensures After(s, RecoverSteps(s)) == Recovered(s)
    ensures s.loading != "" ==> After(s, RecoverSteps(s)[..1]) == Store(s.loading, Added(s.blocked, s.loading))
  {
    var r := RecoverSteps(s);
    if r != [] {
      assert r[..1][..0] == [] && r[..2] == r;
    }
  }

  /** What a boot cut inside recovering leaves. */
  lemma CutRecovering(s: Store, life: Life)
    requires life.upTo <= |RecoverSteps(s)|
    ensures Taken(s, life) == RecoverSteps(s)[..life.upTo]
    ensures Left(s, life) == if life.upTo == 0 then s
                             else if life.upTo == 1 then Store(s.loading, Added(s.blocked, s.loading)) else Recovered(s)
  {
    OpenTaken(s, life);
    OpenLeft(s, life);
    RecoverLeaves(s);
    var r := RecoverSteps(s);
    assert Taken(s, life) == r[..life.upTo];
    if life.upTo == |r| { assert r[..|r|] == r; }
  }

  /** Where a boot that gets beyond recovering is cut. */
  lemma CutWhere(s: Store, life: Life) returns (i: nat, j: nat)
    requires life.upTo > |RecoverSteps(s)|
    ensures var met := Met(s, life.card);
            && i <= |met|
            && (i < |met| ==> IsCut(s, life, i, j))
            && (i == |met| ==> j == 0)
            && (j == 0 ==> Taken(s, life) == RecoverSteps(s) + Flat(met[..i]))
  {
    OpenTaken(s, life);
    OpenLeft(s, life);
    var r, met := RecoverSteps(s), Met(s, life.card);
    var k := if life.upTo <= |Boot(s, life.card)| then life.upTo - |r| else |Flat(met)|;
    i, j := CutInBlock(met, k);
    assert Taken(s, life) == r + Flat(met)[..k];
    if i < |met| {
      Regroup(r, Flat(met[..i]), Steps(met[i])[..j]);
      assert j == 0 ==> Steps(met[i])[..j] == [];
    }
    assert Flat(met[..i]) + [] == Flat(met[..i]);
  }

  lemma Regroup(a: seq<Step>, b: seq<Step>, c: seq<Step>)
    ensures a + (b + c) == a + b + c
  {
  }

  /** What a boot that gets beyond recovering leaves. */
  lemma CutLoading(s: Store, life: Life) returns (i: nat, j: nat)
    requires life.upTo > |RecoverSteps(s)|
    ensures var met := Met(s, life.card);
            && i <= |met|
            && (i < |met| ==> IsCut(s, life, i, j))
            && (i == |met| ==> j == 0)
            && (j == 0 ==> Taken(s, life) == RecoverSteps(s) + Flat(met[..i]))
            && Left(s, life) == Recovered(s).(loading := if 0 < j && met[i].Attempt? then met[i].name else "")
  {
    OpenLeft(s, life);
    i, j := CutWhere(s, life);
    var r, front := RecoverSteps(s), Flat(Met(s, life.card)[..i]);
    RecoverLeaves(s);
    AfterBoth(s, r, front);
    FlatLeaves(Recovered(s), Met(s, life.card)[..i]);
    if 0 < j {
      var b := Met(s, life.card)[i];
      AfterBoth(s, r + front, Steps(b)[..j]);
      PartLeaves(Recovered(s), b, j);
    }
  }

  lemma {:induction false} OpeningsMet(met: seq<Block>, name: string)
    requires Opening(name) in Flat(met)
    ensures exists i :: 0 <= i < |met| && met[i].Attempt? && met[i].name == name
  {
    if met != [] {
      var front, b := met[..|met| - 1], met[|met| - 1];
      if Opening(name) in Flat(front) {
        OpeningsMet(front, name);
        var i :| 0 <= i < |front| && front[i].Attempt? && front[i].name == name;
        assert met[i] == front[i];
      } else {
        assert Opening(name) in Steps(b);
      }
    }
  }

  /** Only what is not on the list, after recovery, is opened. */
  lemma OpenedNotListed(s: Store, life: Life, names: set<string>, name: string)
    requires CardWithin(life.card, names) && Opening(name) in Taken(s, life)
    ensures name in names && !Listed(Recovered(s).blocked, name) && life.upTo > |RecoverSteps(s)|
  {
    OpenTaken(s, life);
    OpenLeft(s, life);
    var list := Recovered(s).blocked;
    CardOrderly(list, NONE, life.card, names);
    assert Opening(name) in RecoverSteps(s) + Flat(Met(s, life.card));
    OpeningsMet(Met(s, life.card), name);
    if life.upTo <= |RecoverSteps(s)| { CutRecovering(s, life); }
  }

  /** The last thing a boot did was to start opening the module, which never came back. */
  predicate DiesOpening(s: Store, life: Life, name: string) {
    var t := Taken(s, life);
    t != [] && t[|t| - 1] == Opening(name)
  }

  lemma DiesOpeningLeaves(s: Store, life: Life, name: string)
    requires DiesOpening(s, life, name)
    ensures Left(s, life) == Recovered(s).(loading := name)
  {
    if life.upTo <= |RecoverSteps(s)| {
      CutRecovering(s, life);
    } else {
      var i, j := CutLoading(s, life);
      var met := Met(s, life.card);
      if 0 < j {
        LastOfAll(RecoverSteps(s) + Flat(met[..i]), Steps(met[i])[..j]);
      } else {
        NoOpeningLast(s, met[..i], name);
      }
    }
  }

  lemma LastOfAll(a: seq<Step>, b: seq<Step>)
    requires b != []
    ensures (a + b)[|a + b| - 1] == b[|b| - 1]
  {
  }

  lemma NoOpeningLast(s: Store, met: seq<Block>, name: string)
    ensures var t := RecoverSteps(s) + Flat(met); t != [] ==> t[|t| - 1] != Opening(name)
  {
    if met != [] {
      var b := met[|met| - 1];
      LastOfAll(RecoverSteps(s) + Flat(met[..|met| - 1]), Steps(b));
      assert RecoverSteps(s) + Flat(met) == RecoverSteps(s) + Flat(met[..|met| - 1]) + Steps(b);
    }
  }

  // ------------------------------------------------------------------ one life

  /** On the list, or about to be. */
  predicate Protected(s: Store, name: string) {
    Listed(s.blocked, name) || s.loading == name
  }

  /** What faulted last has a place on the list. */
  predicate HasRoom(s: Store) {
    s.loading == "" || Fits(s.blocked, s.loading)
  }

  lemma RecoveredLists(s: Store, name: string)
    requires Sound(s) && HasRoom(s) && ValidName(name)
    ensures Listed(Recovered(s).blocked, name) <==> Protected(s, name)
  {
    if s.loading != "" {
      AddedIsListed(s.blocked, s.loading);
      AddedKeeps(s.blocked, s.loading, name);
    }
  }

  /** Whatever cuts a boot short, what it leaves is as it was, or recovered, perhaps with the name of what was
      being opened. */
  lemma LifeLeaves(s: Store, life: Life, names: set<string>)
    requires Sound(s) && CardWithin(life.card, names) && ValidNames(names)
    ensures var t, r := Left(s, life), Recovered(s);
            && Sound(t)
            && (t == s || t.blocked == r.blocked)
            && (t.loading == s.loading || t.loading == "" || (t.loading in names && !Listed(r.blocked, t.loading)))
  {
    if life.upTo <= |RecoverSteps(s)| {
      CutRecovering(s, life);
    } else {
      var i, j := CutLoading(s, life);
      CardOrderly(Recovered(s).blocked, NONE, life.card, names);
    }
  }

  /** What is protected stays so through a boot cut anywhere, and is not opened in it. */
  lemma LifeProtects(s: Store, life: Life, names: set<string>, name: string)
    requires Sound(s) && HasRoom(s) && CardWithin(life.card, names) && ValidNames(names) && ValidName(name)
    requires Protected(s, name)
    ensures Opening(name) !in Taken(s, life) && Protected(Left(s, life), name)
  {
    RecoveredLists(s, name);
    LifeLeaves(s, life, names);
    if Opening(name) in Taken(s, life) { OpenedNotListed(s, life, names, name); }
  }

  /** A boot leaves a module's name in the store, where it was not there before, exactly when it is cut between
      writing the name and clearing it. */
  lemma LeftInStore(s: Store, life: Life, name: string)
    requires name != "" && s.loading != name
    ensures Left(s, life).loading == name <==> InsideAttempt(s, life, name)
  {
    if life.upTo <= |RecoverSteps(s)| {
      CutRecovering(s, life);
    } else {
      var i, j := CutLoading(s, life);
    }
    if InsideAttempt(s, life, name) { CutLeaves(s, life, name); }
  }

  lemma CutLeaves(s: Store, life: Life, name: string)
    requires InsideAttempt(s, life, name)
    ensures Left(s, life).loading == name
  {
    OpenLeft(s, life);
    var met := Met(s, life.card);
    var i: nat, j: nat :| IsCut(s, life, i, j) && met[i].Attempt? && met[i].name == name && 0 < j;
    Regroup(RecoverSteps(s), Flat(met[..i]), Steps(met[i])[..j]);
    AfterBoth(s, RecoverSteps(s), Flat(met[..i]) + Steps(met[i])[..j]);
    RecoverLeaves(s);
    FrontAndPart(Recovered(s), met[..i], met[i], j);
  }

  lemma FrontAndPart(s: Store, front: seq<Block>, b: Block, j: nat)
    requires s.loading == "" && b.Attempt? && 0 < j < |Steps(b)|
    ensures After(s, Flat(front) + Steps(b)[..j]).loading == b.name
  {
    AfterBoth(s, Flat(front), Steps(b)[..j]);
    FlatLeaves(s, front);
    PartLeaves(s, b, j);
  }

  /** Where there is room for what faulted last, a boot comes to protect exactly what it is cut while opening. */
  lemma LifeProtectsExactly(s: Store, life: Life, names: set<string>, name: string)
    requires Sound(s) && HasRoom(s) && CardWithin(life.card, names) && ValidNames(names) && ValidName(name)
    ensures Protected(Left(s, life), name) <==> Protected(s, name) || InsideAttempt(s, life, name)
  {
    if Protected(s, name) {
      LifeProtects(s, life, names, name);
    } else {
      RecoveredLists(s, name);
      LifeLeaves(s, life, names);
      LeftInStore(s, life, name);
    }
  }

  /** What gets onto the list in a boot is as much as fits of what faulted last, once it has been written. */
  lemma LifeLists(s: Store, life: Life, names: set<string>, other: string)
    requires Sound(s) && CardWithin(life.card, names) && ValidNames(names) && other != ""
    ensures Listed(Left(s, life).blocked, other) <==> Listed(s.blocked, other) || PutsOn(s, life, other)
  {
    if life.upTo <= |RecoverSteps(s)| {
      CutRecovering(s, life);
    } else {
      var i, j := CutLoading(s, life);
    }
    if s.loading != "" && !Listed(s.blocked, s.loading) { AddedLists(s.blocked, s.loading, other); }
  }

  predicate PutsOn(s: Store, life: Life, other: string)
    requires Sound(s)
  {
    s.loading != "" && life.upTo > 0 && !Listed(s.blocked, s.loading) && other == Piece(s.blocked, s.loading)
  }

  /** A module that answered can still be blocked: the machine may go down before its name is cleared. */
  lemma AnsweredYetBlocked(name: string)
    requires ValidName(name)
    ensures var s, life := Store("", ""), Life([[Loose(Module(name, GoesIn))]], 3);
            && Taken(s, life) == [Wrote(Loading, name), Opening(name), Opened(name)]
            && Listed(Recovered(Left(s, life)).blocked, name)
  {
    var s, life := Store("", ""), Life([[Loose(Module(name, GoesIn))]], 3);
    LoneModule(s, name, GoesIn);
    var b := Attempt(name, GoesIn);
    LoneFlat(b);
    OpenTaken(s, life);
    OpenLeft(s, life);
    assert Taken(s, life) == Steps(b)[..3];
    PartLeaves(s, b, 3);
    AddedIsListed("", name);
  }

  lemma LoneFlat(b: Block)
    ensures Flat([b]) == Steps(b)
  {
    assert [b][..0] == [];
    assert [] + Steps(b) == Steps(b);
  }

  lemma LoneModule(s: Store, name: string, fate: Fate)
    ensures var list := Recovered(s).blocked;
            Met(s, [[Loose(Module(name, fate))]]) == if Listed(list, name) then [] else [Attempt(name, fate)]
  {
    var list, f := Recovered(s).blocked, Module(name, fate);
    var w := WalkedFile(list, NONE, f);
    assert WalkedScope(list, NONE, [Loose(f)]) == WalkedScope(list, WalkedItem(list, NONE, Loose(f)), []);
    assert [Loose(f)][1..] == [] && [[Loose(f)]][1..] == [];
    assert WalkedCard(list, NONE, [[Loose(f)]]) == WalkedCard(list, w, []);
    assert [] + MetBy(list, false, f) == MetBy(list, false, f);
  }

  /** What faulted while being opened is opened at the next start exactly when there was no room to list it. */
  lemma ReopenedExactly(s: Store, fate: Fate)
    requires Sound(s) && s.loading != "" && fate != NoCopy
    ensures Opening(s.loading) in Boot(s, [[Loose(Module(s.loading, fate))]]) <==> !Fits(s.blocked, s.loading)
  {
    OpenBoot(s, [[Loose(Module(s.loading, fate))]]);
    var name := s.loading;
    LoneModule(s, name, fate);
    AddedIsListed(s.blocked, name);
    var b := Attempt(name, fate);
    LoneFlat(b);
    assert Steps(b)[1] == Opening(name);
    assert Flat([]) == [];
    if !Fits(s.blocked, name) {
      var all := Boot(s, [[Loose(Module(name, fate))]]);
      assert all[|RecoverSteps(s)| + 1] == Opening(name);
    }
  }

  /** Recovery that is itself cut short comes to the same when it is done again. */
  lemma RecoverTwice(s: Store, k: nat)
    requires Sound(s) && k <= |RecoverSteps(s)|
    ensures Recovered(After(s, RecoverSteps(s)[..k])) == Recovered(s)
  {
    RecoverLeaves(s);
    if s.loading != "" {
      AddedTwice(s.blocked, s.loading);
      assert RecoverSteps(s)[..2] == RecoverSteps(s);
    }
  }

  /** The boot of a card with one module on it, up to where that begins to be opened. */
  function CrashOf(s: Store, name: string, fate: Fate): Life {
    Life([[Loose(Module(name, fate))]], |RecoverSteps(s)| + 2)
  }

  /** Any module not on the list can take the machine down. */
  lemma Crashes(s: Store, name: string, fate: Fate, names: set<string>)
    requires ValidName(name) && name in names && fate != NoCopy && !Listed(Recovered(s).blocked, name)
    ensures var life := CrashOf(s, name, fate);
            && CardWithin(life.card, names)
            && Taken(s, life) == RecoverSteps(s) + [Wrote(Loading, name), Opening(name)]
            && DiesOpening(s, life, name) && Left(s, life) == Store(name, Recovered(s).blocked)
            && !Completes(s, life)
  {
    var life, b := CrashOf(s, name, fate), Attempt(name, fate);
    LoneModule(s, name, fate);
    LoneFlat(b);
    OpenTaken(s, life);
    OpenLeft(s, life);
    assert Taken(s, life) == RecoverSteps(s) + Steps(b)[..2];
    assert Steps(b)[..2] == [Wrote(Loading, name), Opening(name)];
    LastOfAll(RecoverSteps(s), Steps(b)[..2]);
    DiesOpeningLeaves(s, life, name);
  }

  /** A boot that gets to its end. */
  predicate Completes(s: Store, life: Life) {
    life.upTo >= |Boot(s, life.card)|
  }
}
