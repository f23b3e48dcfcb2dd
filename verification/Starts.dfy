/** What a start opens, told from the card and the list, and in what order. */
module Starts {
  import opened BlockList
  import opened Recovery
  import opened Boots
  import LoadCount

  // ------------------------------------------------------------------ what is on the card

  predicate OnScope(scope: Scope, f: File) {
    exists k :: 0 <= k < |scope| && f in LoadCount.FilesOf(scope[k])
  }

  predicate OnCard(card: seq<Scope>, f: File) {
    exists i :: 0 <= i < |card| && OnScope(card[i], f)
  }

  lemma OnScopeFirst(scope: Scope, f: File)
    requires scope != []
    ensures OnScope(scope, f) <==> f in LoadCount.FilesOf(scope[0]) || OnScope(scope[1..], f)
  {
    if k :| 0 <= k < |scope| && f in LoadCount.FilesOf(scope[k]) {
      assert k > 0 ==> scope[1..][k - 1] == scope[k];
    }
    if k :| 0 <= k < |scope[1..]| && f in LoadCount.FilesOf(scope[1..][k]) {
      assert scope[k + 1] == scope[1..][k];
    }
  }

  lemma OnCardFirst(card: seq<Scope>, f: File)
    requires card != []
    ensures OnCard(card, f) <==> OnScope(card[0], f) || OnCard(card[1..], f)
  {
    if i :| 0 <= i < |card| && OnScope(card[i], f) { assert i > 0 ==> card[1..][i - 1] == card[i]; }
    if i :| 0 <= i < |card[1..]| && OnScope(card[1..][i], f) { assert card[i + 1] == card[1..][i]; }
  }

  // ------------------------------------------------------------- what a walk has met

  function NamesOf(entries: seq<Entry>): set<string> {
    set k | 0 <= k < |entries| :: entries[k].name
  }

  /** No name has two entries, and each is one of these. */
  ghost predicate Roomy(w: Walk, names: set<string>) {
    && w.goes && (forall i, k :: 0 <= i < k < |w.entries| ==> w.entries[i].name != w.entries[k].name)
    && NamesOf(w.entries) <= names
  }

  lemma {:induction false} AsManyNames(entries: seq<Entry>)
    requires forall i, k :: 0 <= i < k < |entries| ==> entries[i].name != entries[k].name
    ensures |NamesOf(entries)| == |entries|
  {
    if entries != [] {
      var m := |entries| - 1;
      AsManyNames(entries[..m]);
      assert NamesOf(entries) == NamesOf(entries[..m]) + {entries[m].name};
    }
  }

  /** With no more than eight names there is an entry for each. */
  lemma RoomForOne(entries: seq<Entry>, names: set<string>, name: string)
    requires forall i, k :: 0 <= i < k < |entries| ==> entries[i].name != entries[k].name
    requires NamesOf(entries) <= names && |names| <= 8 && name in names && Slot(entries, name) == |entries|
    ensures |entries| < 8
  {
    AsManyNames(entries);
    assert name !in NamesOf(entries);
    Fewer(NamesOf(entries), names, name);
  }

  lemma Fewer(a: set<string>, b: set<string>, x: string)
    requires a <= b && x in b && x !in a
    ensures |a| < |b|
  {
    Smaller(a, b - {x});
  }

  lemma {:induction false} Smaller(a: set<string>, b: set<string>)
    requires a <= b
    ensures |a| <= |b|
    decreases a
  {
    if a != {} {
      var x :| x in a;
      Smaller(a - {x}, b - {x});
    }
  }

  /** A module is tried that is not on the list, in its turn. */
  lemma FileTried(list: string, w: Walk, f: File, names: set<string>, b: Block)
    requires Roomy(w, names) && |names| <= 8 && FileWithin(f, names) && b.Attempt?
    ensures var v := WalkedFile(list, w, f);
            && Roomy(v, names)
            && (b in v.met <==> b in w.met || (f == Module(b.name, b.fate) && !Listed(list, b.name)))
  {
    if f.Module? {
      var i := Slot(w.entries, f.name);
      if i == |w.entries| { RoomForOne(w.entries, names, f.name); }
      var v := WalkedFile(list, w, f);
      PutNames(w.entries, i, Settled(list, f));
    }
  }

  lemma PutNames(entries: seq<Entry>, i: nat, e: Entry)
    requires i <= |entries| && i == Slot(entries, e.name)
    requires forall i, k :: 0 <= i < k < |entries| ==> entries[i].name != entries[k].name
    ensures var to := Put(entries, i, e);
            && (forall i, k :: 0 <= i < k < |to| ==> to[i].name != to[k].name)
            && NamesOf(to) <= NamesOf(entries) + {e.name}
  {
  }

  lemma {:induction false} FilesTried(list: string, w: Walk, files: seq<File>, names: set<string>, b: Block)
    requires Roomy(w, names) && |names| <= 8 && b.Attempt?
    requires forall k :: 0 <= k < |files| ==> FileWithin(files[k], names)
    ensures var v := WalkedFiles(list, w, files);
            && Roomy(v, names)
            && (b in v.met <==> b in w.met || (Module(b.name, b.fate) in files && !Listed(list, b.name)))
    decreases files
  {
    if files != [] {
      FileTried(list, w, files[0], names, b);
      FilesTried(list, WalkedFile(list, w, files[0]), files[1..], names, b);
      assert files == [files[0]] + files[1..];
    }
  }

  lemma ItemTried(list: string, w: Walk, item: Item, names: set<string>, b: Block)
    requires Roomy(w, names) && |names| <= 8 && b.Attempt? && ItemWithin(item, names)
    ensures var v := WalkedItem(list, w, item);
            && Roomy(v, names)
            && (b in v.met <==> b in w.met
                                || (Module(b.name, b.fate) in LoadCount.FilesOf(item) && !Listed(list, b.name)))
  {
    match item {
      case Loose(f) => FileTried(list, w, f, names, b);
      case Folder(files) => FilesTried(list, w, files, names, b);
    }
  }

  lemma {:induction false} ScopeTried(list: string, w: Walk, scope: Scope, names: set<string>, b: Block)
    requires Roomy(w, names) && |names| <= 8 && b.Attempt?
    requires forall k :: 0 <= k < |scope| ==> ItemWithin(scope[k], names)
    ensures var v := WalkedScope(list, w, scope);
            && Roomy(v, names)
            && (b in v.met <==> b in w.met || (OnScope(scope, Module(b.name, b.fate)) && !Listed(list, b.name)))
    decreases scope
  {
    if scope != [] {
      ItemTried(list, w, scope[0], names, b);
      ScopeTried(list, WalkedItem(list, w, scope[0]), scope[1..], names, b);
      OnScopeFirst(scope, Module(b.name, b.fate));
    }
  }

  lemma {:induction false} CardTried(list: string, w: Walk, card: seq<Scope>, names: set<string>, b: Block)
    requires Roomy(w, names) && |names| <= 8 && b.Attempt? && CardWithin(card, names)
    ensures var v := WalkedCard(list, w, card);
            b in v.met <==> b in w.met || (OnCard(card, Module(b.name, b.fate)) && !Listed(list, b.name))
    decreases card
  {
    if card != [] {
      var u := w.(loaded := 0, goes := true);
      ScopeTried(list, u, card[0], names, b);
      CardTried(list, WalkedScope(list, u, card[0]), card[1..], names, b);
      OnCardFirst(card, Module(b.name, b.fate));
    }
  }

  predicate Some(met: seq<Block>, step: Step) {
    exists i :: 0 <= i < |met| && step in Steps(met[i])
  }

  lemma SomeMore(front: seq<Block>, b: Block, step: Step)
    ensures Some(front + [b], step) <==> Some(front, step) || step in Steps(b)
  {
    var met := front + [b];
    if i :| 0 <= i < |front| && step in Steps(front[i]) { assert met[i] == front[i]; }
    if step in Steps(b) { assert met[|front|] == b; }
  }

  lemma {:induction false} FlatHas(met: seq<Block>, step: Step)
    ensures step in Flat(met) <==> Some(met, step)
  {
    if met != [] {
      var front, b := met[..|met| - 1], met[|met| - 1];
      FlatHas(front, step);
      SomeMore(front, b, step);
      assert front + [b] == met;
    }
  }

  /** With no more than eight names on the card, a module is opened exactly where a file of its name is on it that can
      be copied to where it is opened from, and it is not on the list once what faulted is. */
  lemma OpenedExactly(s: Store, card: seq<Scope>, names: set<string>, name: string)
    requires CardWithin(card, names) && |names| <= 8
    ensures Opening(name) in Boot(s, card)
            <==> && !Listed(Recovered(s).blocked, name)
                 && exists fate :: fate != NoCopy && OnCard(card, Module(name, fate))
  {
    var list, met := Recovered(s).blocked, Met(s, card);
    OpenBoot(s, card);
    FlatHas(met, Opening(name));
    forall fate ensures Attempt(name, fate) in met <==> OnCard(card, Module(name, fate)) && !Listed(list, name) {
      CardTried(list, NONE, card, names, Attempt(name, fate));
    }
    if i :| 0 <= i < |met| && Opening(name) in Steps(met[i]) {
      assert met[i] == Attempt(name, met[i].fate) && met[i].fate != NoCopy;
    }
    if fate :| fate != NoCopy && OnCard(card, Module(name, fate)) && !Listed(list, name) {
      assert Steps(Attempt(name, fate))[1] == Opening(name);
    }
  }

  // -------------------------------------------------------------------- in what order

  /** Its name is written just before it is opened, and cleared just after it answers. */
  ghost predicate NameDown(steps: seq<Step>, i: nat) {
    i < |steps| && steps[i].Opening? ==>
      && i > 0 && steps[i - 1] == Wrote(Loading, steps[i].name)
      && i + 2 < |steps| && steps[i + 1] == Opened(steps[i].name) && steps[i + 2] == Wrote(Loading, "")
  }

  /** What holds of two runs of steps holds of one after the other. */
  lemma BothNameDown(a: seq<Step>, b: seq<Step>, all: seq<Step>, i: nat)
    requires all == a + b && NameDown(a, i) && (i >= |a| ==> NameDown(b, i - |a|))
    ensures NameDown(all, i)
  {
    if i >= |a| {
      assert forall k :: 0 <= k < |b| ==> all[|a| + k] == b[k];
    } else {
      assert forall k :: 0 <= k < |a| ==> all[k] == a[k];
    }
  }

  lemma {:induction false} FlatNameDown(met: seq<Block>, i: nat)
    ensures NameDown(Flat(met), i)
  {
    if met != [] {
      var front, b := Flat(met[..|met| - 1]), Steps(met[|met| - 1]);
      FlatNameDown(met[..|met| - 1], i);
      BothNameDown(front, b, Flat(met), i);
    }
  }

  lemma NameIsDown(s: Store, card: seq<Scope>, i: nat)
    ensures NameDown(Boot(s, card), i)
  {
    OpenBoot(s, card);
    var first := RecoverSteps(s);
    if i >= |first| { FlatNameDown(Met(s, card), i - |first|); }
    BothNameDown(first, Flat(Met(s, card)), Boot(s, card), i);
  }

  /** Whether a module of that name is open, after what has been met. */
  function OpenAfter(met: seq<Block>, name: string): bool {
    if met == [] then false
    else
      match met[|met| - 1]
      case Closing(n) => if n == name then false else OpenAfter(met[..|met| - 1], name)
      case Attempt(n, fate) => if n == name then fate == GoesIn else OpenAfter(met[..|met| - 1], name)
  }

  /** None is opened over one of its name that is open, and none closed that is not. */
  ghost predicate InTurn(met: seq<Block>) {
    forall i :: 0 <= i < |met| ==> (OpenAfter(met[..i], met[i].name) <==> met[i].Closing?)
  }

  ghost predicate KnowsOpen(w: Walk) {
    && (forall i, k :: 0 <= i < k < |w.entries| ==> w.entries[i].name != w.entries[k].name)
    && (forall i :: 0 <= i < |w.entries| ==> (w.entries[i].isOpen <==> OpenAfter(w.met, w.entries[i].name)))
    && (forall name :: name !in NamesOf(w.entries) ==> !OpenAfter(w.met, name))
  }

  lemma MetOne(met: seq<Block>, b: Block, name: string)
    ensures OpenAfter(met + [b], name)
            == if b.name == name then b.Attempt? && b.fate == GoesIn else OpenAfter(met, name)
  {
    assert (met + [b])[..|met|] == met;
  }

  lemma InTurnMore(met: seq<Block>, b: Block)
    requires InTurn(met) && (OpenAfter(met, b.name) <==> b.Closing?)
    ensures InTurn(met + [b])
  {
    var more := met + [b];
    forall i | 0 <= i < |more| ensures OpenAfter(more[..i], more[i].name) <==> more[i].Closing? {
      assert more[..i] == if i < |met| then met[..i] else met;
    }
  }

  lemma MetByInTurn(met: seq<Block>, list: string, isOpen: bool, f: File)
    requires f.Module? && InTurn(met) && (OpenAfter(met, f.name) <==> isOpen)
    ensures InTurn(met + MetBy(list, isOpen, f))
    ensures forall name :: OpenAfter(met + MetBy(list, isOpen, f), name)
                           == if name == f.name then Settled(list, f).isOpen else OpenAfter(met, name)
  {
    var closing, tried := if isOpen then [Closing(f.name)] else [], [Attempt(f.name, f.fate)];
    var first := met + closing;
    if isOpen {
      InTurnMore(met, Closing(f.name));
      forall name { MetOne(met, Closing(f.name), name); }
    } else {
      assert first == met;
    }
    assert InTurn(first) && !OpenAfter(first, f.name);
    if Listed(list, f.name) {
      assert met + MetBy(list, isOpen, f) == first;
    } else {
      assert met + MetBy(list, isOpen, f) == first + tried;
      InTurnMore(first, tried[0]);
      forall name { MetOne(first, tried[0], name); }
    }
  }

  lemma KnowsPut(w: Walk, i: nat, e: Entry, v: Walk)
    requires KnowsOpen(w) && i == Slot(w.entries, e.name) && v.entries == Put(w.entries, i, e)
    requires forall name :: OpenAfter(v.met, name) == if name == e.name then e.isOpen else OpenAfter(w.met, name)
    ensures KnowsOpen(v)
  {
    PutNames(w.entries, i, e);
    PutHas(w.entries, i, e);
  }

  lemma FileInTurn(list: string, w: Walk, f: File)
    requires KnowsOpen(w) && InTurn(w.met)
    ensures var v := WalkedFile(list, w, f); KnowsOpen(v) && InTurn(v.met)
  {
    if f.Module? {
      var i := Slot(w.entries, f.name);
      if i < |w.entries| || i < ENTRIES_MAX {
        SlotOfNone(w.entries, f.name);
        MetByInTurn(w.met, list, i < |w.entries| && w.entries[i].isOpen, f);
        KnowsPut(w, i, Settled(list, f), WalkedFile(list, w, f));
      }
    }
  }

  lemma SlotOfNone(entries: seq<Entry>, name: string)
    ensures Slot(entries, name) == |entries| <==> name !in NamesOf(entries)
  {
    var i := Slot(entries, name);
    if i < |entries| { assert entries[i].name in NamesOf(entries); }
  }

  lemma PutHas(entries: seq<Entry>, i: nat, e: Entry)
    requires i <= |entries| && (i < |entries| ==> entries[i].name == e.name)
    ensures NamesOf(Put(entries, i, e)) == NamesOf(entries) + {e.name}
  {
    var to := Put(entries, i, e);
    assert to[i] == e;
    forall n | n in NamesOf(entries) ensures n in NamesOf(to) {
      var k :| 0 <= k < |entries| && entries[k].name == n;
      assert to[k].name == n;
    }
  }

  lemma {:induction false} FilesInTurn(list: string, w: Walk, files: seq<File>)
    requires KnowsOpen(w) && InTurn(w.met)
    ensures var v := WalkedFiles(list, w, files); KnowsOpen(v) && InTurn(v.met)
    decreases files
  {
    if files != [] && w.goes {
      FileInTurn(list, w, files[0]);
      FilesInTurn(list, WalkedFile(list, w, files[0]), files[1..]);
    }
  }

  lemma {:induction false} ScopeInTurn(list: string, w: Walk, scope: Scope)
    requires KnowsOpen(w) && InTurn(w.met)
    ensures var v := WalkedScope(list, w, scope); KnowsOpen(v) && InTurn(v.met)
    decreases scope
  {
    if scope != [] && w.goes {
      match scope[0] {
        case Loose(f) => FileInTurn(list, w, f);
        case Folder(files) => FilesInTurn(list, w, files);
      }
      ScopeInTurn(list, WalkedItem(list, w, scope[0]), scope[1..]);
    }
  }

  lemma {:induction false} CardInTurn(list: string, w: Walk, card: seq<Scope>)
    requires KnowsOpen(w) && InTurn(w.met)
    ensures var v := WalkedCard(list, w, card); KnowsOpen(v) && InTurn(v.met)
    decreases card
  {
    if card != [] {
      var u := w.(loaded := 0, goes := true);
      ScopeInTurn(list, u, card[0]);
      CardInTurn(list, WalkedScope(list, u, card[0]), card[1..]);
    }
  }

  /** Over a whole start no module is opened while one of its name is open, none is closed that is not, and the
      entries say in the end which are. */
  lemma StartInTurn(s: Store, card: seq<Scope>)
    ensures InTurn(Met(s, card))
    ensures var w := WalkedCard(Recovered(s).blocked, NONE, card);
            forall i :: 0 <= i < |w.entries| ==> (w.entries[i].isOpen <==> OpenAfter(w.met, w.entries[i].name))
  {
    CardInTurn(Recovered(s).blocked, NONE, card);
  }

  // ------------------------------------------------------------------------- one file

  /** What the entry of one module says: faulted where it is listed, and otherwise how opening it ended; no other
      entry is touched. There is none only where eight others have theirs. */
  lemma OneEntry(list: string, w: Walk, name: string, fate: Fate)
    requires !(Slot(w.entries, name) == |w.entries| >= 8)
    ensures var v, i := WalkedFile(list, w, Module(name, fate)), Slot(w.entries, name);
            && i < |v.entries| && v.goes == w.goes
            && v.entries[i] == (if Listed(list, name) then Entry(name, Faulted, false)
                                else if fate == GoesIn then Entry(name, Fine, true)
                                else Entry(name, Failed(fate), false))
            && forall k :: 0 <= k < |w.entries| && k != i ==> v.entries[k] == w.entries[k]
  {
  }

  /** With eight others, a ninth is passed over, and the rest of the listing with it. */
  lemma NoEntry(list: string, w: Walk, name: string, fate: Fate)
    requires Slot(w.entries, name) == |w.entries| >= 8
    ensures WalkedFile(list, w, Module(name, fate)) == w.(goes := false)
  {
  }

  /** What is added to a list: the name after what is there and a space, all of it where that is no more than 127. */
  lemma AddedIs(list: string, name: string)
    requires !Listed(list, name)
    ensures |name| <= 127 && list == "" ==> Added(list, name) == name
    ensures list != "" && |list| + 1 + |name| <= 127 ==> Added(list, name) == list + " " + name
  {
  }

  /** What a start does before it opens anything: what faulted is put on the list, and then forgotten. */
  lemma FirstOfAll(s: Store)
    ensures RecoverSteps(s) == if s.loading == "" then []
                               else [Wrote(Blocked, Added(s.blocked, s.loading)), Wrote(Loading, "")]
    ensures Recovered(s) == After(s, RecoverSteps(s))
  {
    RecoverLeaves(s);
  }

  /** A name is one to sixty letters, digits and underscores, by their codes. */
  lemma NamesAre(name: string)
    ensures ValidName(name) <==>
              && 1 <= |name| <= 60
              && forall i :: 0 <= i < |name| ==>
                               var c := name[i] as int;
                               0x61 <= c <= 0x7A || 0x41 <= c <= 0x5A || 0x30 <= c <= 0x39 || c == 0x5F
  {
  }
}
