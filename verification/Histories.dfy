/** Boots one after another, on any cards and cut anywhere: which modules stay shut, which are blocked, and whether the
    machine comes up. */
module Histories {
  import opened BlockList
  import opened Recovery
  import opened Boots

  type History = seq<Life>

  function Run(s: Store, h: History): Store
    decreases h
  {
    if h == [] then s else Run(Left(s, h[0]), h[1..])
  }

  /** Every module on every card has one of these names. */
  predicate Within(h: History, names: set<string>) {
    forall i :: 0 <= i < |h| ==> CardWithin(h[i].card, names)
  }

  predicate Opens(s: Store, h: History, name: string)
    decreases h
  {
    h != [] && (Opening(name) in Taken(s, h[0]) || Opens(Left(s, h[0]), h[1..], name))
  }

  /** What faulted last is one of the names, and the list fits its buffer. */
  predicate SoundWithin(s: Store, names: set<string>) {
    Sound(s) && ValidNames(names) && (s.loading == "" || s.loading in names)
  }

  lemma StaysWithin(s: Store, life: Life, names: set<string>)
    requires SoundWithin(s, names) && CardWithin(life.card, names)
    ensures SoundWithin(Left(s, life), names)
  {
    LifeLeaves(s, life, names);
  }

  // ---------------------------------------------------------------- what stays shut

  /** On the list, or about to be put there whole. */
  predicate Shut(s: Store, name: string) {
    Listed(s.blocked, name) || (s.loading == name && Fits(s.blocked, name))
  }

  lemma LifeStaysShut(s: Store, life: Life, names: set<string>, name: string)
    requires Sound(s) && ValidNames(names) && CardWithin(life.card, names) && ValidName(name) && Shut(s, name)
    ensures Opening(name) !in Taken(s, life) && Shut(Left(s, life), name)
  {
    LifeLeaves(s, life, names);
    if s.loading != "" {
      AddedKeeps(s.blocked, s.loading, name);
      AddedIsListed(s.blocked, s.loading);
    }
    assert Listed(Recovered(s).blocked, name);
    if Opening(name) in Taken(s, life) { OpenedNotListed(s, life, names, name); }
  }

  lemma {:induction false} StaysShut(s: Store, h: History, names: set<string>, name: string)
    requires Sound(s) && ValidNames(names) && Within(h, names) && ValidName(name) && Shut(s, name)
    ensures !Opens(s, h, name)
    decreases h
  {
    if h != [] {
      LifeStaysShut(s, h[0], names, name);
      LifeLeaves(s, h[0], names);
      StaysShut(Left(s, h[0]), h[1..], names, name);
    }
  }

  /** What faulted last is never opened again, in any run of boots on any cards, exactly where there is room for its
      name on the list as it is. What faults later does not matter: nothing falls off the list. */
  lemma ShutExactly(s: Store, names: set<string>)
    requires SoundWithin(s, names) && s.loading != ""
    ensures (forall h: History | Within(h, names) :: !Opens(s, h, s.loading)) <==> Fits(s.blocked, s.loading)
  {
    if Fits(s.blocked, s.loading) {
      forall h: History | Within(h, names) ensures !Opens(s, h, s.loading) {
        StaysShut(s, h, names, s.loading);
      }
    } else {
      AddedIsListed(s.blocked, s.loading);
      Crashes(s, s.loading, GoesIn, names);
      var life := CrashOf(s, s.loading, GoesIn);
      assert Taken(s, life)[3] == Opening(s.loading);
      assert Within([life], names) && Opens(s, [life], s.loading);
    }
  }

  /** So a module being opened when the machine went down is never opened again, until the list is cleared, exactly
      where there was room for it at that crash. */
  lemma NeverOpenedAgain(s: Store, life: Life, names: set<string>, name: string)
    requires SoundWithin(s, names) && CardWithin(life.card, names) && DiesOpening(s, life, name)
    ensures (forall h: History | Within(h, names) :: !Opens(Left(s, life), h, name))
            <==> Fits(Recovered(s).blocked, name)
  {
    DiesOpeningLeaves(s, life, name);
    OpenedNotListed(s, life, names, name);
    StaysWithin(s, life, names);
    ShutExactly(Left(s, life), names);
  }

  // ----------------------------------------------------------------- what is blocked

  /** Some boot puts the name on the list: as much as fits of what faulted before it. */
  predicate PutOnEver(s: Store, h: History, other: string)
    requires Sound(s)
    decreases h
  {
    h != [] && (PutsOn(s, h[0], other) || (Sound(Left(s, h[0])) && PutOnEver(Left(s, h[0]), h[1..], other)))
  }

  /** A name is on the list after any run of boots exactly where it was before or some boot put it there. */
  lemma {:induction false} ListedExactly(s: Store, h: History, names: set<string>, other: string)
    requires SoundWithin(s, names) && Within(h, names) && other != ""
    ensures Listed(Run(s, h).blocked, other) <==> Listed(s.blocked, other) || PutOnEver(s, h, other)
    decreases h
  {
    if h != [] {
      LifeLists(s, h[0], names, other);
      StaysWithin(s, h[0], names);
      ListedExactly(Left(s, h[0]), h[1..], names, other);
    }
  }

  /** Some boot is cut between writing the module's name and clearing it. */
  ghost predicate CutEver(s: Store, h: History, name: string)
    decreases h
  {
    h != [] && (InsideAttempt(s, h[0], name) || CutEver(Left(s, h[0]), h[1..], name))
  }

  predicate Roomy(s: Store, h: History)
    decreases h
  {
    h == [] || (HasRoom(s) && Roomy(Left(s, h[0]), h[1..]))
  }

  /** Where whatever faults has room, what is blocked or about to be is exactly what was before and what some boot was
      cut while opening. */
  lemma {:induction false} BlockedWhereRoomy(s: Store, h: History, names: set<string>, name: string)
    requires SoundWithin(s, names) && Within(h, names) && ValidName(name) && Roomy(s, h)
    ensures Protected(Run(s, h), name) <==> Protected(s, name) || CutEver(s, h, name)
    decreases h
  {
    if h != [] {
      LifeProtectsExactly(s, h[0], names, name);
      StaysWithin(s, h[0], names);
      BlockedWhereRoomy(Left(s, h[0]), h[1..], names, name);
    }
  }

  // ------------------------------------------------ whether there is room for every name

  /** The places that names take, each with a space or a terminator after it. */
  ghost function Total(names: set<string>): nat
    decreases names
  {
    if names == {} then 0 else var n :| n in names; |n| + 1 + Total(names - {n})
  }

  lemma {:induction false} TotalOne(names: set<string>, n: string)
    requires n in names
    ensures Total(names) == |n| + 1 + Total(names - {n})
    decreases names
  {
    var m :| m in names && Total(names) == |m| + 1 + Total(names - {m});
    if m != n {
      TotalOne(names - {m}, n);
      TotalOne(names - {n}, m);
      assert names - {m} - {n} == names - {n} - {m};
    }
  }

  ghost function Unlisted(s: Store, names: set<string>): set<string> {
    set n | n in names && !Listed(s.blocked, n)
  }

  function Used(list: string): nat {
    if list == "" then 0 else |list| + 1
  }

  /** The list has room for every name that is not on it yet. */
  ghost predicate Room(s: Store, names: set<string>) {
    Used(s.blocked) + Total(Unlisted(s, names)) <= ROOM + 1
  }

  lemma RoomHere(s: Store, names: set<string>)
    requires SoundWithin(s, names) && Room(s, names)
    ensures HasRoom(s)
  {
    if s.loading != "" && !Listed(s.blocked, s.loading) { TotalOne(Unlisted(s, names), s.loading); }
  }

  /** Putting a name on the list takes exactly the room that was kept for it. */
  lemma RoomRecovered(s: Store, names: set<string>)
    requires SoundWithin(s, names) && HasRoom(s)
    ensures Room(Recovered(s), names) <==> Room(s, names)
    ensures Unlisted(Recovered(s), names) == Unlisted(s, names) - {s.loading}
  {
    var t := Recovered(s);
    forall n | n in names ensures Listed(t.blocked, n) <==> Protected(s, n) { RecoveredLists(s, n); }
    assert Unlisted(t, names) == Unlisted(s, names) - {s.loading};
    if s.loading != "" && !Listed(s.blocked, s.loading) {
      TotalOne(Unlisted(s, names), s.loading);
    } else {
      assert Unlisted(t, names) == Unlisted(s, names);
    }
  }

  lemma RoomStays(s: Store, life: Life, names: set<string>)
    requires SoundWithin(s, names) && CardWithin(life.card, names) && Room(s, names)
    ensures Room(Left(s, life), names)
  {
    RoomHere(s, names);
    RoomRecovered(s, names);
    LifeLeaves(s, life, names);
    var t := Left(s, life);
    assert t.blocked == s.blocked ==> Unlisted(t, names) == Unlisted(s, names);
    assert t.blocked == Recovered(s).blocked ==> Unlisted(t, names) == Unlisted(Recovered(s), names);
  }

  lemma {:induction false} AlwaysRoomy(s: Store, h: History, names: set<string>)
    requires SoundWithin(s, names) && Within(h, names) && Room(s, names)
    ensures Roomy(s, h)
    decreases h
  {
    if h != [] {
      RoomHere(s, names);
      RoomStays(s, h[0], names);
      StaysWithin(s, h[0], names);
      AlwaysRoomy(Left(s, h[0]), h[1..], names);
    }
  }

  /** With room for all the names, what is blocked or about to be after any run of boots is exactly what was before and
      what some boot was cut while opening. */
  lemma BlockedExactly(s: Store, h: History, names: set<string>, name: string)
    requires SoundWithin(s, names) && Within(h, names) && ValidName(name) && Room(s, names)
    ensures Protected(Run(s, h), name) <==> Protected(s, name) || CutEver(s, h, name)
  {
    AlwaysRoomy(s, h, names);
    BlockedWhereRoomy(s, h, names, name);
  }

  /** Without it, the names can crash one after another until one has no room; and no boot comes up meanwhile. */
  lemma {:induction false} RunsOut(s: Store, names: set<string>) returns (h: History)
    requires SoundWithin(s, names) && !Room(s, names)
    ensures Within(h, names) && SoundWithin(Run(s, h), names) && !HasRoom(Run(s, h))
    ensures OnlyOpeningKills(s, h) && !SomeCompletes(s, h)
    decreases Unlisted(Recovered(s), names)
  {
    h := [];
    if HasRoom(s) {
      var r := Recovered(s);
      RoomRecovered(s, names);
      var n :| n in Unlisted(r, names);
      Crashes(s, n, GoesIn, names);
      var life := CrashOf(s, n, GoesIn);
      var t := Left(s, life);
      StaysWithin(s, life, names);
      assert Unlisted(t, names) == Unlisted(r, names);
      var more: History := [];
      if HasRoom(t) {
        RoomRecovered(t, names);
        more := RunsOut(t, names);
      }
      h := [life] + more;
      assert h[1..] == more;
    }
  }

  /** Every run of boots has room for whatever faults exactly where there is room for all the names. */
  lemma RoomExactly(s: Store, names: set<string>)
    requires SoundWithin(s, names)
    ensures (forall h: History | Within(h, names) :: Roomy(s, h)) <==> Room(s, names)
  {
    if Room(s, names) {
      forall h: History | Within(h, names) ensures Roomy(s, h) { AlwaysRoomy(s, h, names); }
    } else {
      var h := RunsOut(s, names);
      NotRoomy(s, h, Life([], 0));
      assert Within(h + [Life([], 0)], names);
    }
  }

  lemma {:induction false} NotRoomy(s: Store, h: History, life: Life)
    requires !HasRoom(Run(s, h))
    ensures !Roomy(s, h + [life])
    decreases h
  {
    if h != [] {
      NotRoomy(Left(s, h[0]), h[1..], life);
      assert (h + [life])[1..] == h[1..] + [life];
    }
  }

  /** From an empty store that is so exactly where the names with what is between them are no longer than the list. */
  lemma EmptyStoreRoom(names: set<string>)
    requires ValidNames(names)
    ensures SoundWithin(Store("", ""), names) && (Room(Store("", ""), names) <==> Total(names) <= ROOM + 1)
  {
    assert Unlisted(Store("", ""), names) == names;
  }

  lemma {:induction false} TotalAtMost(names: set<string>, longest: nat)
    requires forall n :: n in names ==> |n| <= longest
    ensures Total(names) <= |names| * (longest + 1)
    decreases names
  {
    if names != {} {
      var n :| n in names;
      TotalOne(names, n);
      TotalAtMost(names - {n}, longest);
      assert |names| * (longest + 1) == (|names| - 1) * (longest + 1) + (longest + 1);
    }
  }

  /** Two names of any length always fit, and eight of up to fifteen characters. */
  lemma FewShortNames(names: set<string>)
    requires ValidNames(names)
    requires |names| <= 2 || (|names| <= 8 && forall n :: n in names ==> |n| <= 15)
    ensures Total(names) <= ROOM + 1
  {
    TotalAtMost(names, if |names| <= 2 then NAME_MAX else 15);
  }

  // ------------------------------------------------------------ how often it goes down

  /** How many of the boots went down while opening something. */
  ghost function Deaths(s: Store, h: History): nat
    decreases h
  {
    if h == [] then 0
    else (if exists n :: DiesOpening(s, h[0], n) then 1 else 0) + Deaths(Left(s, h[0]), h[1..])
  }

  ghost function Free(s: Store, names: set<string>): set<string> {
    set n | n in names && !Protected(s, n)
  }

  lemma {:induction false} Fewer(a: set<string>, b: set<string>)
    requires a <= b
    ensures |a| <= |b|
    decreases a
  {
    if a != {} {
      var x :| x in a;
      Fewer(a - {x}, b - {x});
    }
  }

  /** What is not protected only gets less, and a death takes one away. */
  lemma LifeFrees(s: Store, life: Life, names: set<string>)
    requires SoundWithin(s, names) && CardWithin(life.card, names) && HasRoom(s)
    ensures Free(Left(s, life), names) <= Free(s, names)
    ensures forall n :: DiesOpening(s, life, n) ==> n in Free(s, names) - Free(Left(s, life), names)
  {
    forall n | n in names && Protected(s, n) ensures Protected(Left(s, life), n) {
      LifeProtects(s, life, names, n);
    }
    forall n | DiesOpening(s, life, n) ensures n in Free(s, names) - Free(Left(s, life), names) {
      DiesOpeningLeaves(s, life, n);
      OpenedNotListed(s, life, names, n);
      if Protected(s, n) { LifeProtects(s, life, names, n); }
    }
  }

  lemma {:induction false} DeathsAtMostFree(s: Store, h: History, names: set<string>)
    requires SoundWithin(s, names) && Within(h, names) && Roomy(s, h)
    ensures Deaths(s, h) <= |Free(s, names)|
    decreases h
  {
    if h != [] {
      var t := Left(s, h[0]);
      StaysWithin(s, h[0], names);
      LifeFrees(s, h[0], names);
      DeathsAtMostFree(t, h[1..], names);
      if n :| DiesOpening(s, h[0], n) {
        Fewer(Free(t, names), Free(s, names) - {n});
      } else {
        Fewer(Free(t, names), Free(s, names));
      }
    }
  }

  predicate SomeCompletes(s: Store, h: History)
    decreases h
  {
    h != [] && (Completes(s, h[0]) || SomeCompletes(Left(s, h[0]), h[1..]))
  }

  /** Nothing but opening a module takes the machine down. */
  ghost predicate OnlyOpeningKills(s: Store, h: History)
    decreases h
  {
    h == [] || ((Completes(s, h[0]) || exists n :: DiesOpening(s, h[0], n)) && OnlyOpeningKills(Left(s, h[0]), h[1..]))
  }

  lemma {:induction false} EveryDeathCounts(s: Store, h: History)
    requires OnlyOpeningKills(s, h) && !SomeCompletes(s, h)
    ensures Deaths(s, h) == |h|
    decreases h
  {
    if h != [] { EveryDeathCounts(Left(s, h[0]), h[1..]); }
  }

  /** A module there is no room to list takes the machine down at every start. */
  lemma {:induction false} NoRoomNoEnd(s: Store, fate: Fate, m: nat)
    requires Sound(s) && !HasRoom(s) && fate != NoCopy
    ensures var h := seq(m, _ => CrashOf(s, s.loading, fate));
            && Within(h, {s.loading}) && OnlyOpeningKills(s, h) && !SomeCompletes(s, h)
            && (m > 0 ==> Opens(s, h, s.loading))
    decreases m
  {
    if m > 0 {
      var life := CrashOf(s, s.loading, fate);
      AddedIsListed(s.blocked, s.loading);
      Crashes(s, s.loading, fate, {s.loading});
      assert Taken(s, life)[3] == Opening(s.loading);
      var t := Left(s, life);
      assert |t.blocked| == ROOM && !Fits(t.blocked, t.loading);
      NoRoomNoEnd(t, fate, m - 1);
      var h := seq(m, _ => life);
      assert h[0] == life && h[1..] == seq(m - 1, _ => life);
    }
  }

  lemma {:induction false} KillsOn(s: Store, a: History, b: History)
    requires OnlyOpeningKills(s, a) && OnlyOpeningKills(Run(s, a), b)
    ensures OnlyOpeningKills(s, a + b)
    decreases a
  {
    if a == [] {
      assert a + b == b;
    } else {
      KillsOn(Left(s, a[0]), a[1..], b);
      assert (a + b)[1..] == a[1..] + b;
      assert (a + b)[0] == a[0];
    }
  }

  lemma {:induction false} StaysDown(s: Store, a: History, b: History)
    requires !SomeCompletes(s, a) && !SomeCompletes(Run(s, a), b)
    ensures !SomeCompletes(s, a + b)
    decreases a
  {
    if a == [] {
      assert a + b == b;
    } else {
      StaysDown(Left(s, a[0]), a[1..], b);
      assert (a + b)[1..] == a[1..] + b;
    }
  }

  /** Without room for all the names, the machine can go down at every one of any number of boots. */
  lemma GoesDownForEver(s: Store, names: set<string>, m: nat) returns (h: History)
    requires SoundWithin(s, names) && !Room(s, names)
    ensures Within(h, names) && |h| >= m && OnlyOpeningKills(s, h) && !SomeCompletes(s, h) && Deaths(s, h) == |h|
  {
    var front := RunsOut(s, names);
    var t := Run(s, front);
    NoRoomNoEnd(t, GoesIn, m);
    var back := seq(m, _ => CrashOf(t, t.loading, GoesIn));
    KillsOn(s, front, back);
    StaysDown(s, front, back);
    h := front + back;
    assert forall i :: 0 <= i < |h| ==> CardWithin(h[i].card, names);
    EveryDeathCounts(s, h);
  }

  /** The machine goes down while opening a module at most once for each name, in every run of boots, exactly where
      there is room for all the names. */
  lemma DeathsAtMostNames(s: Store, names: set<string>)
    requires SoundWithin(s, names)
    ensures (forall h: History | Within(h, names) :: Deaths(s, h) <= |names|) <==> Room(s, names)
  {
    if Room(s, names) {
      forall h: History | Within(h, names) ensures Deaths(s, h) <= |names| {
        AlwaysRoomy(s, h, names);
        DeathsAtMostFree(s, h, names);
        Fewer(Free(s, names), names);
      }
    } else {
      var h := GoesDownForEver(s, names, |names| + 1);
    }
  }

  /** And of more boots than names one always gets to its end, if only opening a module takes the machine down,
      exactly where there is. */
  lemma ComesUp(s: Store, names: set<string>)
    requires SoundWithin(s, names)
    ensures (forall h: History | Within(h, names) && OnlyOpeningKills(s, h) && |h| > |names| :: SomeCompletes(s, h))
            <==> Room(s, names)
  {
    if Room(s, names) {
      forall h: History | Within(h, names) && OnlyOpeningKills(s, h) && |h| > |names| ensures SomeCompletes(s, h) {
        DeathsAtMostNames(s, names);
        if !SomeCompletes(s, h) { EveryDeathCounts(s, h); }
      }
    } else {
      var h := GoesDownForEver(s, names, |names| + 1);
    }
  }

  // -------------------------------------------------------------------- inputs that fail

  /** Two of the greatest length, crashing one after the other, are listed; and a third that crashes is in the store. */
  function ThreeCrashes(a: string, b: string, c: string): History {
    var s := Store("", "");
    var t := Store(a, "");
    var u := Store(b, a);
    [CrashOf(s, a, GoesIn), CrashOf(t, b, GoesIn), CrashOf(u, c, GoesIn)]
  }

  /** The first of them leaves the list empty, the second leaves the first name on it, and the third both. */
  lemma FirstCrash(a: string, names: set<string>)
    requires ValidName(a) && a in names
    ensures var s, life := Store("", ""), CrashOf(Store("", ""), a, GoesIn);
            && CardWithin(life.card, names) && Left(s, life) == Store(a, "")
            && forall n :: Opening(n) in Taken(s, life) ==> n in names
  {
    Crashes(Store("", ""), a, GoesIn, names);
  }

  lemma SecondCrash(a: string, b: string, names: set<string>)
    requires ValidName(a) && ValidName(b) && a != b && b in names
    ensures var t, life := Store(a, ""), CrashOf(Store(a, ""), b, GoesIn);
            && CardWithin(life.card, names) && Left(t, life) == Store(b, a)
            && forall n :: Opening(n) in Taken(t, life) ==> n in names
  {
    ListedAlone(a, b);
    assert Recovered(Store(a, "")).blocked == a;
    Crashes(Store(a, ""), b, GoesIn, names);
  }

  lemma ThirdCrash(a: string, b: string, c: string, names: set<string>)
    requires ValidName(a) && ValidName(b) && ValidName(c) && |a| == |b| == NAME_MAX && a != b && a != c && b != c
    requires c in names
    ensures var u, life := Store(b, a), CrashOf(Store(b, a), c, GoesIn);
            && CardWithin(life.card, names) && Left(u, life) == Store(c, a + " " + b)
            && forall n :: Opening(n) in Taken(u, life) ==> n in names
  {
    BothListed(a, b);
    NotListed(a, b, c);
    Crashes(Store(b, a), c, GoesIn, names);
  }

  lemma BothListed(a: string, b: string)
    requires ValidName(a) && ValidName(b) && |a| == |b| == NAME_MAX && a != b
    ensures Recovered(Store(b, a)).blocked == a + " " + b
  {
    ListedAlone(a, b);
  }

  lemma NotListed(a: string, b: string, c: string)
    requires ValidName(a) && ValidName(b) && ValidName(c) && a != c && b != c
    ensures !Listed(a + " " + b, c)
  {
    ListedAlone(a, c);
    ListedAlone(b, c);
    ListedAfter(a, b, c);
  }

  lemma ThreeCrashesLeave(a: string, b: string, c: string)
    requires ValidName(a) && ValidName(b) && ValidName(c) && |a| == |b| == NAME_MAX && a != b && a != c && b != c
    ensures var h := ThreeCrashes(a, b, c);
            && Within(h, {a, b, c}) && Run(Store("", ""), h) == Store(c, a + " " + b)
            && forall n :: Opens(Store("", ""), h, n) ==> n in {a, b, c}
  {
    var names, h := {a, b, c}, ThreeCrashes(a, b, c);
    FirstCrash(a, names);
    SecondCrash(a, b, names);
    ThirdCrash(a, b, c, names);
    RunThree(Store("", ""), h[0], h[1], h[2]);
    assert h == [h[0], h[1], h[2]];
    forall n | Opens(Store("", ""), h, n) ensures n in names {
      OpensInThree(Store("", ""), h[0], h[1], h[2], n);
    }
  }

  lemma FirstOf(s: Store, a: Life, rest: History, name: string)
    ensures Run(s, [a] + rest) == Run(Left(s, a), rest)
    ensures Opens(s, [a] + rest, name) <==> Opening(name) in Taken(s, a) || Opens(Left(s, a), rest, name)
  {
    assert ([a] + rest)[1..] == rest;
  }

  lemma RunThree(s: Store, a: Life, b: Life, c: Life)
    ensures Run(s, [a, b, c]) == Left(Left(Left(s, a), b), c)
  {
    FirstOf(s, a, [b, c], "");
    FirstOf(Left(s, a), b, [c], "");
    FirstOf(Left(Left(s, a), b), c, [], "");
    assert [a] + [b, c] == [a, b, c] && [b] + [c] == [b, c] && [c] + [] == [c];
  }

  lemma OpensInThree(s: Store, a: Life, b: Life, c: Life, name: string)
    ensures Opens(s, [a, b, c], name) ==>
              || Opening(name) in Taken(s, a) || Opening(name) in Taken(Left(s, a), b)
              || Opening(name) in Taken(Left(Left(s, a), b), c)
  {
    FirstOf(s, a, [b, c], name);
    FirstOf(Left(s, a), b, [c], name);
    FirstOf(Left(Left(s, a), b), c, [], name);
    assert [a] + [b, c] == [a, b, c] && [b] + [c] == [b, c] && [c] + [] == [c];
  }

  /** Three names of the greatest length: boots from an empty store come to where the third has no room, and there is
      then no end to it. */
  lemma ThirdLongName(a: string, b: string, c: string, m: nat)
    requires ValidName(a) && ValidName(b) && ValidName(c) && |a| == |b| == |c| == NAME_MAX && a != b && a != c && b != c
    ensures var t := Run(Store("", ""), ThreeCrashes(a, b, c));
            !HasRoom(t) && !SomeCompletes(t, seq(m, _ => CrashOf(t, c, GoesIn)))
  {
    ThreeCrashesLeave(a, b, c);
    ListedAfter(a, b, c);
    ListedAlone(a, c);
    ListedAlone(b, c);
    NoRoomNoEnd(Store(c, a + " " + b), GoesIn, m);
  }

  /** What is cut off a long name can be another's, which is then blocked though no boot ever opened it. */
  lemma NeverOpenedYetBlocked(a: string, b: string, long: string, short: string)
    requires ValidName(a) && ValidName(b) && |a| == |b| == NAME_MAX && a != b && a != long && b != long
    requires ValidName(long) && ValidName(short) && |short| == 5 < |long| && short == long[..5]
    ensures var s, h := Store("", ""), ThreeCrashes(a, b, long) + [Life([], 2)];
            Within(h, {a, b, long}) && !Opens(s, h, short) && Listed(Run(s, h).blocked, short)
  {
    var s, h, last := Store("", ""), ThreeCrashes(a, b, long), Life([], 2);
    var t := Store(long, a + " " + b);
    ThreeCrashesLeave(a, b, long);
    ListedAfter(a, b, long);
    ListedAlone(a, long);
    ListedAlone(b, long);
    AddedLists(t.blocked, long, short);
    CutRecovering(t, last);
    RunBoth(s, h, [last], short);
    assert [last][1..] == [];
    assert forall i :: 0 <= i < |h + [last]| ==> CardWithin((h + [last])[i].card, {a, b, long});
  }

  lemma {:induction false} RunBoth(s: Store, a: History, b: History, name: string)
    ensures Run(s, a + b) == Run(Run(s, a), b)
    ensures Opens(s, a + b, name) <==> Opens(s, a, name) || Opens(Run(s, a), b, name)
    decreases a
  {
    if a == [] {
      assert a + b == b;
    } else {
      RunBoth(Left(s, a[0]), a[1..], b, name);
      assert (a + b)[1..] == a[1..] + b;
    }
  }
}
