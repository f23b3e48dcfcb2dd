/** Opening native modules with a name left in the store while each is opened, so that a crash is remembered. */
module Recovery {
  import opened BlockList

  const ENTRIES_MAX: nat := 8

  // ------------------------------------------------------------ what is on the card

  /** How opening a module ends, where it ends. */
  datatype Fate = NoCopy | WillNotLoad | NotAccepted | RefusesItself | GoesIn

  /** A file: none of a module's, or without a key or a path, or a module. */
  datatype File = Other | Module(name: string, fate: Fate)

  datatype Item = Loose(file: File) | Folder(files: seq<File>)

  /** One store scope, as its listing comes. */
  type Scope = seq<Item>

  // ------------------------------------------------------------------ what happens

  datatype Key = Loading | Blocked

  datatype Step = Wrote(key: Key, text: string) | Opening(name: string) | Opened(name: string) | Closed(name: string)

  datatype Store = Store(loading: string, blocked: string)

  function Next(s: Store, step: Step): Store {
    match step
    case Wrote(Loading, text) => s.(loading := text)
    case Wrote(Blocked, text) => s.(blocked := text)
    case _ => s
  }

  function After(s: Store, steps: seq<Step>): Store {
    if steps == [] then s else Next(After(s, steps[..|steps| - 1]), steps[|steps| - 1])
  }

  /** What a module meets: closed to make way for another of its name, or opened with its name in the store. */
  datatype Block = Closing(name: string) | Attempt(name: string, fate: Fate)

  function Steps(b: Block): seq<Step> {
    match b
    case Closing(name) => [Closed(name)]
    case Attempt(name, NoCopy) => [Wrote(Loading, name), Wrote(Loading, "")]
    case Attempt(name, _) => [Wrote(Loading, name), Opening(name), Opened(name), Wrote(Loading, "")]
  }

  function Flat(blocks: seq<Block>): seq<Step> {
    if blocks == [] then [] else Flat(blocks[..|blocks| - 1]) + Steps(blocks[|blocks| - 1])
  }

  // ------------------------------------------------------------- walking the card

  datatype Trouble = Fine | Faulted | Failed(fate: Fate)

  datatype Entry = Entry(name: string, trouble: Trouble, isOpen: bool)

  /** Which entry has the name; the next free one where none has. */
  function Slot(entries: seq<Entry>, name: string): (i: nat)
    ensures i <= |entries| && (i < |entries| ==> entries[i].name == name)
    ensures forall k :: 0 <= k < i ==> entries[k].name != name
  {
    if entries == [] || entries[0].name == name then 0 else 1 + Slot(entries[1..], name)
  }

  function Put(entries: seq<Entry>, i: nat, e: Entry): seq<Entry>
    requires i <= |entries|
  {
    if i == |entries| then entries + [e] else entries[i := e]
  }

  /** A walk so far: the entries, what was met, how many it says it loaded, and whether to go on. */
  datatype Walk = Walk(entries: seq<Entry>, met: seq<Block>, loaded: nat, goes: bool)

  /** What a module meets whose entry is open already or not. */
  function MetBy(list: string, isOpen: bool, f: File): seq<Block>
    requires f.Module?
  {
    (if isOpen then [Closing(f.name)] else []) + (if Listed(list, f.name) then [] else [Attempt(f.name, f.fate)])
  }

  /** What its entry says afterwards. */
  function Settled(list: string, f: File): Entry
    requires f.Module?
  {
    if Listed(list, f.name) then Entry(f.name, Faulted, false)
    else Entry(f.name, if f.fate.GoesIn? then Fine else Failed(f.fate), f.fate.GoesIn?)
  }

  function WalkedFile(list: string, w: Walk, f: File): Walk {
    if f.Other? then w
    else
      var i := Slot(w.entries, f.name);
      if i == |w.entries| >= ENTRIES_MAX then w.(goes := false)
      else
        w.(entries := Put(w.entries, i, Settled(list, f)),
           met := w.met + MetBy(list, i < |w.entries| && w.entries[i].isOpen, f),
           loaded := w.loaded + if Settled(list, f).isOpen then 1 else 0)
  }

  function WalkedFiles(list: string, w: Walk, files: seq<File>): Walk
    decreases files
  {
    if files == [] || !w.goes then w else WalkedFiles(list, WalkedFile(list, w, files[0]), files[1..])
  }

  /** A folder starts from the count of the walk it is in, and then adds its own to it. */
  function WalkedItem(list: string, w: Walk, item: Item): Walk {
    match item
    case Loose(f) => WalkedFile(list, w, f)
    case Folder(files) =>
      var inside := WalkedFiles(list, w, files);
      inside.(loaded := w.loaded + inside.loaded, goes := true)
  }

  function WalkedScope(list: string, w: Walk, scope: Scope): Walk
    decreases scope
  {
    if scope == [] || !w.goes then w else WalkedScope(list, WalkedItem(list, w, scope[0]), scope[1..])
  }

  /** Each scope in turn, a later one replacing what an earlier one opened. */
  function WalkedCard(list: string, w: Walk, card: seq<Scope>): Walk
    decreases card
  {
    if card == [] then w
    else WalkedCard(list, WalkedScope(list, w.(loaded := 0, goes := true), card[0]), card[1..])
  }

  // ------------------------------------------------------------------- one boot

  /** Every name in the store is a name, and the list is no longer than its buffer. */
  predicate Sound(s: Store) {
    (s.loading == "" || ValidName(s.loading)) && |s.blocked| <= ROOM
  }

  function RecoverSteps(s: Store): seq<Step> {
    if s.loading == "" then [] else [Wrote(Blocked, Added(s.blocked, s.loading)), Wrote(Loading, "")]
  }

  function Recovered(s: Store): (t: Store)
    ensures Sound(s) ==> Sound(t)
  {
    Store("", if s.loading == "" then s.blocked else Added(s.blocked, s.loading))
  }

  const NONE: Walk := Walk([], [], 0, true)

  function Met(s: Store, card: seq<Scope>): seq<Block> {
    WalkedCard(Recovered(s).blocked, NONE, card).met
  }

  /** Everything a boot does that can be cut short. */
  function Boot(s: Store, card: seq<Scope>): seq<Step> {
    BootCovered(s, card, 3)
  }

  /** The same under covers, which are taken off by a lemma where it matters what a boot does. */
  function BootCovered(s: Store, card: seq<Scope>, covers: nat): seq<Step>
    decreases covers, card
  {
    if covers > 0 then BootCovered(s, card, covers - 1) else RecoverSteps(s) + Flat(Met(s, card))
  }

  lemma OpenBoot(s: Store, card: seq<Scope>)
    ensures Boot(s, card) == RecoverSteps(s) + Flat(Met(s, card))
  {
    assert BootCovered(s, card, 1) == BootCovered(s, card, 0);
    assert BootCovered(s, card, 2) == BootCovered(s, card, 1);
  }

  // ---------------------------------------------------------------- the shell does it

  lemma {:induction false} AfterBoth(s: Store, a: seq<Step>, b: seq<Step>)
    ensures After(s, a + b) == After(After(s, a), b)
  {
    if b == [] {
      assert a + b == a;
    } else {
      assert (a + b)[..|a + b| - 1] == a + b[..|b| - 1];
      AfterBoth(s, a, b[..|b| - 1]);
    }
  }

  lemma FlatMore(a: seq<Block>, front: seq<Block>)
    requires a != [] && front == a[..|a| - 1]
    ensures Flat(a) == Flat(front) + Steps(a[|a| - 1])
  {
  }

  lemma {:induction false} FlatBoth(a: seq<Block>, b: seq<Block>)
    ensures Flat(a + b) == Flat(a) + Flat(b)
  {
    if b == [] {
      assert a + b == a;
    } else {
      var front, last := b[..|b| - 1], b[|b| - 1];
      assert (a + b)[..|a + b| - 1] == a + front && (a + b)[|a + b| - 1] == last;
      FlatBoth(a, front);
      FlatMore(b, front);
      FlatMore(a + b, a + front);
      Regrouped(Flat(a), Flat(front), Steps(last));
    }
  }

  lemma AttemptSteps(before: seq<Step>, name: string, fate: Fate)
    ensures before + [Wrote(Loading, name)]
            + (if fate == NoCopy then [] else [Opening(name), Opened(name)]) + [Wrote(Loading, "")]
            == before + Steps(Attempt(name, fate))
  {
  }

  class Natives {
    // What the store keeps, where every write goes through; nothing here looks whether one does
    var loading: string
    var blocked: string
    // What the shell keeps
    var list: string
    var faulted: string
    var entries: seq<Entry>
    ghost const born: Store
    ghost var trace: seq<Step>

    constructor (s: Store)
      ensures born == s && trace == [] && loading == s.loading && blocked == s.blocked
      ensures list == "" && faulted == "" && entries == []
    {
      born, trace, loading, blocked := s, [], s.loading, s.blocked;
      list, faulted, entries := "", "", [];
    }

    /** What the store holds is what the steps so far leave in it. */
    ghost predicate Valid()
      reads this
    {
      Store(loading, blocked) == After(born, trace)
    }

    method WriteLoading(text: string)
      requires Valid()
      modifies `loading, `trace
      ensures Valid() && loading == text && trace == old(trace) + [Wrote(Loading, text)]
    {
      loading := text;
      trace := trace + [Wrote(Loading, text)];
    }

    method WriteBlocked(text: string)
      requires Valid()
      modifies `blocked, `trace
      ensures Valid() && blocked == text && trace == old(trace) + [Wrote(Blocked, text)]
    {
      blocked := text;
      trace := trace + [Wrote(Blocked, text)];
    }

    /** A name found in the store is of a module that did not come back: on to the list with it. */
    method Recover() returns (faultedNow: bool)
      requires Valid() && Sound(Store(loading, blocked))
      modifies this
      ensures Valid() && Store(loading, blocked) == Recovered(old(Store(loading, blocked))) && list == blocked
      ensures trace == old(trace) + RecoverSteps(old(Store(loading, blocked)))
      ensures entries == old(entries) && (faultedNow <==> old(loading) != "")
      ensures faulted == if faultedNow then old(loading) else old(faulted)
    {
      list := blocked;
      var crumb := loading;
      if crumb == "" {
        return false;
      }
      list := Added(list, crumb);
      WriteBlocked(list);
      WriteLoading("");
      faulted := crumb;
      return true;
    }

    method Unblock()
      requires Valid()
      modifies this
      ensures Valid() && list == "" && faulted == "" && blocked == "" && loading == old(loading)
      ensures entries == old(entries) && trace == old(trace) + [Wrote(Blocked, "")]
    {
      list := "";
      faulted := "";
      WriteBlocked("");
    }

    /** The shell is where a walk on values is, having taken the steps of what that met. */
    ghost predicate IsAt(w: Walk, before: seq<Step>)
      reads this
    {
      Valid() && loading == "" && entries == w.entries && trace == before + Flat(w.met)
    }

    /** The module's own code runs here, and may never come back. */
    method Open(name: string)
      requires Valid()
      modifies `trace
      ensures Valid() && trace == old(trace) + [Opening(name), Opened(name)]
    {
      trace := trace + [Opening(name)];
      trace := trace + [Opened(name)];
    }

    method Release(i: nat)
      requires Valid() && i < |entries|
      modifies `entries, `trace
      ensures Valid()
      ensures trace == old(trace) + if old(entries)[i].isOpen then [Closed(old(entries)[i].name)] else []
      ensures entries == old(entries)[i := Entry(old(entries)[i].name, Fine, false)]
    {
      if entries[i].isOpen {
        trace := trace + [Closed(entries[i].name)];
      }
      entries := entries[i := Entry(entries[i].name, Fine, false)];
    }

    /** The name is in the store for as long as the module could take the machine with it. */
    method TryOpening(i: nat, f: File) returns (isIn: bool)
      requires Valid() && i < |entries| && f.Module? && entries[i] == Entry(f.name, Fine, false) && loading == ""
      modifies `entries, `trace, `loading
      ensures Valid() && loading == "" && isIn == f.fate.GoesIn?
      ensures trace == old(trace) + Steps(Attempt(f.name, f.fate))
      ensures entries == old(entries)[i := Entry(f.name, if isIn then Fine else Failed(f.fate), isIn)]
    {
      ghost var before := trace;
      AttemptSteps(before, f.name, f.fate);
      WriteLoading(f.name);
      if f.fate != NoCopy {
        Open(f.name);
      }
      if f.fate != GoesIn {
        entries := entries[i := Entry(f.name, Failed(f.fate), false)];
        WriteLoading("");
        return false;
      }
      WriteLoading("");
      entries := entries[i := Entry(f.name, Fine, true)];
      return true;
    }

    method FindSlot(name: string) returns (i: nat)
      ensures i == Slot(entries, name)
    {
      i := 0;
      while i < |entries|
        invariant i <= |entries| && Slot(entries, name) == i + Slot(entries[i..], name)
      {
        if entries[i].name == name {
          return;
        }
        assert entries[i..][1..] == entries[i + 1..];
        i := i + 1;
      }
    }

    /** The entry for a name, a new one if there is none and there is room. */
    method SlotFor(name: string) returns (i: nat)
      modifies `entries
      ensures i == Slot(old(entries), name)
      ensures entries == if i < |old(entries)| || i >= ENTRIES_MAX then old(entries)
                         else old(entries) + [Entry(name, Fine, false)]
    {
      i := FindSlot(name);
      if i == |entries| && |entries| < ENTRIES_MAX {
        entries := entries + [Entry(name, Fine, false)];
      }
    }

    /** Close what the entry had open, and open the module unless it is blocked. */
    method LoadInto(i: nat, f: File) returns (isIn: bool)
      requires Valid() && loading == "" && i < |entries| && f.Module? && entries[i].name == f.name
      modifies `entries, `trace, `loading
      ensures Valid() && loading == "" && isIn == (!Listed(list, f.name) && f.fate.GoesIn?)
      ensures entries == old(entries)[i := Settled(list, f)]
      ensures trace == old(trace) + Flat(MetBy(list, old(entries)[i].isOpen, f))
    {
      MetSteps(list, entries[i].isOpen, f, trace);
      Release(i);
      var no := IsListed(list, f.name);
      if no {
        entries := entries[i := Entry(f.name, Faulted, false)];
        return false;
      }
      isIn := TryOpening(i, f);
    }

    /** Load into the slot found for a module. */
    method LoadAt(i: nat, f: File, ghost w: Walk, ghost before: seq<Step>) returns (isIn: bool)
      requires Valid() && loading == "" && f.Module? && i == Slot(w.entries, f.name) < |entries|
      requires trace == before + Flat(w.met)
      requires entries == if i < |w.entries| then w.entries else w.entries + [Entry(f.name, Fine, false)]
      modifies `entries, `trace, `loading
      ensures Valid() && loading == "" && isIn == Settled(list, f).isOpen
      ensures entries == Put(w.entries, i, Settled(list, f))
      ensures trace == before + Flat(w.met + MetBy(list, i < |w.entries| && w.entries[i].isOpen, f))
    {
      ghost var met := MetBy(list, i < |w.entries| && w.entries[i].isOpen, f);
      isIn := LoadInto(i, f);
      FlatBoth(w.met, met);
      Regrouped(before, Flat(w.met), Flat(met));
    }

    /** One file of a listing. False where there is no room for another module. */
    method LoadFile(f: File, loaded: nat, ghost w: Walk, ghost before: seq<Step>) returns (goes: bool, now: nat)
      requires IsAt(w, before) && w.goes && w.loaded == loaded
      modifies `entries, `trace, `loading
      ensures var v := WalkedFile(list, w, f); IsAt(v, before) && goes == v.goes && now == v.loaded
    {
      goes, now := true, loaded;
      if f == Other {
        return;
      }
      var i := SlotFor(f.name);
      if i == |entries| {
        return false, loaded;
      }
      var isIn := LoadAt(i, f, w, before);
      now := if isIn then loaded + 1 else loaded;
    }

    method LoadFiles(files: seq<File>, loaded: nat, ghost w: Walk, ghost before: seq<Step>)
      returns (now: nat, ghost v: Walk)
      requires IsAt(w, before) && w.goes && w.loaded == loaded
      modifies `entries, `trace, `loading
      ensures v == WalkedFiles(list, w, files) && IsAt(v, before) && now == v.loaded
    {
      now, v := loaded, w;
      var k, goes := 0, true;
      while k < |files| && goes
        invariant k <= |files| && IsAt(v, before) && now == v.loaded && goes == v.goes
        invariant WalkedFiles(list, w, files) == WalkedFiles(list, v, files[k..])
      {
        goes, now := LoadFile(files[k], now, v, before);
        v := WalkedFile(list, v, files[k]);
        assert files[k..][1..] == files[k + 1..];
        k := k + 1;
      }
    }

    /** One scope: loose modules, and the modules inside each app's folder. */
    method Load(scope: Scope, ghost w: Walk, ghost before: seq<Step>) returns (loaded: nat, ghost v: Walk)
      requires IsAt(w, before) && w.goes && w.loaded == 0
      modifies `entries, `trace, `loading
      ensures v == WalkedScope(list, w, scope) && IsAt(v, before) && loaded == v.loaded
    {
      loaded, v := 0, w;
      var k, goes := 0, true;
      while k < |scope| && goes
        invariant k <= |scope| && IsAt(v, before) && loaded == v.loaded && goes == v.goes
        invariant WalkedScope(list, w, scope) == WalkedScope(list, v, scope[k..])
      {
        ghost var u := WalkedItem(list, v, scope[k]);
        match scope[k] {
          case Loose(f) =>
            goes, loaded := LoadFile(f, loaded, v, before);
          case Folder(files) =>
            var inside, _ := LoadFiles(files, loaded, v, before);
            loaded := loaded + inside;
        }
        v := u;
        assert scope[k..][1..] == scope[k + 1..];
        k := k + 1;
      }
    }

    /** What happens at every start: block what faulted, then load every scope, nearest last. */
    method Start(card: seq<Scope>) returns (faultedNow: bool)
      requires Valid() && trace == [] && entries == [] && Sound(born)
      modifies this
      ensures Valid() && trace == Boot(born, card) && loading == "" && list == Recovered(born).blocked
      ensures entries == WalkedCard(list, NONE, card).entries
      ensures faultedNow <==> born.loading != ""
    {
      faultedNow := Recover();
      ghost var v, before := NONE, RecoverSteps(born);
      var k := 0;
      while k < |card|
        invariant k <= |card| && list == Recovered(born).blocked && IsAt(v, before)
        invariant WalkedCard(list, NONE, card) == WalkedCard(list, v, card[k..])
      {
        var _, u := Load(card[k], v.(loaded := 0, goes := true), before);
        v := u;
        assert card[k..][1..] == card[k + 1..];
        k := k + 1;
      }
      OpenBoot(born, card);
    }
  }

  lemma Regrouped(a: seq<Step>, b: seq<Step>, c: seq<Step>)
    ensures a + b + c == a + (b + c)
  {
  }

  lemma MetSteps(list: string, wasOpen: bool, f: File, before: seq<Step>)
    requires f.Module?
    ensures var closed := if wasOpen then [Closed(f.name)] else [];
            before + Flat(MetBy(list, wasOpen, f))
            == before + closed + if Listed(list, f.name) then [] else Steps(Attempt(f.name, f.fate))
  {
    var closing := if wasOpen then [Closing(f.name)] else [];
    FlatOne([], closing, before);
    FlatOne(closing, [Attempt(f.name, f.fate)], before);
  }

  lemma FlatOne(met: seq<Block>, more: seq<Block>, before: seq<Step>)
    requires |more| <= 1
    ensures before + Flat(met + more) == before + Flat(met) + (if more == [] then [] else Steps(more[0]))
  {
    if more == [] {
      assert met + more == met;
    } else {
      assert (met + more)[..|met|] == met;
    }
  }
}
