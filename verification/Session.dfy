/** The stack written to the store value by value, and pushed back from it. */
module Session {
  import opened Basics
  import opened Codec

  const SESSION_MAX: nat := 64

  /** What can be on the stack. A complex number is a pointer into the numbers there are; any other is only an
      address, and has no encoding. */
  datatype Element =
    | Whole(i: Int64)
    | Real(f: Word)
    | Str(s: seq<Byte>)
    | Imaginary(re: Word, im: Word)
    | Pointer(address: Word)
    | Decimal(text: seq<Byte>)

  /** The entries the session has: how many values there are, each of them, and how many were left behind. */
  datatype Key = Count | Nth(i: nat) | Lost

  type Entries = map<Key, seq<Byte>>

  /** How saving or restoring ends. */
  datatype Result = Fine | NotFound | IoError

  predicate Encodable(e: Element) {
    !e.Pointer?
  }

  function Encoding(e: Element): Value
    requires Encodable(e)
  {
    match e
    case Whole(i) => Int(i)
    case Real(f) => Float(f)
    case Str(s) => Text(Clipped(s))
    case Imaginary(re, im) => Complex(re, im)
    case Decimal(text) => D128(Clipped(text))
  }

  /** How many from the bottom have an encoding. */
  function Savable(st: seq<Element>): (n: nat)
    ensures n <= |st| && (forall i :: 0 <= i < n ==> Encodable(st[i])) && (n < |st| ==> !Encodable(st[n]))
  {
    if st == [] || !Encodable(st[0]) then 0 else 1 + Savable(st[1..])
  }

  /** The values a session keeps: of the first sixty-four, as many from the bottom as have an encoding. */
  function Prefix(st: seq<Element>): (p: seq<Element>)
    ensures forall i :: 0 <= i < |p| ==> Encodable(p[i])
  {
    st[..Savable(st[..Least(|st|, SESSION_MAX)])]
  }

  // ------------------------------------------------------------------------- saving

  function Put(entries: Entries, key: Key, v: Value): Entries {
    entries[key := Record(v)]
  }

  function Written(entries: Entries, p: seq<Element>): Entries
    requires forall i :: 0 <= i < |p| ==> Encodable(p[i])
  {
    if p == [] then entries
    else Put(Written(entries, p[..|p| - 1]), Nth(|p| - 1), Encoding(p[|p| - 1]))
  }

  function Saved(entries: Entries, st: seq<Element>): Entries {
    var p, wanted := Prefix(st), Least(|st|, SESSION_MAX);
    var all := Written(Put(entries, Count, Int(|p|)), p);
    Put(all, Lost, LostValue(|p|, wanted))
  }

  function LostValue(saved: nat, wanted: nat): Value
    requires saved <= wanted <= SESSION_MAX
  {
    if saved < wanted then Int(wanted - saved) else Empty
  }

  /** Which of the writes of one save go through. */
  type Writes = Key -> bool

  /** How many values are written before a write fails, or all of them. */
  function Reached(writes: Writes, n: nat): (k: nat)
    ensures k <= n && (forall i :: 0 <= i < k ==> writes(Nth(i))) && (k < n ==> !writes(Nth(k)))
  {
    if n == 0 then 0
    else
      var k := Reached(writes, n - 1);
      if k == n - 1 && writes(Nth(k)) then n else k
  }

  /** What a save leaves, and how it ends: at the first write to fail, unless that is the last of all. */
  function SavedWith(entries: Entries, st: seq<Element>, writes: Writes): (Entries, Result) {
    var p, wanted := Prefix(st), Least(|st|, SESSION_MAX);
    var begun := Put(entries, Count, Int(|p|));
    var k := Reached(writes, |p|);
    if !writes(Count) then (entries, IoError)
    else if k < |p| then (Written(begun, p[..k]), IoError)
    else if !writes(Lost) then (Written(begun, p), Fine)
    else (Saved(entries, st), Fine)
  }

  method CountSavable(st: seq<Element>) returns (saved: nat)
    ensures saved == Savable(st)
  {
    saved := 0;
    while saved < |st| && Encodable(st[saved])
      invariant saved <= |st| && Savable(st) == saved + Savable(st[saved..])
    {
      assert st[saved..][1..] == st[saved + 1..];
      saved := saved + 1;
    }
  }

  lemma PrefixIs(st: seq<Element>, wanted: nat, saved: nat)
    requires wanted == Least(|st|, SESSION_MAX) && saved == Savable(st[..wanted])
    ensures st[..saved] == Prefix(st) && |Prefix(st)| == saved
  {
  }

  lemma WholeFront(p: seq<Element>)
    ensures p[..|p|] == p
  {
  }

  class Store {
    var entries: Entries

    constructor (e: Entries)
      ensures entries == e
    {
      entries := e;
    }

    /** Kept as it was where the write fails. */
    method Save(key: Key, v: Value, goes: bool) returns (ok: bool)
      modifies this
      ensures ok == goes && entries == if goes then Put(old(entries), key, v) else old(entries)
    {
      var buf := new Byte[HEADER + STRING_MAX](_ => 0);
      var len := Encode(v, buf);
      if goes {
        entries := entries[key := buf[..len]];
      }
      return goes;
    }

    method Load(key: Key) returns (v: Option<Value>)
      ensures v == if key in entries then Decoded(entries[key]) else None
    {
      if key !in entries {
        return None;
      }
      v := Decode(entries[key]);
    }

    method Erase(key: Key, goes: bool)
      modifies this
      ensures entries == if goes then Put(old(entries), key, Empty) else old(entries)
    {
      var ok := Save(key, Empty, goes);
    }

    /** From the bottom of the stack up, which is how they are to be pushed again. */
    method SaveAll(p: seq<Element>, writes: Writes) returns (ok: bool)
      requires forall i :: 0 <= i < |p| ==> Encodable(p[i])
      modifies this
      ensures var k := Reached(writes, |p|); ok == (k == |p|) && entries == Written(old(entries), p[..k])
    {
      for i := 0 to |p|
        invariant Reached(writes, i) == i
        invariant entries == Written(old(entries), p[..i])
      {
        assert p[..i + 1][..i] == p[..i];
        var put := Save(Nth(i), Encoding(p[i]), writes(Nth(i)));
        if !put {
          StopsThere(writes, i, |p|);
          return false;
        }
      }
      return true;
    }

    /** Whether this goes through is not looked at. */
    method SaveLost(saved: nat, wanted: nat, goes: bool)
      requires saved <= wanted <= SESSION_MAX
      modifies this
      ensures entries == if goes then Put(old(entries), Lost, LostValue(saved, wanted)) else old(entries)
    {
      if saved < wanted {
        var ok := Save(Lost, Int(wanted - saved), goes);
      } else {
        Erase(Lost, goes);
      }
    }

    method SaveSession(st: seq<Element>, writes: Writes) returns (result: Result)
      modifies this
      ensures (entries, result) == SavedWith(old(entries), st, writes)
    {
      var wanted := Least(|st|, SESSION_MAX);
      var saved := CountSavable(st[..wanted]);
      PrefixIs(st, wanted, saved);
      var header := Save(Count, Int(saved), writes(Count));
      if !header {
        return IoError;
      }
      var all := SaveAll(st[..saved], writes);
      if !all {
        return IoError;
      }
      WholeFront(st[..saved]);
      SaveLost(saved, wanted, writes(Lost));
      return Fine;
    }

    /** What the entries say did not fit when they were written. */
    method SessionLost() returns (n: nat)
      ensures n == LostIn(entries)
    {
      var v := Load(Lost);
      if v.None? {
        return 0;
      }
      return if v.value.Int? && v.value.i > 0 then v.value.i else 0;
    }
  }

  function LostIn(entries: Entries): nat {
    if Lost !in entries then 0
    else match Decoded(entries[Lost])
      case Some(Int(i)) => if i > 0 then i else 0
      case _ => 0
  }

  lemma {:induction false} StopsThere(writes: Writes, k: nat, n: nat)
    requires k < n && Reached(writes, k) == k && !writes(Nth(k))
    ensures Reached(writes, n) == k
    decreases n
  {
    if k + 1 < n { StopsThere(writes, k, n - 1); }
  }

  // ----------------------------------------------------------------------- restoring

  /** What is pushed from one entry on, and how it ends. A decimal is read by the runtime from its text. */
  function Restored(entries: Entries, parses: seq<Byte> -> bool, i: nat, count: nat): (seq<Element>, Result)
    requires i <= count
    decreases count - i
  {
    if i == count then ([], Fine)
    else
      match if Nth(i) in entries then Decoded(entries[Nth(i)]) else None
      case None => ([], IoError)
      case Some(Empty) => ([], Fine)
      case Some(D128(s)) =>
        if !parses(s) then ([], IoError) else Before(Decimal(s), Restored(entries, parses, i + 1, count))
      case Some(v) => Before(Pushed(v), Restored(entries, parses, i + 1, count))
  }

  function Before(e: Element, rest: (seq<Element>, Result)): (seq<Element>, Result) {
    ([e] + rest.0, rest.1)
  }

  function Pushed(v: Value): Element
    requires !v.Empty?
  {
    match v
    case Int(i) => Whole(i)
    case Float(f) => Real(f)
    case Text(s) => Str(s)
    case Complex(re, im) => Imaginary(re, im)
    case D128(s) => Decimal(s)
  }

  function RestoredSession(entries: Entries, parses: seq<Byte> -> bool): (seq<Element>, Result) {
    if Count !in entries then ([], NotFound)
    else match Decoded(entries[Count])
      case Some(Int(n)) => if 0 <= n <= SESSION_MAX then Restored(entries, parses, 0, n) else ([], NotFound)
      case _ => ([], NotFound)
  }

  class Interpreter {
    var stack: seq<Element>

    constructor ()
      ensures stack == []
    {
      stack := [];
    }

    method Push(e: Element)
      modifies this
      ensures stack == old(stack) + [e]
    {
      stack := stack + [e];
    }

    method RestoreSession(store: Store, parses: seq<Byte> -> bool) returns (result: Result)
      modifies this
      ensures var r := RestoredSession(store.entries, parses); stack == old(stack) + r.0 && result == r.1
    {
      var header := store.Load(Count);
      if header.None? || !header.value.Int? || !(0 <= header.value.i <= SESSION_MAX) {
        return NotFound;
      }
      var n: nat := header.value.i;
      ghost var all := Restored(store.entries, parses, 0, n);
      for i := 0 to n
        invariant store.entries == old(store.entries)
        invariant var rest := Restored(store.entries, parses, i, n);
                  old(stack) + all.0 == stack + rest.0 && all.1 == rest.1
      {
        ghost var rest := Restored(store.entries, parses, i, n);
        var v := store.Load(Nth(i));
        if v.None? {
          return IoError;
        }
        if v.value.Empty? {
          return Fine;
        }
        if v.value.D128? && !parses(v.value.s) {
          return IoError;
        }
        Push(Pushed(v.value));
        Along(stack, Pushed(v.value), Restored(store.entries, parses, i + 1, n).0);
      }
      return Fine;
    }
  }

  lemma Along(s: seq<Element>, e: Element, rest: seq<Element>)
    requires s != [] && s[|s| - 1] == e
    ensures s[..|s| - 1] + ([e] + rest) == s + rest
  {
  }

  // -------------------------------------------------------------- there and back

  lemma {:induction false} WrittenHas(entries: Entries, p: seq<Element>, key: Key)
    requires forall i :: 0 <= i < |p| ==> Encodable(p[i])
    ensures key.Nth? && key.i < |p| ==>
              key in Written(entries, p) && Written(entries, p)[key] == Record(Encoding(p[key.i]))
    ensures !(key.Nth? && key.i < |p|) ==>
              && (key in Written(entries, p) <==> key in entries)
              && (key in entries ==> Written(entries, p)[key] == entries[key])
  {
    if p != [] { WrittenHas(entries, p[..|p| - 1], key); }
  }

  lemma SavedHas(entries: Entries, st: seq<Element>, i: nat)
    requires i < |Prefix(st)|
    ensures Nth(i) in Saved(entries, st) && Saved(entries, st)[Nth(i)] == Record(Encoding(Prefix(st)[i]))
  {
    WrittenHas(Put(entries, Count, Int(|Prefix(st)|)), Prefix(st), Nth(i));
  }

  lemma ClippedTwice(s: seq<Byte>)
    ensures Clipped(Clipped(s)) == Clipped(s)
  {
    NoNought(Clipped(s));
  }

  /** What is pushed of an element: itself, but for what a string has beyond its buffer. */
  function Back(e: Element): Element
    requires Encodable(e)
  {
    match e
    case Str(s) => Str(Clipped(s))
    case Decimal(text) => Decimal(Clipped(text))
    case _ => e
  }

  function AllBack(p: seq<Element>): (b: seq<Element>)
    requires forall i :: 0 <= i < |p| ==> Encodable(p[i])
  {
    seq(|p|, i requires 0 <= i < |p| => Back(p[i]))
  }

  predicate AllParse(p: seq<Element>, parses: seq<Byte> -> bool) {
    forall i :: 0 <= i < |p| && p[i].Decimal? ==> parses(Clipped(p[i].text))
  }

  lemma RestoredOne(entries: Entries, parses: seq<Byte> -> bool, i: nat, count: nat, e: Element)
    requires i < count && Encodable(e) && (e.Decimal? ==> parses(Clipped(e.text)))
    requires Nth(i) in entries && entries[Nth(i)] == Record(Encoding(e))
    ensures Restored(entries, parses, i, count) == Before(Back(e), Restored(entries, parses, i + 1, count))
  {
    var v := Encoding(e);
    RoundTrip(v);
    if e.Str? { ClippedTwice(e.s); }
    if e.Decimal? { ClippedTwice(e.text); }
    assert Decoded(entries[Nth(i)]) == Some(v) && !v.Empty?;
  }

  lemma {:induction false} RestoredFrom(entries: Entries, p: seq<Element>, parses: seq<Byte> -> bool, i: nat)
    requires (forall k :: 0 <= k < |p| ==> Encodable(p[k])) && AllParse(p, parses) && i <= |p|
    requires forall k :: 0 <= k < |p| ==> Nth(k) in entries && entries[Nth(k)] == Record(Encoding(p[k]))
    ensures Restored(entries, parses, i, |p|) == (AllBack(p)[i..], Fine)
    decreases |p| - i
  {
    if i == |p| {
      assert AllBack(p)[i..] == [];
    } else {
      RestoredFrom(entries, p, parses, i + 1);
      RestoredOne(entries, parses, i, |p|, p[i]);
      AllBackFrom(p, i);
    }
  }

  lemma AllBackFrom(p: seq<Element>, i: nat)
    requires (forall k :: 0 <= k < |p| ==> Encodable(p[k])) && i < |p|
    ensures AllBack(p)[i..] == [Back(p[i])] + AllBack(p)[i + 1..]
  {
  }

  /** Whatever was in the store before, what is restored is the longest prefix that has an encoding, of the first
      sixty-four values, with strings as long as their buffer lets them be. */
  lemma SaveThenRestore(entries: Entries, st: seq<Element>, parses: seq<Byte> -> bool)
    requires AllParse(Prefix(st), parses)
    ensures RestoredSession(Saved(entries, st), parses) == (AllBack(Prefix(st)), Fine)
  {
    var p := Prefix(st);
    WrittenHas(Put(entries, Count, Int(|p|)), p, Count);
    RoundTrip(Int(|p|));
    forall i | 0 <= i < |p|
      ensures Nth(i) in Saved(entries, st) && Saved(entries, st)[Nth(i)] == Record(Encoding(p[i]))
    {
      SavedHas(entries, st, i);
    }
    RestoredFrom(Saved(entries, st), p, parses, 0);
    assert AllBack(p)[0..] == AllBack(p);
  }

  /** No longer prefix would do, and what is saved and what is lost make up the values there were. */
  lemma LongestAndTheRest(entries: Entries, st: seq<Element>)
    ensures var p, wanted := Prefix(st), Least(|st|, 64);
            && p == st[..|p|] && |p| <= wanted && (|p| < wanted ==> !Encodable(st[|p|]))
            && |p| + LostIn(Saved(entries, st)) == wanted
  {
    var p, wanted := Prefix(st), Least(|st|, 64);
    RoundTrip(LostValue(|p|, wanted));
  }

  /** What each entry holds: how many values there are, each by its kind, and how many were left behind. */
  lemma EntriesSaved(entries: Entries, st: seq<Element>, i: nat)
    requires i < |Prefix(st)|
    ensures var saved, p, n := Saved(entries, st), Prefix(st), Least(|st|, 64);
            && Count in saved && saved[Count] == Record(Int(|p|))
            && Lost in saved && saved[Lost] == Record(if |p| < n then Int(n - |p|) else Empty)
            && Nth(i) in saved
            && saved[Nth(i)] == Record(match p[i]
                                       case Whole(n) => Int(n)
                                       case Real(f) => Float(f)
                                       case Str(s) => Text(s)
                                       case Imaginary(re, im) => Complex(re, im)
                                       case Pointer(_) => Empty
                                       case Decimal(text) => D128(text))
  {
    var p := Prefix(st);
    SavedHas(entries, st, i);
    WrittenHas(Put(entries, Count, Int(|p|)), p, Count);
    if p[i].Str? { SameClipped(p[i].s); }
    if p[i].Decimal? { SameClipped(p[i].text); }
  }

  lemma SameClipped(s: seq<Byte>)
    ensures Record(Text(Clipped(s))) == Record(Text(s)) && Record(D128(Clipped(s))) == Record(D128(s))
  {
    ClippedTwice(s);
  }

  /** Where how many there are is not written, nothing is, and that is an error. */
  lemma CountNotWritten(entries: Entries, st: seq<Element>, writes: Writes)
    requires !writes(Count)
    ensures SavedWith(entries, st, writes) == (entries, IoError)
  {
  }

  /** Where only how many were left behind is not, it is none, and what was left behind before is still said. */
  lemma LostNotWritten(entries: Entries, st: seq<Element>, writes: Writes, parses: seq<Byte> -> bool)
    requires writes(Count) && !writes(Lost) && forall i :: 0 <= i < |Prefix(st)| ==> writes(Nth(i))
    requires AllParse(Prefix(st), parses)
    ensures SavedWith(entries, st, writes).1 == Fine
    ensures LostIn(SavedWith(entries, st, writes).0) == LostIn(entries)
    ensures RestoredSession(SavedWith(entries, st, writes).0, parses) == (AllBack(Prefix(st)), Fine)
  {
    var left, p := SavedWith(entries, st, writes).0, Prefix(st);
    WrittenHas(Put(entries, Count, Int(|p|)), p, Lost);
    SaveThenRestore(entries, st, parses);
    WrittenHas(Put(entries, Count, Int(|p|)), p, Count);
    RoundTrip(Int(|p|));
    RestoredSame(left, Saved(entries, st), parses, 0, |p|);
  }

  /** What a number of values left behind is read as: none where there is none, or no number, or none of it. */
  lemma LostRead(entries: Entries, v: Value)
    ensures Lost !in entries ==> LostIn(entries) == 0
    ensures Lost in entries && entries[Lost] == Record(v) ==> LostIn(entries) == if v.Int? && v.i > 0 then v.i else 0
  {
    RoundTrip(v);
  }

  /** Restoring stops at an entry that is missing or damaged, or is a decimal that will not parse, with an error, and
      at an empty one without. */
  lemma StopsAt(entries: Entries, parses: seq<Byte> -> bool, k: nat, count: nat, s: seq<Byte>)
    requires k < count
    ensures Nth(k) !in entries || Decoded(entries[Nth(k)]).None? ==>
              Restored(entries, parses, k, count) == ([], IoError)
    ensures Nth(k) in entries && Decoded(entries[Nth(k)]) == Some(D128(s)) && !parses(s) ==>
              Restored(entries, parses, k, count) == ([], IoError)
    ensures Nth(k) in entries && Decoded(entries[Nth(k)]) == Some(Empty) ==>
              Restored(entries, parses, k, count) == ([], Fine)
  {
  }

  lemma {:induction false} NeverNotFound(entries: Entries, parses: seq<Byte> -> bool, i: nat, count: nat)
    requires i <= count
    ensures Restored(entries, parses, i, count).1 != NotFound
    decreases count - i
  {
    if i < count { NeverNotFound(entries, parses, i + 1, count); }
  }

  /** There is no session exactly where it does not say how many values it has, or says less than none or more than
      sixty-four. */
  lemma NotFoundExactly(entries: Entries, parses: seq<Byte> -> bool)
    ensures RestoredSession(entries, parses).1 == NotFound
            <==> !(Count in entries && Decoded(entries[Count]).Some? && Decoded(entries[Count]).value.Int?
                   && 0 <= Decoded(entries[Count]).value.i <= 64)
  {
    if Count in entries && Decoded(entries[Count]).Some? && Decoded(entries[Count]).value.Int? {
      var n := Decoded(entries[Count]).value.i;
      if 0 <= n <= 64 { NeverNotFound(entries, parses, 0, n); }
    }
  }

  /** With every write going through, a save leaves what it should. */
  lemma AllWritten(entries: Entries, st: seq<Element>, writes: Writes)
    requires writes(Count) && writes(Lost) && forall i :: 0 <= i < |Prefix(st)| ==> writes(Nth(i))
    ensures SavedWith(entries, st, writes) == (Saved(entries, st), Fine)
  {
  }

  /** One value after another, and then what is above them. */
  lemma {:induction false} RestoredUpTo(entries: Entries, p: seq<Element>, parses: seq<Byte> -> bool, i: nat, k: nat,
                                        above: (seq<Element>, Result))
    requires (forall j :: 0 <= j < |p| ==> Encodable(p[j])) && AllParse(p, parses) && i <= k <= |p|
    requires forall j :: 0 <= j < k ==> Nth(j) in entries && entries[Nth(j)] == Record(Encoding(p[j]))
    requires above == Restored(entries, parses, k, |p|)
    ensures Restored(entries, parses, i, |p|) == (AllBack(p)[i..k] + above.0, above.1)
    decreases k - i
  {
    if i == k {
      assert AllBack(p)[i..k] + above.0 == above.0;
    } else {
      RestoredUpTo(entries, p, parses, i + 1, k, above);
      RestoredOne(entries, parses, i, |p|, p[i]);
      OneMoreBack(AllBack(p), i, k, above.0);
    }
  }

  lemma OneMoreBack(all: seq<Element>, i: nat, k: nat, above: seq<Element>)
    requires i < k <= |all|
    ensures all[i..k] + above == [all[i]] + (all[i + 1..k] + above)
  {
  }

  /** What is restored does not depend on the entries before it. */
  lemma {:induction false} RestoredSame(e: Entries, f: Entries, parses: seq<Byte> -> bool, i: nat, count: nat)
    requires i <= count
    requires forall k :: i <= k < count ==> (Nth(k) in e <==> Nth(k) in f) && (Nth(k) in e ==> e[Nth(k)] == f[Nth(k)])
    ensures Restored(e, parses, i, count) == Restored(f, parses, i, count)
    decreases count - i
  {
    if i < count {
      assert Nth(i) in e <==> Nth(i) in f;
      RestoredSame(e, f, parses, i + 1, count);
    }
  }

  /** Where the write of the k-th value fails, what is restored is the k values below it, and over them whatever the
      entries above had been left holding by earlier sessions. */
  lemma CutShortRestores(entries: Entries, st: seq<Element>, writes: Writes, parses: seq<Byte> -> bool)
    requires AllParse(Prefix(st), parses) && writes(Count) && Reached(writes, |Prefix(st)|) < |Prefix(st)|
    ensures var p, k := Prefix(st), Reached(writes, |Prefix(st)|);
            var above := Restored(entries, parses, k, |p|);
            && SavedWith(entries, st, writes).1 == IoError
            && RestoredSession(SavedWith(entries, st, writes).0, parses) == (AllBack(p)[..k] + above.0, above.1)
  {
    var p, k := Prefix(st), Reached(writes, |Prefix(st)|);
    var begun := Put(entries, Count, Int(|p|));
    var left := Written(begun, p[..k]);
    RoundTrip(Int(|p|));
    WrittenHas(begun, p[..k], Count);
    forall j | 0 <= j < k ensures Nth(j) in left && left[Nth(j)] == Record(Encoding(p[j])) {
      WrittenHas(begun, p[..k], Nth(j));
    }
    forall j | k <= j < |p|
      ensures (Nth(j) in left <==> Nth(j) in entries) && (Nth(j) in left ==> left[Nth(j)] == entries[Nth(j)])
    {
      WrittenHas(begun, p[..k], Nth(j));
    }
    RestoredSame(left, entries, parses, k, |p|);
    RestoredUpTo(left, p, parses, 0, k, Restored(entries, parses, k, |p|));
    assert AllBack(p)[0..k] == AllBack(p)[..k];
  }

  /** So a save that is cut short comes back as it should have exactly where the entries it did not get to already held
      the values it had for them. */
  lemma CutShortExactly(entries: Entries, st: seq<Element>, writes: Writes, parses: seq<Byte> -> bool)
    requires AllParse(Prefix(st), parses) && writes(Count) && Reached(writes, |Prefix(st)|) < |Prefix(st)|
    ensures var p, k := Prefix(st), Reached(writes, |Prefix(st)|);
            RestoredSession(SavedWith(entries, st, writes).0, parses) == (AllBack(p), Fine)
            <==> Restored(entries, parses, k, |p|) == (AllBack(p)[k..], Fine)
  {
    var p, k := Prefix(st), Reached(writes, |Prefix(st)|);
    var above := Restored(entries, parses, k, |p|);
    CutShortRestores(entries, st, writes, parses);
    assert AllBack(p) == AllBack(p)[..k] + AllBack(p)[k..];
    if AllBack(p)[..k] + above.0 == AllBack(p) {
      assert above.0 == (AllBack(p)[..k] + above.0)[k..];
    }
  }

  lemma TwoValues(a: Int64, b: Int64)
    ensures Prefix([Whole(a), Whole(b)]) == [Whole(a), Whole(b)]
    ensures AllBack([Whole(a), Whole(b)]) == [Whole(a), Whole(b)]
  {
    assert [Whole(a), Whole(b)][1..] == [Whole(b)] && [Whole(b)][1..] == [];
  }

  lemma OneReached(writes: Writes)
    requires writes(Nth(0)) && !writes(Nth(1))
    ensures Reached(writes, 2) == 1
  {
    assert Reached(writes, 0) == 0;
    assert Reached(writes, 1) == 1;
  }

  /** Two values to be written where the second already held another. */
  lemma SecondStays(entries: Entries, st: seq<Element>, b: Int64, parses: seq<Byte> -> bool, writes: Writes)
    requires |st| == 2 && Prefix(st) == st && AllParse(st, parses)
    requires Nth(1) in entries && entries[Nth(1)] == Record(Encoding(Whole(b)))
    requires writes(Count) && writes(Nth(0)) && !writes(Nth(1))
    ensures RestoredSession(SavedWith(entries, st, writes).0, parses) == (AllBack(st)[..1] + [Whole(b)], Fine)
  {
    OneReached(writes);
    RestoredOne(entries, parses, 1, 2, Whole(b));
    assert Restored(entries, parses, 1, 2) == ([Whole(b)], Fine) by {
      var none: seq<Element> := [];
      assert [Whole(b)] + none == [Whole(b)];
    }
    CutShortRestores(entries, st, writes, parses);
  }

  /** Two values where there were two, the second not written: one of each comes back, and nothing says so. */
  lemma TwoMixed(was: Entries, a: Int64, b: Int64, c: Int64, d: Int64, parses: seq<Byte> -> bool, writes: Writes)
    requires writes(Count) && writes(Nth(0)) && !writes(Nth(1))
    ensures var left := SavedWith(Saved(was, [Whole(a), Whole(b)]), [Whole(c), Whole(d)], writes).0;
            RestoredSession(left, parses) == ([Whole(c), Whole(b)], Fine)
  {
    TwoValues(a, b);
    TwoValues(c, d);
    SavedHas(was, [Whole(a), Whole(b)], 1);
    SecondStays(Saved(was, [Whole(a), Whole(b)]), [Whole(c), Whole(d)], b, parses, writes);
    assert [Whole(c), Whole(d)][..1] + [Whole(b)] == [Whole(c), Whole(b)];
  }

  predicate ComesBackWhole(e: Element) {
    match e
    case Str(s) => 0 !in s && |s| < 240
    case Pointer(_) => false
    case Decimal(text) => 0 !in text && |text| < 240
    case _ => true
  }

  /** A stack comes back as it was exactly where it is of at most sixty-four values that each do. */
  lemma WholeExactly(st: seq<Element>)
    ensures AllBack(Prefix(st)) == st <==> |st| <= 64 && forall i :: 0 <= i < |st| ==> ComesBackWhole(st[i])
  {
    var p := Prefix(st);
    if AllBack(p) == st {
      forall i | 0 <= i < |st| ensures ComesBackWhole(st[i]) {
        assert AllBack(p)[i] == Back(p[i]);
        WholeBack(p[i]);
      }
    } else if forall i :: 0 <= i < |st| ==> ComesBackWhole(st[i]) {
      if |st| <= 64 {
        forall i | 0 <= i < |st| ensures Back(st[i]) == st[i] { WholeBack(st[i]); }
      }
    }
  }

  lemma WholeBack(e: Element)
    requires Encodable(e)
    ensures Back(e) == e <==> ComesBackWhole(e)
  {
    if e.Str? { KeptWhole(Text(e.s)); }
    if e.Decimal? { KeptWhole(D128(e.text)); }
  }
}
