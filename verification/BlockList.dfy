/** The list of modules never to open again: names with a space between, in a buffer of fixed size. */
module BlockList {

  /** The characters the buffer holds, its terminator aside. */
  const ROOM: nat := 127

  /** The longest name, so that the name with its suffix and its terminator fits where names are kept. */
  const NAME_MAX: nat := 60

  predicate IsWordChar(c: char) {
    'a' <= c <= 'z' || 'A' <= c <= 'Z' || '0' <= c <= '9' || c == '_'
  }

  /** A name that lexes as one word. */
  predicate ValidName(name: string) {
    0 < |name| <= NAME_MAX && forall i :: 0 <= i < |name| ==> IsWordChar(name[i])
  }

  /** How far it is to a space or to the end. */
  function Span(s: string): (n: nat)
    ensures n <= |s| && (n < |s| ==> s[n] == ' ')
    ensures forall i :: 0 <= i < n ==> s[i] != ' '
  {
    if s == "" || s[0] == ' ' then 0 else 1 + Span(s[1..])
  }

  /** The whole name is in the list, not just as a part of one. */
  predicate Listed(list: string, name: string) {
    list != "" &&
    var n := Span(list);
    list[..n] == name || (n < |list| && Listed(list[n + 1..], name))
  }

  method IsListed(list: string, name: string) returns (yes: bool)
    ensures yes <==> Listed(list, name)
  {
    var p := 0;
    ghost var rest, listed := list, Listed(list, name);
    while p < |list|
      invariant p <= |list| && rest == list[p..]
      invariant listed == Listed(rest, name)
    {
      var n := Span(list[p..]);
      if list[p..][..n] == name {
        return true;
      }
      if p + n == |list| {
        return false;
      }
      assert rest[n + 1..] == list[p + n + 1..];
      p, rest := p + n + 1, rest[n + 1..];
    }
    return false;
  }

  /** The list with a name put after what is there, cut where the buffer ends. */
  function Added(list: string, name: string): (w: string)
    ensures |list| <= ROOM ==> |w| <= ROOM
  {
    if Listed(list, name) then list
    else list + Cut(if list == "" then name else " " + name, if |list| <= ROOM then ROOM - |list| else 0)
  }

  /** As much of a text as there is room for. */
  function Cut(s: string, room: nat): (w: string)
    ensures |w| <= room && |w| <= |s|
  {
    if |s| <= room then s else s[..room]
  }

  /** The name is there already, or there is room to put it whole. */
  predicate Fits(list: string, name: string) {
    Listed(list, name) || |list| + (if list == "" then 0 else 1) + |name| <= ROOM
  }

  lemma {:induction false} SpanOf(s: string, rest: string)
    requires forall i :: 0 <= i < |s| ==> s[i] != ' '
    requires rest == "" || rest[0] == ' '
    ensures Span(s + rest) == |s|
  {
    if s == "" {
      assert s + rest == rest;
    } else {
      assert (s + rest)[1..] == s[1..] + rest;
      SpanOf(s[1..], rest);
    }
  }

  /** A list put after another: what is in one or the other. */
  lemma {:induction false} ListedAfter(list: string, more: string, name: string)
    requires list != "" && name != ""
    ensures Listed(list + " " + more, name) <==> Listed(list, name) || Listed(more, name)
    decreases |list|
  {
    var n, whole := Span(list), list + " " + more;
    if n == |list| {
      SpanOf(list, " " + more);
      assert whole == list + (" " + more);
      assert whole[..n] == list[..n] && whole[n + 1..] == more;
    } else {
      assert list == list[..n] + list[n..];
      assert whole == list[..n] + (list[n..] + " " + more);
      SpanOf(list[..n], list[n..] + " " + more);
      assert whole[..n] == list[..n];
      if n + 1 == |list| {
        assert whole[n + 1..] == " " + more;
        LoneSpace(more, name);
      } else {
        assert whole[n + 1..] == list[n + 1..] + " " + more;
        ListedAfter(list[n + 1..], more, name);
      }
    }
  }

  lemma LoneSpace(more: string, name: string)
    requires name != ""
    ensures Listed(" " + more, name) <==> Listed(more, name)
  {
    assert Span(" " + more) == 0;
    assert (" " + more)[1..] == more;
  }

  lemma ListedAlone(s: string, name: string)
    requires name != "" && forall i :: 0 <= i < |s| ==> s[i] != ' '
    ensures Listed(s, name) <==> s == name
  {
    SpanOf(s, "");
    assert s + "" == s && s[..|s|] == s;
  }

  /** What of a name gets onto the list. */
  function Piece(list: string, name: string): string
    requires |list| <= ROOM
  {
    if list == "" then Cut(name, ROOM)
    else if |list| == ROOM then ""
    else Cut(name, ROOM - |list| - 1)
  }

  /** Nothing falls off the list, and what goes on is as much of the name as there is room for. */
  lemma AddedLists(list: string, name: string, other: string)
    requires |list| <= ROOM && ValidName(name) && other != "" && !Listed(list, name)
    ensures Listed(Added(list, name), other) <==> Listed(list, other) || other == Piece(list, name)
  {
    var p := Piece(list, name);
    ListedAlone(p, other);
    if list == "" {
      assert Added(list, name) == p;
    } else if |list| == ROOM {
      assert Cut(" " + name, 0) == "";
      assert Added(list, name) == list;
    } else {
      assert Cut(" " + name, ROOM - |list|) == " " + p;
      assert Added(list, name) == list + " " + p;
      ListedAfter(list, p, other);
    }
  }

  /** A name is on the list afterwards exactly where it fits. */
  lemma AddedIsListed(list: string, name: string)
    requires |list| <= ROOM && ValidName(name)
    ensures Listed(Added(list, name), name) <==> Fits(list, name)
  {
    if !Listed(list, name) {
      AddedLists(list, name, name);
    }
  }

  /** Where it fits, nothing else goes on; where not, another's name may, if it begins this one. */
  lemma AddedKeeps(list: string, name: string, other: string)
    requires |list| <= ROOM && ValidName(name) && other != ""
    ensures Listed(list, other) ==> Listed(Added(list, name), other)
    ensures Fits(list, name) && Listed(Added(list, name), other) ==> Listed(list, other) || other == name
  {
    if !Listed(list, name) {
      AddedLists(list, name, other);
    }
  }

  /** Adding a name twice is adding it once, whether it fits or not. */
  lemma AddedTwice(list: string, name: string)
    requires |list| <= ROOM && ValidName(name)
    ensures Added(Added(list, name), name) == Added(list, name)
  {
    var w := Added(list, name);
    AddedIsListed(list, name);
    if !Fits(list, name) {
      assert |w| == ROOM;
      assert Cut(" " + name, 0) == "";
      assert w + "" == w;
    }
  }
}
