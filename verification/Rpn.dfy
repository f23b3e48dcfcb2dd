/** Words of RPN: counting what a body leaves without running it, and the machine
    the count is about. */
module Rpn {
  import opened Basics
  import opened Text
  import opened Words
  import opened Numeral

  /** No RPN: a word has fewer values than it takes, or a token that only a formula has. */
  const NOT: int := -1

  /** There is a word nothing is known of, and so nothing against its being RPN. */
  const UNKNOWN: int := -2

  predicate NameStart(c: char) {
    IsAlpha(c) || c == '_'
  }

  predicate NameChar(c: char) {
    IsAlpha(c) || IsDigit(c) || c == '_' || c == ':'
  }

  predicate IsName(w: string) {
    IsNameCovered(w, 3)
  }

  /** The same under covers, which a proof takes off where it has to look. */
  predicate IsNameCovered(w: string, covers: nat)
    decreases covers, w
  {
    if covers == 0 then w != "" && NameStart(w[0]) && forall i :: 0 < i < |w| ==> NameChar(w[i])
    else IsNameCovered(w, covers - 1)
  }

  lemma OpenName(w: string)
    ensures IsName(w) <==> w != "" && NameStart(w[0]) && forall i :: 0 < i < |w| ==> NameChar(w[i])
  {
    assert IsNameCovered(w, 1) <==> IsNameCovered(w, 0);
    assert IsNameCovered(w, 2) <==> IsNameCovered(w, 1);
  }

  // ------------------------------------------------------ what strtod takes

  predicate IsHexDigit(c: char) {
    IsDigit(c) || 'a' <= c <= 'f' || 'A' <= c <= 'F'
  }

  function SkipHex(s: string, i: nat): (j: nat)
    ensures i <= j && (i <= |s| ==> j <= |s|)
    decreases |s| - i
  {
    if i < |s| && IsHexDigit(s[i]) then SkipHex(s, i + 1) else i
  }

  predicate StartsHex(s: string, i: nat) {
    && At(s, i) == '0' && (At(s, i + 1) == 'x' || At(s, i + 1) == 'X')
    && (IsHexDigit(At(s, i + 2)) || (At(s, i + 2) == '.' && IsHexDigit(At(s, i + 3))))
  }

  function HexEnd(s: string, i: nat): nat {
    var j := SkipHex(s, i + 2);
    var k := if At(s, j) == '.' then SkipHex(s, j + 1) else j;
    var mark := At(s, k) == 'p' || At(s, k) == 'P';
    if mark && IsDigit(At(s, k + 1)) then SkipDigits(s, k + 1)
    else if mark && IsSign(At(s, k + 1)) && IsDigit(At(s, k + 2)) then SkipDigits(s, k + 2)
    else k
  }

  /** Where strtod stops, on a token that begins with a digit, a point or a minus. */
  function StrtodEnd(s: string): nat {
    var i := if At(s, 0) == '-' then 1 else 0;
    if StartsHex(s, i) then HexEnd(s, i)
    else if StartsNumber(s, i) then NumberEnd(s, i)
    else 0
  }

  /** The language takes the whole of the token for a number. */
  predicate IsNumber(token: string) {
    var i := if At(token, 0) == '-' then 1 else 0;
    && i < |token| && (IsDigit(At(token, i)) || At(token, i) == '.')
    && |token| < 64
    && StrtodEnd(token) == |token|
  }

  // ------------------------------------------------------------- the counting

  predicate IsFormulaChar(c: char) {
    c in "()^,+-*/"
  }

  /** What a token that is neither number nor known word says of the whole body. */
  function Verdict(token: string): (v: int)
    ensures v == NOT || v == UNKNOWN
  {
    var first := At(token, 0);
    if IsName(token) then UNKNOWN
    else if token == "->" || token == "--" then UNKNOWN
    else if exists i :: 0 <= i < |token| && IsFormulaChar(token[i]) then NOT
    else if IsDigit(first) || first == '.' || first == '-' || first == '+' then NOT
    else UNKNOWN
  }

  /** The count from here on, with depth values left so far. */
  function CountFrom(words: seq<string>, depth: nat): int {
    if words == [] then depth
    else if IsNumber(words[0]) then CountFrom(words[1..], depth + 1)
    else
      var e := EffectOf(words[0]);
      if e.None? then Verdict(words[0])
      else if depth < e.value.takes then NOT
      else CountFrom(words[1..], depth + e.value.leaves - e.value.takes)
  }

  function Results(body: string): int {
    CountFrom(Split(body), 0)
  }

  /** Characters that only a formula has settle it, whatever else the token is; and a name may be any word at all. */
  method TokenVerdict(token: string) returns (v: int)
    requires token != ""
    ensures v == Verdict(token)
  {
    OpenName(token);
    var name := NameStart(token[0]);
    var i := 1;
    while name && i < |token|
      invariant 1 <= i <= |token|
      invariant name ==> NameStart(token[0]) && forall k :: 0 < k < i ==> NameChar(token[k])
      invariant !name ==> !IsName(token)
    {
      name := NameChar(token[i]);
      i := i + 1;
    }
    if name {
      return UNKNOWN;
    }
    if token == "->" || token == "--" {
      return UNKNOWN;
    }
    i := 0;
    while i < |token|
      invariant 0 <= i <= |token|
      invariant forall k :: 0 <= k < i ==> !IsFormulaChar(token[k])
    {
      if IsFormulaChar(token[i]) {
        return NOT;
      }
      i := i + 1;
    }
    if IsDigit(token[0]) || token[0] == '.' || token[0] == '-' || token[0] == '+' {
      return NOT;
    }
    return UNKNOWN;
  }

  /** Past any spaces. */
  method SkipBlanks(body: string, p: nat) returns (start: nat)
    requires p <= |body|
    ensures p <= start <= |body| && Split(body[start..]) == Split(body[p..])
    ensures start < |body| ==> !IsSpace(body[start])
  {
    start := p;
    ghost var words, rest := Split(body[p..]), body[p..];
    while start < |body| && IsSpace(body[start])
      invariant p <= start <= |body| && rest == body[start..]
      invariant words == Split(rest)
    {
      assert rest[1..] == body[start + 1..];
      start, rest := start + 1, rest[1..];
    }
  }

  /** To the end of what is not a space. */
  method WordStop(body: string, start: nat) returns (end: nat)
    requires start <= |body|
    ensures start <= end <= |body| && end - start == WordLength(body[start..])
  {
    end := start;
    ghost var length, rest := WordLength(body[start..]), body[start..];
    while end < |body| && !IsSpace(body[end])
      invariant start <= end <= |body| && rest == body[end..]
      invariant length == end - start + WordLength(rest)
    {
      assert rest[1..] == body[end + 1..];
      end, rest := end + 1, rest[1..];
    }
  }

  /** The next token from p on and where it ends; there is none when start == end. */
  method NextToken(body: string, p: nat) returns (start: nat, end: nat)
    requires p <= |body|
    ensures p <= start <= end <= |body|
    ensures start == end ==> Split(body[p..]) == []
    ensures start < end ==> Split(body[p..]) == [body[start..end]] + Split(body[end..])
  {
    start := SkipBlanks(body, p);
    end := WordStop(body, start);
    ghost var rest := body[start..];
    assert rest[..end - start] == body[start..end] && rest[end - start..] == body[end..];
  }

  /** One word counted: either it settles the count of all from it on, or there are now so many values. */
  method CountToken(token: string, depth: nat, ghost words: seq<string>) returns (stop: bool, count: int)
    requires token != "" && words != [] && words[0] == token
    ensures stop ==> count == CountFrom(words, depth)
    ensures !stop ==> count >= 0 && CountFrom(words[1..], count) == CountFrom(words, depth)
  {
    if IsNumber(token) {
      return false, depth + 1;
    }
    var effect := EffectOf(token);
    if effect.None? {
      count := TokenVerdict(token);
      return true, count;
    }
    if depth < effect.value.takes {
      return true, NOT;
    }
    return false, depth + effect.value.leaves - effect.value.takes;
  }

  method RpnResults(body: string) returns (results: int)
    ensures results == Results(body)
  {
    var depth: nat := 0;
    var p := 0;
    assert body[0..] == body;
    ghost var words, count := Split(body), Results(body);
    while p < |body|
      invariant p <= |body| && words == Split(body[p..])
      invariant count == CountFrom(words, depth)
    {
      var start, end := NextToken(body, p);
      if start == end {
        return depth;
      }
      var token := body[start..end];
      assert words[0] == token && words[1..] == Split(body[end..]);
      var stop, depth' := CountToken(token, depth, words);
      if stop {
        return depth';
      }
      p, depth, words := end, depth', words[1..];
    }
    return depth;
  }

  // -------------------------------------------------------------- the machine

  /** Something that runs words: which it knows, and what each makes of its arguments.
      What a hexadecimal literal is worth is its own affair. */
  datatype Machine = Machine(
    effects: string -> Option<Effect>,
    apply: (string, seq<real>) -> seq<real>,
    hex: string -> real)
  {
    /** It has every word of the table at the table's effect, and each word leaves what it should. */
    ghost predicate Valid() {
      && (forall w :: EffectOf(w).Some? ==> effects(w) == EffectOf(w))
      && (forall w, args :: effects(w).Some? && |args| == effects(w).value.takes
            ==> |apply(w, args)| == effects(w).value.leaves)
    }

    function Literal(token: string): real {
      if StartsNumber(token, 0) then PartsAt(token, 0).Value()
      else if At(token, 0) == '-' && StartsNumber(token, 1) then -PartsAt(token, 1).Value()
      else hex(token)
    }

    /** One word, run on a stack whose top is last; None when it cannot. */
    function Step(w: string, stack: seq<real>): Option<seq<real>> {
      if IsNumber(w) then Some(stack + [Literal(w)])
      else
        var e := effects(w);
        if e.None? || |stack| < e.value.takes then None
        else
          var base := |stack| - e.value.takes;
          Some(stack[..base] + apply(w, stack[base..]))
    }

    function Run(words: seq<string>, stack: seq<real>): Option<seq<real>> {
      if words == [] then Some(stack)
      else
        var next := Step(words[0], stack);
        if next.None? then None else Run(words[1..], next.value)
    }
  }

  lemma {:induction false} RunAppend(m: Machine, a: seq<string>, b: seq<string>, stack: seq<real>)
    ensures m.Run(a + b, stack) ==
            var mid := m.Run(a, stack); if mid.None? then None else m.Run(b, mid.value)
  {
    if a == [] {
      assert a + b == b;
    } else {
      assert (a + b)[1..] == a[1..] + b;
      var next := m.Step(a[0], stack);
      if next.Some? { RunAppend(m, a[1..], b, next.value); }
    }
  }

  /** A body is one the count can follow when every token of it is a number or a known word. */
  predicate AllKnown(words: seq<string>) {
    forall i :: 0 <= i < |words| ==> IsNumber(words[i]) || EffectOf(words[i]).Some?
  }

  /** One word on a machine, against what the count makes of it. */
  lemma StepCounts(m: Machine, w: string, stack: seq<real>)
    requires m.Valid()
    ensures IsNumber(w) ==> m.Step(w, stack).Some? && |m.Step(w, stack).value| == |stack| + 1
    ensures !IsNumber(w) && EffectOf(w).Some? ==>
              var e := EffectOf(w).value;
              && (m.Step(w, stack).Some? <==> |stack| >= e.takes)
              && (m.Step(w, stack).Some? ==> |m.Step(w, stack).value| == |stack| + e.leaves - e.takes)
  {
  }

  /** The count is what running leaves, on every machine and above any stack; and a body of
      known words it rejects cannot run from the depth it was counted from. */
  lemma {:induction false} CountIsWhatRunningLeaves(m: Machine, words: seq<string>, stack: seq<real>)
    requires m.Valid()
    ensures CountFrom(words, |stack|) >= 0 ==>
              m.Run(words, stack).Some? && |m.Run(words, stack).value| == CountFrom(words, |stack|)
    ensures AllKnown(words) ==> (CountFrom(words, |stack|) == NOT <==> m.Run(words, stack).None?)
    decreases |words|
  {
    if words != [] {
      assert AllKnown(words) ==> AllKnown(words[1..]);
      var w := words[0];
      StepCounts(m, w, stack);
      if IsNumber(w) || (EffectOf(w).Some? && |stack| >= EffectOf(w).value.takes) {
        var next := m.Step(w, stack).value;
        CountIsWhatRunningLeaves(m, words[1..], next);
        assert CountFrom(words, |stack|) == CountFrom(words[1..], |next|);
      } else {
        assert CountFrom(words, |stack|) < 0;
      }
    }
  }

  /** Whatever lies below the stack a body runs on is left as it was. */
  lemma {:induction false} RunLeavesBelowAlone(m: Machine, words: seq<string>, below: seq<real>, stack: seq<real>)
    requires m.Valid() && m.Run(words, stack).Some?
    ensures m.Run(words, below + stack) == Some(below + m.Run(words, stack).value)
    decreases |words|
  {
    if words != [] {
      var w := words[0];
      var next := m.Step(w, stack);
      if IsNumber(w) {
        assert below + stack + [m.Literal(w)] == below + next.value;
      } else {
        var takes := m.effects(w).value.takes;
        var base := |stack| - takes;
        assert (below + stack)[..|below| + base] == below + stack[..base];
        assert (below + stack)[|below| + base..] == stack[base..];
        assert below + stack[..base] + m.apply(w, stack[base..]) == below + next.value;
      }
      RunLeavesBelowAlone(m, words[1..], below, next.value);
    }
  }
}
