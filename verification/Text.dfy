/** C strings as the calculator handles them: a NUL ends one, and the character
    classes are those of the C locale. */
module Text {

  const NUL: char := '\0'

  /** A string with no NUL inside it, which is what a `const char*` denotes. */
  predicate IsCString(s: string) {
    NUL !in s
  }

  /** Reading one past the last character finds the terminator. */
  function At(s: string, i: nat): char {
    if i < |s| then s[i] else NUL
  }

  predicate IsSpace(c: char) {
    c == ' ' || '\t' <= c <= '\r'
  }

  predicate IsDigit(c: char) {
    '0' <= c <= '9'
  }

  predicate IsAlpha(c: char) {
    'a' <= c <= 'z' || 'A' <= c <= 'Z'
  }

  /** The classes, by the codes of their characters. */
  lemma CharacterClasses(c: char)
    ensures IsDigit(c) <==> 0x30 <= c as int <= 0x39
    ensures IsAlpha(c) <==> 0x41 <= c as int <= 0x5A || 0x61 <= c as int <= 0x7A
    ensures IsSpace(c) <==> c as int in {0x09, 0x0A, 0x0B, 0x0C, 0x0D, 0x20}
  {
  }

  function SkipSpace(s: string, i: nat): (j: nat)
    ensures i <= j && (i <= |s| ==> j <= |s|)
    ensures !IsSpace(At(s, j))
    decreases |s| - i
  {
    if i < |s| && IsSpace(s[i]) then SkipSpace(s, i + 1) else i
  }

  function SkipDigits(s: string, i: nat): (j: nat)
    ensures i <= j && (i <= |s| ==> j <= |s|)
    ensures !IsDigit(At(s, j))
    ensures forall k :: i <= k < j && k < |s| ==> IsDigit(s[k])
    decreases |s| - i
  {
    if i < |s| && IsDigit(s[i]) then SkipDigits(s, i + 1) else i
  }

  /** Words written one after the other with a single space between. */
  function Join(words: seq<string>): string {
    if words == [] then ""
    else if |words| == 1 then words[0]
    else words[0] + " " + Join(words[1..])
  }

  /** How many characters before the first space. */
  function WordLength(s: string): (n: nat)
    ensures n <= |s|
    ensures n > 0 <==> s != "" && !IsSpace(s[0])
  {
    if s == "" || IsSpace(s[0]) then 0 else 1 + WordLength(s[1..])
  }

  /** The space-separated words of a string. */
  function Split(s: string): seq<string> {
    if s == "" then []
    else if IsSpace(s[0]) then Split(s[1..])
    else var n := WordLength(s); [s[..n]] + Split(s[n..])
  }

  /** Something Split can take for one word: not empty and with no space in it. */
  predicate IsWord(w: string) {
    w != "" && forall i :: 0 <= i < |w| ==> !IsSpace(w[i])
  }

  lemma {:induction false} JoinSnoc(words: seq<string>, w: string)
    ensures Join(words + [w]) == if words == [] then w else Join(words) + " " + w
  {
    if |words| >= 1 {
      JoinSnoc(words[1..], w);
      assert (words + [w])[1..] == words[1..] + [w];
      if |words| == 1 {
        assert words[1..] == [];
      } else {
        assert words[0] + " " + (Join(words[1..]) + " " + w) == words[0] + " " + Join(words[1..]) + " " + w;
      }
    } else {
      assert words + [w] == [w];
    }
  }

  lemma {:induction false} WordLengthOf(w: string, rest: string)
    requires forall i :: 0 <= i < |w| ==> !IsSpace(w[i])
    requires rest == "" || IsSpace(rest[0])
    ensures WordLength(w + rest) == |w|
  {
    if w != "" {
      assert (w + rest)[1..] == w[1..] + rest;
      WordLengthOf(w[1..], rest);
    } else {
      assert w + rest == rest;
    }
  }

  /** Splitting undoes joining. */
  lemma {:induction false} SplitOfJoin(words: seq<string>)
    requires forall i :: 0 <= i < |words| ==> IsWord(words[i])
    ensures Split(Join(words)) == words
  {
    if |words| == 1 {
      var w := words[0];
      assert w + "" == w;
      WordLengthOf(w, "");
      assert w[..|w|] == w && w[|w|..] == "";
      assert Split("") == [];
      assert words == [w] + [];
    } else if |words| > 1 {
      var w, tail := words[0], Join(words[1..]);
      assert Join(words) == w + (" " + tail);
      WordLengthOf(w, " " + tail);
      assert (w + (" " + tail))[..|w|] == w && (w + (" " + tail))[|w|..] == " " + tail;
      assert (" " + tail)[1..] == tail;
      SplitOfJoin(words[1..]);
    }
  }
}
