/** Decimal numbers as they are typed: where one ends, what it is worth, and the
    float the translator writes it as. */
module Numeral {
  import opened Text

  /** A number begins here: a digit, or a point with a digit behind it. */
  predicate StartsNumber(s: string, i: nat) {
    IsDigit(At(s, i)) || (At(s, i) == '.' && IsDigit(At(s, i + 1)))
  }

  predicate IsExponentMark(c: char) {
    c == 'e' || c == 'E'
  }

  predicate IsSign(c: char) {
    c == '-' || c == '+'
  }

  /** An exponent needs digits: a mark without any belongs to what comes next. */
  predicate StartsExponent(s: string, i: nat) {
    IsExponentMark(At(s, i)) && (IsDigit(At(s, i + 1)) || (IsSign(At(s, i + 1)) && IsDigit(At(s, i + 2))))
  }

  function FractionEnd(s: string, i: nat): (j: nat)
    ensures i <= j && (i <= |s| ==> j <= |s|)
  {
    if At(s, i) == '.' then SkipDigits(s, i + 1) else i
  }

  function ExponentEnd(s: string, i: nat): (j: nat)
    ensures i <= j && (i <= |s| ==> j <= |s|)
  {
    if StartsExponent(s, i) then SkipDigits(s, i + 2) else i
  }

  function NumberEnd(s: string, i: nat): (j: nat)
    ensures i <= j && (i <= |s| ==> j <= |s|)
    ensures StartsNumber(s, i) ==> i < j
  {
    ExponentEnd(s, FractionEnd(s, SkipDigits(s, i)))
  }

  /** The whole of the text is one number. The covers keep a proof about tokens from looking at
      their characters unless it asks. */
  predicate IsNumeral(s: string) {
    IsNumeralCovered(s, 3)
  }

  /** The same under covers, which a proof takes off where it has to look. */
  predicate IsNumeralCovered(s: string, covers: nat)
    decreases covers, s
  {
    if covers == 0 then StartsNumber(s, 0) && NumberEnd(s, 0) == |s| else IsNumeralCovered(s, covers - 1)
  }

  lemma OpenNumeral(s: string)
    ensures IsNumeral(s) <==> StartsNumber(s, 0) && NumberEnd(s, 0) == |s|
  {
    assert IsNumeralCovered(s, 1) <==> IsNumeralCovered(s, 0);
    assert IsNumeralCovered(s, 2) <==> IsNumeralCovered(s, 1);
  }

  /** A number in its parts; the exponent keeps its mark and sign. */
  datatype Parts = Parts(whole: string, point: bool, fraction: string, exponent: string) {
    predicate Valid() {
      && (forall i :: 0 <= i < |whole| ==> IsDigit(whole[i]))
      && (forall i :: 0 <= i < |fraction| ==> IsDigit(fraction[i]))
      && (whole != "" || (point && fraction != ""))
      && (!point ==> fraction == "")
      && (exponent != "" ==> StartsExponent(exponent, 0) && ExponentEnd(exponent, 0) == |exponent|)
    }

    function Spell(): string {
      whole + (if point then "." + fraction else "") + exponent
    }

    /** The same number spelt as a float: noughts where a side of the point is empty, and a point if nothing else
        makes it one. */
    function AsFloat(): Parts {
      Parts(if whole == "" then "0" else whole,
            point || exponent == "",
            if fraction == "" && (point || exponent == "") then "0" else fraction,
            exponent)
    }

    /** What it is worth before the exponent moves the point. */
    function Mantissa(): real {
      DigitsValue(whole + fraction) as real / PowerOfTen(|fraction|)
    }

    function Value(): real {
      Mantissa() * PowerOfTen(ExponentValue(exponent))
    }
  }

  function DigitsValue(s: string): nat
  {
    if s == "" then 0
    else 10 * DigitsValue(s[..|s| - 1]) + (if IsDigit(s[|s| - 1]) then s[|s| - 1] as int - '0' as int else 0)
  }

  function ExponentValue(e: string): int {
    if |e| < 2 then 0
    else if e[1] == '-' then -(DigitsValue(e[2..]) as int)
    else if e[1] == '+' then DigitsValue(e[2..])
    else DigitsValue(e[1..])
  }

  function PowerOfTen(n: int): (r: real)
    ensures r > 0.0
    decreases if n < 0 then -n else n
  {
    if n == 0 then 1.0 else if n > 0 then 10.0 * PowerOfTen(n - 1) else PowerOfTen(n + 1) / 10.0
  }

  /** The parts of the number that starts here. */
  function PartsAt(s: string, i: nat): Parts
    requires StartsNumber(s, i)
  {
    var j := SkipDigits(s, i);
    var k := FractionEnd(s, j);
    Parts(s[i..j], k > j, if k > j then s[j + 1..k] else "", s[k..ExponentEnd(s, k)])
  }

  // ------------------------------------------------------------------ lemmas

  /** d stands in t at j. */
  predicate Stands(d: string, t: string, j: nat) {
    j + |d| <= |t| && t[j..j + |d|] == d
  }

  lemma StandsApart(a: string, b: string, t: string, j: nat)
    requires Stands(a + b, t, j)
    ensures Stands(a, t, j) && Stands(b, t, j + |a|)
  {
    assert t[j..j + |a|] == (a + b)[..|a|];
    assert t[j + |a|..j + |a| + |b|] == (a + b)[|a|..];
  }

  lemma {:induction false} SkipsAll(d: string, t: string, j: nat)
    requires forall k :: 0 <= k < |d| ==> IsDigit(d[k])
    requires Stands(d, t, j)
    requires !IsDigit(At(t, j + |d|))
    ensures SkipDigits(t, j) == j + |d|
    decreases |d|
  {
    if d != "" {
      assert t[j] == d[0];
      assert t[j + 1..j + 1 + |d[1..]|] == d[1..];
      SkipsAll(d[1..], t, j + 1);
    }
  }

  /** A character that can carry no number on. */
  predicate EndsNumber(c: char) {
    !IsDigit(c) && c != '.' && !IsExponentMark(c)
  }

  lemma PointStands(fraction: string, s: string, j: nat)
    requires Stands("." + fraction, s, j)
    ensures s[j] == '.' && Stands(fraction, s, j + 1)
  {
    assert ("." + fraction)[0] == '.';
    StandsApart(".", fraction, s, j);
  }

  /** The parts of p stand in s: the whole from i, the point at j, the exponent from k. */
  predicate PartsStand(p: Parts, s: string, i: nat, j: nat, k: nat) {
    && Stands(p.whole, s, i) && j == i + |p.whole|
    && (if p.point then At(s, j) == '.' && Stands(p.fraction, s, j + 1) && k == j + 1 + |p.fraction| else k == j)
    && Stands(p.exponent, s, k)
  }

  lemma ReadParts(p: Parts, s: string, i: nat, j: nat, k: nat)
    requires p.Valid()
    requires PartsStand(p, s, i, j, k) && EndsNumber(At(s, k + |p.exponent|))
    ensures StartsNumber(s, i)
    ensures SkipDigits(s, i) == j && FractionEnd(s, j) == k && ExponentEnd(s, k) == k + |p.exponent|
  {
    ReadExponent(p.exponent, s, k);
    assert p.exponent != "" ==> s[k] == p.exponent[0];
    if p.point { SkipsAll(p.fraction, s, j + 1); }
    SkipsAll(p.whole, s, i);
    assert p.whole != "" ==> s[i] == p.whole[0];
    assert p.fraction != "" ==> s[j + 1] == p.fraction[0];
  }

  lemma PartsFrom(p: Parts, s: string, i: nat, j: nat, k: nat)
    requires !p.point ==> p.fraction == ""
    requires PartsStand(p, s, i, j, k) && StartsNumber(s, i)
    requires SkipDigits(s, i) == j && FractionEnd(s, j) == k && ExponentEnd(s, k) == k + |p.exponent|
    ensures NumberEnd(s, i) == k + |p.exponent|
    ensures PartsAt(s, i) == p
  {
  }

  lemma SpellStands(p: Parts, s: string, i: nat, j: nat, k: nat)
    requires !p.point ==> p.fraction == ""
    requires Stands(p.Spell(), s, i)
    requires j == i + |p.whole| && k == if p.point then j + 1 + |p.fraction| else j
    ensures PartsStand(p, s, i, j, k) && k + |p.exponent| == i + |p.Spell()|
  {
    if p.point {
      var point := "." + p.fraction;
      assert p.Spell() == p.whole + (point + p.exponent);
      StandsApart(p.whole, point + p.exponent, s, i);
      StandsApart(point, p.exponent, s, j);
      PointStands(p.fraction, s, j);
    } else {
      assert p.Spell() == p.whole + p.exponent;
      StandsApart(p.whole, p.exponent, s, i);
    }
  }

  /** The number standing at i is read back as the parts it was spelt from. */
  lemma ReadBack(p: Parts, s: string, i: nat)
    requires p.Valid()
    requires Stands(p.Spell(), s, i)
    requires EndsNumber(At(s, i + |p.Spell()|))
    ensures StartsNumber(s, i)
    ensures NumberEnd(s, i) == i + |p.Spell()|
    ensures PartsAt(s, i) == p
  {
    var j := i + |p.whole|;
    var k := if p.point then j + 1 + |p.fraction| else j;
    SpellStands(p, s, i, j, k);
    ReadParts(p, s, i, j, k);
    PartsFrom(p, s, i, j, k);
  }

  lemma ReadExponent(e: string, s: string, i: nat)
    requires e != "" ==> StartsExponent(e, 0) && ExponentEnd(e, 0) == |e|
    requires Stands(e, s, i)
    requires EndsNumber(At(s, i + |e|))
    ensures ExponentEnd(s, i) == i + |e|
  {
    if e != "" {
      forall k | 0 <= k < |e| ensures s[i + k] == e[k] { assert s[i..i + |e|][k] == s[i + k]; }
      assert s[i + 0] == e[0] && s[i + 1] == e[1];
      assert |e| > 2 ==> s[i + 2] == e[2];
      assert s[i + 2..i + 2 + |e[2..]|] == e[2..];
      SkipsAll(e[2..], s, i + 2);
    }
  }

  /** What the scanner cuts out is a valid number, and its parts spell it. */
  lemma PartsSpell(s: string, i: nat)
    requires StartsNumber(s, i)
    ensures PartsAt(s, i).Valid()
    ensures PartsAt(s, i).Spell() == s[i..NumberEnd(s, i)]
  {
    var j := SkipDigits(s, i);
    var k := FractionEnd(s, j);
    var n := ExponentEnd(s, k);
    var p := PartsAt(s, i);
    assert k > j ==> s[j..k] == "." + p.fraction;
    assert s[i..n] == s[i..j] + s[j..k] + s[k..n];
    if p.exponent != "" {
      ExponentReadAlone(s, k, p.exponent);
    }
  }

  lemma ExponentReadAlone(s: string, k: nat, e: string)
    requires StartsExponent(s, k) && e == s[k..ExponentEnd(s, k)]
    ensures StartsExponent(e, 0) && ExponentEnd(e, 0) == |e|
  {
    assert |e| >= 2;
    assert e[0] == s[k] && e[1] == s[k + 1];
    forall m | 0 <= m < |e[2..]| ensures IsDigit(e[2..][m]) { assert e[2..][m] == s[k + 2 + m]; }
    assert |e| > 2 ==> e[2] == s[k + 2];
    assert e[2..2 + |e[2..]|] == e[2..];
    SkipsAll(e[2..], e, 2);
  }

  lemma NumeralParts(s: string)
    requires IsNumeral(s)
    ensures StartsNumber(s, 0)
    ensures PartsAt(s, 0).Valid() && PartsAt(s, 0).Spell() == s
  {
    OpenNumeral(s);
    PartsSpell(s, 0);
    assert s[0..|s|] == s;
  }

  lemma SpeltIsNumeral(p: Parts)
    requires p.Valid()
    ensures StartsNumber(p.Spell(), 0) && NumberEnd(p.Spell(), 0) == |p.Spell()|
    ensures IsNumeral(p.Spell()) && PartsAt(p.Spell(), 0) == p
  {
    OpenNumeral(p.Spell());
    assert p.Spell()[0..|p.Spell()|] == p.Spell();
    ReadBack(p, p.Spell(), 0);
  }

  /** Writing a number as a float does not change what it is worth. */
  lemma AsFloatKeepsValue(p: Parts)
    requires p.Valid()
    ensures p.AsFloat().Valid()
    ensures p.AsFloat().Value() == p.Value()
  {
    AsFloatIsValid(p);
    AsFloatKeepsMantissa(p);
    SameTimes(p.AsFloat().Mantissa(), p.Mantissa(), PowerOfTen(ExponentValue(p.exponent)));
  }

  lemma AsFloatIsValid(p: Parts)
    requires p.Valid()
    ensures p.AsFloat().Valid()
  {
    assert IsDigit("0"[0]);
  }

  lemma SameTimes(a: real, b: real, c: real)
    requires a == b
    ensures a * c == b * c
  {
  }

  lemma AsFloatKeepsMantissa(p: Parts)
    requires p.Valid()
    ensures p.AsFloat().Mantissa() == p.Mantissa()
  {
    var q := p.AsFloat();
    if p.whole == "" {
      LeadingZero(p.fraction);
      assert q.whole + q.fraction == "0" + p.fraction;
      assert p.whole + p.fraction == p.fraction;
    } else if q.fraction != p.fraction {
      assert p.whole + p.fraction == p.whole;
      assert q.whole + q.fraction == p.whole + "0";
      TrailingZero(p.whole);
      TenTimes(DigitsValue(p.whole));
    }
  }

  lemma TrailingZero(s: string)
    ensures DigitsValue(s + "0") == 10 * DigitsValue(s)
  {
    assert (s + "0")[..|s|] == s;
  }

  lemma TenTimes(n: nat)
    ensures (10 * n) as real / PowerOfTen(1) == n as real / PowerOfTen(0)
  {
    assert PowerOfTen(1) == 10.0 * PowerOfTen(0);
  }

  lemma {:induction false} LeadingZero(s: string)
    ensures DigitsValue("0" + s) == DigitsValue(s)
  {
    if s != "" {
      LeadingZero(s[..|s| - 1]);
      assert ("0" + s)[..|s|] == "0" + s[..|s| - 1];
    } else {
      assert "0" + s == "0";
      assert "0"[..0] == "";
    }
  }
}
