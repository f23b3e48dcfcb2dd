/** How numbers are typed and written out, in so many characters. */
module Floats {
  import opened Text
  import opened Numeral

  predicate Digits(s: string) {
    s != "" && forall i :: 0 <= i < |s| ==> '0' <= s[i] <= '9'
  }

  /** A whole number is given a point and a nought, */
  lemma WholeNumber(d: string)
    requires Digits(d)
    ensures Parts(d, false, "", "").AsFloat().Spell() == d + ".0"
    ensures Parts(d, true, "", "").AsFloat().Spell() == d + ".0"
  {
    assert d + ("." + "0") + "" == d + ".0";
  }

  /** one with a fraction has it already, and is given a nought in front where it has none; */
  lemma WithFraction(d: string, f: string)
    requires Digits(d) && Digits(f)
    ensures Parts(d, true, f, "").AsFloat().Spell() == d + "." + f
    ensures Parts("", true, f, "").AsFloat().Spell() == "0." + f
  {
    assert d + ("." + f) + "" == d + "." + f && "0" + ("." + f) + "" == "0." + f;
  }

  /** and one with an exponent needs no point, but a nought behind a point that has nothing behind it. */
  lemma WithExponent(d: string, f: string, e: string)
    requires Digits(d) && Digits(f) && e != ""
    ensures Parts(d, false, "", e).AsFloat().Spell() == d + e
    ensures Parts(d, true, "", e).AsFloat().Spell() == d + ".0" + e
    ensures Parts(d, true, f, e).AsFloat().Spell() == d + "." + f + e
    ensures Parts("", true, f, e).AsFloat().Spell() == "0." + f + e
  {
    assert d + "" + e == d + e;
    assert d + ("." + "0") + e == d + ".0" + e;
    assert d + ("." + f) + e == d + "." + f + e && "0" + ("." + f) + e == "0." + f + e;
  }

  /** An exponent as it can be typed: a mark, a sign or none, and digits. */
  predicate Exponent(e: string) {
    |e| >= 2 && (e[0] == 'e' || e[0] == 'E')
    && (Digits(e[1..]) || ((e[1] == '-' || e[1] == '+') && Digits(e[2..])))
  }

  lemma DigitsAre(s: string)
    requires Digits(s)
    ensures forall i :: 0 <= i < |s| ==> IsDigit(s[i])
  {
  }

  lemma ExponentStands(e: string)
    requires Exponent(e)
    ensures StartsExponent(e, 0) && ExponentEnd(e, 0) == |e|
  {
    if Digits(e[1..]) {
      DigitsAre(e[1..]);
      assert e[1] == e[1..][0];
      forall m | 0 <= m < |e[2..]| ensures IsDigit(e[2..][m]) { assert e[2..][m] == e[1..][m + 1]; }
    } else {
      DigitsAre(e[2..]);
      assert e[2] == e[2..][0];
    }
    assert e[2..2 + |e[2..]|] == e[2..];
    SkipsAll(e[2..], e, 2);
  }

  /** Every number so typed is one number from end to end: digits, a point and more, an exponent. */
  lemma TypedNumbers(d: string, f: string, e: string)
    requires Digits(d) && Digits(f) && (e == "" || Exponent(e))
    ensures IsNumeral(d + e) && IsNumeral(d + "." + e) && IsNumeral(d + "." + f + e) && IsNumeral("." + f + e)
  {
    if e != "" { ExponentStands(e); }
    DigitsAre(d);
    DigitsAre(f);
    Spelt(Parts(d, false, "", e), d + e);
    Spelt(Parts(d, true, "", e), d + "." + e);
    Spelt(Parts(d, true, f, e), d + "." + f + e);
    Spelt(Parts("", true, f, e), "." + f + e);
  }

  lemma Spelt(p: Parts, s: string)
    requires p.Valid() && s == p.whole + (if p.point then "." + p.fraction else "") + p.exponent
    ensures IsNumeral(s)
  {
    SpeltIsNumeral(p);
  }

  /** A mark with no digits to follow is no exponent: the number ends before it. */
  lemma MarkAlone(d: string, e: char, rest: string)
    requires Digits(d) && (e == 'e' || e == 'E')
    requires rest != "" ==> !('0' <= rest[0] <= '9')
    requires |rest| > 1 && (rest[0] == '-' || rest[0] == '+') ==> !('0' <= rest[1] <= '9')
    ensures StartsNumber(d + [e] + rest, 0) && NumberEnd(d + [e] + rest, 0) == |d|
  {
    var s := d + [e] + rest;
    DigitsAre(d);
    assert s[0] == d[0] && s[|d|] == e && s[0..0 + |d|] == d;
    assert rest != "" ==> s[|d| + 1] == rest[0];
    assert |rest| > 1 ==> s[|d| + 2] == rest[1];
    SkipsAll(d, s, 0);
  }

  /** What numbers are worth: one and a half, and a hundred times that, and a hundredth. */
  lemma Worth()
    ensures Parts("1", true, "5", "").Value() == 1.5
    ensures Parts("1", true, "5", "e2").Value() == 150.0 && Parts("1", true, "5", "E+2").Value() == 150.0
    ensures Parts("1", true, "5", "e-2").Value() == 0.015
  {
    TwoDigits("1" + "5");
    OneDigit("5");
    OneDigit("2");
    assert "e2"[1..] == "2" && "E+2"[2..] == "2" && "e-2"[2..] == "2";
    Powers();
  }

  lemma OneDigit(s: string)
    requires |s| == 1 && IsDigit(s[0])
    ensures DigitsValue(s) == s[0] as int - '0' as int
  {
    assert s[..0] == "";
  }

  lemma TwoDigits(s: string)
    requires |s| == 2 && IsDigit(s[0]) && IsDigit(s[1])
    ensures DigitsValue(s) == 10 * (s[0] as int - '0' as int) + (s[1] as int - '0' as int)
  {
    OneDigit(s[..1]);
  }

  lemma Powers()
    ensures PowerOfTen(0) == 1.0 && PowerOfTen(1) == 10.0 && PowerOfTen(2) == 100.0 && PowerOfTen(-2) == 0.01
  {
    assert PowerOfTen(1) == 10.0 * PowerOfTen(0) && PowerOfTen(-1) == PowerOfTen(0) / 10.0;
    assert PowerOfTen(-2) == PowerOfTen(-1) / 10.0;
  }
}
