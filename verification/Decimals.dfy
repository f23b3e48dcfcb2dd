/** A decimal number as digits and a point, written out plainly or with an exponent, and read back. */
module Decimals {
  import opened Basics
  import opened Text

  /** How many of the digits come before the point may be less than none, or more than there are. */
  datatype Decimal = Decimal(negative: bool, digits: string, point: int)

  predicate AllDigits(s: string) {
    forall i :: 0 <= i < |s| ==> IsDigit(s[i])
  }

  function Zeros(n: nat): (z: string)
    ensures |z| == n && AllDigits(z)
  {
    seq(n, _ => '0')
  }

  /** Digits, and no nought in front of the first that counts. */
  predicate Neat(d: Decimal) {
    d.digits != "" && AllDigits(d.digits) && (|d.digits| > 1 ==> d.digits[0] != '0')
  }

  // ------------------------------------------------------------------ what it denotes

  function Number(s: string): nat
    requires AllDigits(s)
  {
    if s == "" then 0 else 10 * Number(s[..|s| - 1]) + (s[|s| - 1] as int - '0' as int)
  }

  /** The whole number the digits are, and the power of ten it is to be multiplied by. */
  function Exponent(d: Decimal): int {
    d.point - |d.digits|
  }

  /** The same number: the same sign, and the digits the same once they are brought to one power of ten. */
  predicate Same(d: Decimal, e: Decimal)
    requires AllDigits(d.digits) && AllDigits(e.digits)
  {
    && d.negative == e.negative
    && if Exponent(d) >= Exponent(e) then
         Times(Number(d.digits), Power(10, Exponent(d) - Exponent(e))) == Number(e.digits)
       else Times(Number(e.digits), Power(10, Exponent(e) - Exponent(d))) == Number(d.digits)
  }

  lemma {:induction false} TrailingZeros(s: string, n: nat)
    requires AllDigits(s)
    ensures AllDigits(s + Zeros(n)) && Number(s + Zeros(n)) == Times(Number(s), Power(10, n))
  {
    if n == 0 {
      assert s + Zeros(0) == s;
    } else {
      TrailingZeros(s, n - 1);
      assert (s + Zeros(n))[..|s| + n - 1] == s + Zeros(n - 1);
      TimesTen(Number(s), n);
    }
  }

  lemma TimesTen(a: nat, n: nat)
    requires n > 0
    ensures Times(a, Power(10, n)) == 10 * Times(a, Power(10, n - 1))
  {
    var p := Power(10, n - 1);
    assert a * (10 * p) == 10 * (a * p);
  }

  /** Noughts after the last digit, and the point where it was, are the same number. */
  lemma SameWithZeros(d: Decimal, n: nat)
    requires AllDigits(d.digits)
    ensures AllDigits(d.digits + Zeros(n)) && Same(d, d.(digits := d.digits + Zeros(n)))
  {
    TrailingZeros(d.digits, n);
  }

  // ---------------------------------------------------------------------- reading

  /** Where the exponent begins. */
  function Mantissa(s: string): (n: nat)
    ensures n <= |s| && (n < |s| ==> s[n] == 'e' || s[n] == 'E')
    ensures forall i :: 0 <= i < n ==> s[i] != 'e' && s[i] != 'E'
  {
    if s == "" || s[0] == 'e' || s[0] == 'E' then 0 else 1 + Mantissa(s[1..])
  }

  /** What is left without the points. */
  function Undotted(s: string): (t: string)
    ensures |t| <= |s|
  {
    if s == "" then "" else Undotted(s[..|s| - 1]) + if s[|s| - 1] == '.' then "" else [s[|s| - 1]]
  }

  /** How many digits come before the last point; -1 where there is none. */
  function Before(s: string): int {
    if s == "" then -1
    else if s[|s| - 1] == '.' then |Undotted(s[..|s| - 1])|
    else Before(s[..|s| - 1])
  }

  /** How many noughts to take off the front, one digit being left. */
  function Lead(s: string): (n: nat)
    ensures n <= |s| && (s != "" ==> n < |s|)
    ensures forall i :: 0 <= i < n ==> s[i] == '0'
    ensures |s| - n > 1 ==> s[n] != '0'
  {
    if |s| <= 1 || s[0] != '0' then 0 else 1 + Lead(s[1..])
  }

  /** As far as there are digits. */
  function NatFrom(s: string, n: nat): nat {
    if s == "" || !IsDigit(s[0]) then n else NatFrom(s[1..], 10 * n + (s[0] as int - '0' as int))
  }

  function NatOf(s: string): nat {
    NatFrom(s, 0)
  }

  /** The number an exponent is written as. */
  function IntOf(s: string): int {
    if s != "" && s[0] == '-' then 0 - NatOf(s[1..])
    else if s != "" && s[0] == '+' then NatOf(s[1..])
    else NatOf(s)
  }

  function Unsigned(s: string): string {
    if s != "" && (s[0] == '-' || s[0] == '+') then s[1..] else s
  }

  /** The number of a sign, of what comes before the exponent, and of the exponent with its letter, if any. */
  function Made(negative: bool, mantissa: string, exponent: string): Decimal {
    var all, before := Undotted(mantissa), Before(mantissa);
    var point := (if before < 0 then |all| else before) + if exponent != "" then IntOf(exponent[1..]) else 0;
    Decimal(negative, all[Lead(all)..], point - Lead(all))
  }

  function Read(text: string): Decimal {
    var s := Unsigned(text);
    Made(text != "" && text[0] == '-', s[..Mantissa(s)], s[Mantissa(s)..])
  }

  /** The digits before the exponent, how many come before the point, and where the exponent begins. */
  method Collect(s: string) returns (digits: string, before: int, p: nat)
    ensures p == Mantissa(s) && digits == Undotted(s[..p]) && before == Before(s[..p])
  {
    digits, before, p := "", -1, 0;
    while p < |s| && s[p] != 'e' && s[p] != 'E'
      invariant p <= |s| && Mantissa(s) == p + Mantissa(s[p..])
      invariant digits == Undotted(s[..p]) && before == Before(s[..p])
    {
      assert s[..p + 1][..p] == s[..p] && s[p..][1..] == s[p + 1..];
      if s[p] == '.' {
        before := |digits|;
      } else {
        digits := digits + [s[p]];
      }
      p := p + 1;
    }
  }

  method LeadingNoughts(digits: string) returns (lead: nat)
    ensures lead == Lead(digits)
  {
    lead := 0;
    while lead < |digits| - 1 && digits[lead] == '0'
      invariant lead <= |digits| && Lead(digits) == lead + Lead(digits[lead..])
    {
      assert digits[lead..][1..] == digits[lead + 1..];
      lead := lead + 1;
    }
  }

  method DigitsOf(text: string) returns (d: Decimal)
    ensures d == Read(text)
  {
    var s := Unsigned(text);
    var digits, before, p := Collect(s);
    var point := (if before < 0 then |digits| else before) + if p < |s| then IntOf(s[p + 1..]) else 0;
    assert p < |s| ==> s[p..][1..] == s[p + 1..];
    var lead := LeadingNoughts(digits);
    return Decimal(text != "" && text[0] == '-', digits[lead..], point - lead);
  }

  // ---------------------------------------------------------------------- writing

  predicate IsZero(d: Decimal) {
    d.digits == "0"
  }

  /** The whole part: the digits before the point, with noughts where there are not enough. */
  function WholePart(d: Decimal): string {
    if d.point <= 0 || IsZero(d) then "0"
    else if d.point <= |d.digits| then d.digits[..d.point]
    else d.digits + Zeros(d.point - |d.digits|)
  }

  /** The digits after the point, with noughts before them where it is before the first. */
  function Fraction(d: Decimal): string {
    if IsZero(d) || d.point >= |d.digits| then ""
    else if d.point < 0 then Zeros(0 - d.point) + d.digits
    else d.digits[d.point..]
  }

  function Padding(d: Decimal, decimals: nat): nat {
    if decimals > |Fraction(d)| then decimals - |Fraction(d)| else 0
  }

  function Plain(d: Decimal, decimals: nat): string {
    var fraction := Fraction(d) + Zeros(Padding(d, decimals));
    Sign(d.negative) + WholePart(d) + if fraction == "" then "" else "." + fraction
  }

  function Sign(negative: bool): string {
    if negative then "-" else ""
  }

  function ShowNat(n: nat): (s: string)
    ensures s != "" && AllDigits(s)
  {
    if n < 10 then [('0' as int + n) as char] else ShowNat(n / 10) + [('0' as int + n % 10) as char]
  }

  function ShowInt(n: int): string {
    if n < 0 then "-" + ShowNat(0 - n) else ShowNat(n)
  }

  function Scientific(d: Decimal): string
    requires d.digits != ""
  {
    Sign(d.negative) + [d.digits[0]] + (if |d.digits| > 1 then "." else "") + d.digits[1..] + "e" + ShowInt(d.point - 1)
  }

  // ------------------------------------------------------------------- there and back

  lemma {:induction false} NatFromMore(s: string, c: char, n: nat)
    requires AllDigits(s) && IsDigit(c)
    ensures NatFrom(s + [c], n) == 10 * NatFrom(s, n) + (c as int - '0' as int)
  {
    if s == "" {
      assert s + [c] == [c] && [c][1..] == "";
    } else {
      assert (s + [c])[1..] == s[1..] + [c];
      NatFromMore(s[1..], c, 10 * n + (s[0] as int - '0' as int));
    }
  }

  lemma {:induction false} ShowNatRead(n: nat)
    ensures NatOf(ShowNat(n)) == n
  {
    var c := ('0' as int + n % 10) as char;
    if n >= 10 {
      ShowNatRead(n / 10);
      NatFromMore(ShowNat(n / 10), c, 0);
    } else {
      NatFromMore("", c, 0);
      assert "" + [c] == [c];
    }
  }

  lemma ShowIntRead(n: int)
    ensures IntOf(ShowInt(n)) == n
  {
    ShowNatRead(if n < 0 then 0 - n else n);
    if n < 0 { assert ShowInt(n)[1..] == ShowNat(0 - n); }
  }

  lemma {:induction false} MantissaOf(s: string, rest: string)
    requires forall i :: 0 <= i < |s| ==> s[i] != 'e' && s[i] != 'E'
    requires rest == "" || rest[0] == 'e' || rest[0] == 'E'
    ensures Mantissa(s + rest) == |s|
  {
    if s == "" {
      assert s + rest == rest;
    } else {
      assert (s + rest)[1..] == s[1..] + rest;
      MantissaOf(s[1..], rest);
    }
  }

  lemma {:induction false} UndottedDigits(s: string, t: string)
    requires AllDigits(t)
    ensures Undotted(s + t) == Undotted(s) + t && Before(s + t) == Before(s)
  {
    if t == "" {
      assert s + t == s;
    } else {
      assert (s + t)[..|s + t| - 1] == s + t[..|t| - 1];
      UndottedDigits(s, t[..|t| - 1]);
      assert t == t[..|t| - 1] + [t[|t| - 1]];
    }
  }

  /** Digits, and perhaps a point and more digits. */
  lemma UndottedParts(a: string, b: string)
    requires AllDigits(a) && AllDigits(b)
    ensures Undotted(a) == a && Before(a) == -1
    ensures Undotted(a + "." + b) == a + b && Before(a + "." + b) == |a|
  {
    UndottedDigits("", a);
    assert "" + a == a;
    assert (a + ".")[..|a|] == a;
    UndottedDigits(a + ".", b);
    assert a + "" == a;
  }

  lemma {:induction false} LeadOf(z: nat, s: string)
    requires s != "" && (|s| > 1 ==> s[0] != '0')
    ensures Lead(Zeros(z) + s) == z
  {
    if z == 0 {
      assert Zeros(0) + s == s;
    } else {
      assert (Zeros(z) + s)[1..] == Zeros(z - 1) + s;
      LeadOf(z - 1, s);
    }
  }

  /** A text of a sign, a mantissa and an exponent. */
  lemma ReadParts(negative: bool, mantissa: string, exponent: string)
    requires mantissa != "" && forall i :: 0 <= i < |mantissa| ==> IsDigit(mantissa[i]) || mantissa[i] == '.'
    requires exponent == "" || exponent[0] == 'e'
    ensures Read(Sign(negative) + mantissa + exponent) == Made(negative, mantissa, exponent)
  {
    var text, s := Sign(negative) + mantissa + exponent, mantissa + exponent;
    Signed(negative, mantissa, exponent);
    MantissaOf(mantissa, exponent);
    assert s[..|mantissa|] == mantissa && s[|mantissa|..] == exponent;
  }

  lemma Signed(negative: bool, mantissa: string, exponent: string)
    requires mantissa != "" && (IsDigit(mantissa[0]) || mantissa[0] == '.')
    ensures var text := Sign(negative) + mantissa + exponent;
            Unsigned(text) == mantissa + exponent && text != "" && (text[0] == '-' <==> negative)
  {
    var text := Sign(negative) + mantissa + exponent;
    if negative {
      assert text == "-" + (mantissa + exponent);
    } else {
      assert text == mantissa + exponent;
    }
  }

  /** The number of digits with a point among them, or after them. */
  lemma MadeOf(negative: bool, whole: string, fraction: string, exponent: string, zeros: nat, all: string)
    requires whole != "" && AllDigits(whole) && AllDigits(fraction) && whole + fraction == Zeros(zeros) + all
    requires all != "" && (|all| > 1 ==> all[0] != '0') && (exponent == "" || exponent[0] == 'e')
    ensures var mantissa := if fraction == "" then whole else whole + "." + fraction;
            Read(Sign(negative) + mantissa + exponent)
            == Decimal(negative, all, |whole| + (if exponent == "" then 0 else IntOf(exponent[1..])) - zeros)
  {
    var mantissa := if fraction == "" then whole else whole + "." + fraction;
    ReadParts(negative, mantissa, exponent);
    MantissaParts(whole, fraction);
    LeadOf(zeros, all);
    assert (Zeros(zeros) + all)[zeros..] == all;
  }

  lemma MantissaParts(whole: string, fraction: string)
    requires AllDigits(whole) && AllDigits(fraction)
    ensures var mantissa := if fraction == "" then whole else whole + "." + fraction;
            && Undotted(mantissa) == whole + fraction
            && Before(mantissa) == if fraction == "" then -1 else |whole|
  {
    UndottedParts(whole, fraction);
    assert whole + "" == whole;
  }

  lemma SignedNat(sign: string, n: nat)
    requires sign in ["", "+", "-"]
    ensures IntOf(sign + ShowNat(n)) == if sign == "-" then 0 - n else n
  {
    ShowNatRead(n);
    if sign == "" {
      assert sign + ShowNat(n) == ShowNat(n);
    } else {
      assert (sign + ShowNat(n))[1..] == ShowNat(n);
    }
  }

  lemma UnsignedFront(m: string, tail: string)
    requires m != ""
    ensures Unsigned(m + tail) == Unsigned(m) + tail && m + tail != "" && (m + tail)[0] == m[0]
    ensures forall i :: 0 <= i < |Unsigned(m)| ==> Unsigned(m)[i] in m
  {
  }

  lemma TailSplits(u: string, tail: string)
    requires forall i :: 0 <= i < |u| ==> u[i] != 'e' && u[i] != 'E'
    requires tail == "" || tail[0] == 'e' || tail[0] == 'E'
    ensures (u + tail)[..Mantissa(u + tail)] == u && (u + tail)[Mantissa(u + tail)..] == tail
  {
    MantissaOf(u, tail);
  }

  lemma ReadTail(m: string, tail: string)
    requires m != "" && (forall i :: 0 <= i < |m| ==> m[i] != 'e' && m[i] != 'E')
    requires tail == "" || tail[0] == 'e' || tail[0] == 'E'
    ensures Read(m + tail) == Made(m[0] == '-', Unsigned(m), tail)
  {
    UnsignedFront(m, tail);
    TailSplits(Unsigned(m), tail);
  }

  lemma MadeShifts(negative: bool, mantissa: string, tail: string)
    requires tail != ""
    ensures var plain := Made(negative, mantissa, "");
            Made(negative, mantissa, tail) == plain.(point := plain.point + IntOf(tail[1..]))
  {
  }

  /** An exponent only moves the point: on by so many, or with a plus, or back by so many with a minus. */
  lemma ExponentShifts(m: string, e: char, sign: string, n: nat, text: string)
    requires m != "" && (forall i :: 0 <= i < |m| ==> m[i] != 'e' && m[i] != 'E')
    requires (e == 'e' || e == 'E') && sign in ["", "+", "-"] && text == m + ([e] + (sign + ShowNat(n)))
    ensures Read(text) == Read(m).(point := Read(m).point + if sign == "-" then 0 - n else n)
  {
    var tail := [e] + (sign + ShowNat(n));
    assert tail[1..] == sign + ShowNat(n);
    SignedNat(sign, n);
    ReadTail(m, tail);
    ReadTail(m, "");
    assert m + "" == m;
    MadeShifts(m[0] == '-', Unsigned(m), tail);
  }

  /** Read back from its exponent form a number is exactly as it was. */
  lemma ScientificRead(d: Decimal)
    requires Neat(d)
    ensures Read(Scientific(d)) == d
  {
    var first, rest, e := [d.digits[0]], d.digits[1..], "e" + ShowInt(d.point - 1);
    assert first + rest == d.digits == Zeros(0) + d.digits;
    ScientificParts(d);
    MadeOf(d.negative, first, rest, e, 0, d.digits);
    assert e[1..] == ShowInt(d.point - 1);
    ShowIntRead(d.point - 1);
  }

  lemma ScientificParts(d: Decimal)
    requires d.digits != ""
    ensures var first, rest, e := [d.digits[0]], d.digits[1..], "e" + ShowInt(d.point - 1);
            Scientific(d) == Sign(d.negative) + (if rest == "" then first else first + "." + rest) + e
  {
    var first, rest, e := [d.digits[0]], d.digits[1..], "e" + ShowInt(d.point - 1);
    Regrouped(Sign(d.negative), first, if rest == "" then "" else ".", rest, "e", ShowInt(d.point - 1));
    assert rest == "" ==> first + "" + rest == first;
  }

  lemma Regrouped(a: string, b: string, c: string, d: string, e: string, f: string)
    ensures a + b + c + d + e + f == a + (b + c + d) + (e + f)
  {
  }

  /** What plain writing puts before the digits. */
  function Noughts(d: Decimal): nat {
    if d.point <= 0 then 1 - d.point else 0
  }

  /** And after them. */
  function After(d: Decimal, decimals: nat): nat {
    (if d.point > |d.digits| then d.point - |d.digits| else 0) + Padding(d, decimals)
  }

  /** Read back from its plain form a number has its digits again, with any noughts that were put after them. */
  lemma PlainRead(d: Decimal, decimals: nat)
    requires Neat(d) && !IsZero(d)
    ensures Read(Plain(d, decimals)) == d.(digits := d.digits + Zeros(After(d, decimals)))
  {
    PlainDigits(d, decimals);
    MadeOf(d.negative, WholePart(d), Fraction(d) + Zeros(Padding(d, decimals)), "",
           Noughts(d), d.digits + Zeros(After(d, decimals)));
    PlainParts(d, decimals);
  }

  lemma PlainParts(d: Decimal, decimals: nat)
    ensures var fraction := Fraction(d) + Zeros(Padding(d, decimals));
            Plain(d, decimals)
            == Sign(d.negative) + (if fraction == "" then WholePart(d) else WholePart(d) + "." + fraction) + ""
  {
    var fraction := Fraction(d) + Zeros(Padding(d, decimals));
    assert Sign(d.negative) + WholePart(d) + ("." + fraction)
           == Sign(d.negative) + (WholePart(d) + "." + fraction) + "";
    assert Sign(d.negative) + WholePart(d) + "" == Sign(d.negative) + WholePart(d);
  }

  lemma PlainDigits(d: Decimal, decimals: nat)
    requires Neat(d) && !IsZero(d)
    ensures var all := d.digits + Zeros(After(d, decimals));
            && WholePart(d) + (Fraction(d) + Zeros(Padding(d, decimals))) == Zeros(Noughts(d)) + all
            && |WholePart(d)| == d.point + Noughts(d) && (|all| > 1 ==> all[0] != '0')
            && AllDigits(WholePart(d)) && AllDigits(Fraction(d) + Zeros(Padding(d, decimals)))
  {
    var pad := Zeros(Padding(d, decimals));
    if d.point <= 0 {
      assert Zeros(Noughts(d)) == "0" + Zeros(0 - d.point);
      assert Fraction(d) == Zeros(0 - d.point) + d.digits;
    } else if d.point <= |d.digits| {
      assert d.digits == d.digits[..d.point] + d.digits[d.point..];
    } else {
      assert Zeros(d.point - |d.digits|) + pad == Zeros(After(d, decimals));
    }
  }

  /** Nought is written with as many noughts after the point as asked for, and is read back as nought. */
  lemma PlainZeroRead(d: Decimal, decimals: nat)
    requires IsZero(d)
    ensures Read(Plain(d, decimals)) == Decimal(d.negative, "0", 1 - decimals)
  {
    assert "0" + Zeros(decimals) == Zeros(decimals) + "0";
    assert Fraction(d) + Zeros(Padding(d, decimals)) == Zeros(decimals);
    MadeOf(d.negative, "0", Zeros(decimals), "", decimals, "0");
    PlainParts(d, decimals);
  }

  /** Both ways of writing denote the number, however the fraction is padded. */
  lemma WrittenIsSame(d: Decimal, decimals: nat)
    requires Neat(d)
    ensures var p, e := Read(Plain(d, decimals)), Read(Scientific(d));
            Neat(p) && Neat(e) && Same(p, d) && Same(e, d)
  {
    ScientificRead(d);
    TrailingZeros(d.digits, 0);
    SameWithZeros(d, 0);
    assert d.digits + Zeros(0) == d.digits;
    if IsZero(d) {
      PlainZeroRead(d, decimals);
      assert Number("0") == 0 by { assert "0"[..0] == ""; }
    } else {
      PlainRead(d, decimals);
      SameWithZeros(d, After(d, decimals));
    }
  }

  /** However a number is read, no nought is in front of the first digit that counts. */
  lemma ReadIsNeat(text: string)
    ensures var d := Read(text); |d.digits| > 1 ==> d.digits[0] != '0'
  {
  }

  // ------------------------------------------------------------------ in a buffer


  /** The whole part, or as much of it as there is room for. */
  method WriteWhole(d: Decimal, out: array<char>, cap: nat, at: nat) returns (len: nat, k: nat)
    requires cap <= out.Length && at + 1 < cap
    modifies out
    ensures k <= |WholePart(d)| && len < cap && (k == |WholePart(d)| || len + 1 >= cap)
    ensures out[..len] == old(out[..at]) + WholePart(d)[..k]
  {
    len, k := at, 0;
    ghost var text := WholePart(d);
    if d.point <= 0 || IsZero(d) {
      out[len] := '0';
      len, k := len + 1, 1;
      assert out[..len] == old(out[..at]) + "0";
      return;
    }
    while k < d.point && len + 1 < cap
      invariant k <= d.point && len == at + k && len < cap
      invariant out[..len] == old(out[..at]) + text[..k]
    {
      out[len] := if k < |d.digits| then d.digits[k] else '0';
      assert out[..len + 1] == out[..len] + [text[k]];
      len, k := len + 1, k + 1;
    }
  }

  function Dotted(s: string): string {
    if s == "" then "" else "." + s
  }

  /** One digit of the fraction, and the point before it if it is the first. */
  method WriteDigit(c: char, first: bool, out: array<char>, at: nat) returns (len: nat)
    requires at + 2 <= out.Length
    modifies out
    ensures len == at + if first then 2 else 1
    ensures out[..len] == old(out[..at]) + (if first then "." else "") + [c]
  {
    len := at;
    if first {
      out[len] := '.';
      len := len + 1;
      assert out[..len] == old(out[..at]) + ".";
    }
    out[len] := c;
    len := len + 1;
  }

  lemma DottedMore(written: string, before: string, text: string, k: nat)
    requires k < |text| && written == before + Dotted(text[..k])
    ensures written + (if k == 0 then "." else "") + [text[k]] == before + Dotted(text[..k + 1])
  {
    assert text[..k + 1] == text[..k] + [text[k]];
  }

  /** What is to be written after the point, digit for digit. */
  ghost predicate IsFraction(d: Decimal, text: string) {
    && |text| == (if d.point < |d.digits| then |d.digits| - d.point else 0)
    && forall k :: 0 <= k < |text| ==> text[k] == if d.point + k < 0 then '0' else d.digits[d.point + k]
  }

  lemma FractionIs(d: Decimal)
    requires !IsZero(d)
    ensures IsFraction(d, Fraction(d))
  {
  }

  /** The digits after the point, with noughts before them where it is before the first. */
  method WriteDigits(d: Decimal, ghost text: string, out: array<char>, cap: nat, at: nat)
    returns (len: nat, fraction: nat)
    requires cap <= out.Length && at < cap && IsFraction(d, text)
    modifies out
    ensures fraction <= |text| && len < cap && (fraction == |text| || len + 2 >= cap)
    ensures fraction > 0 ==> at + 2 < cap
    ensures out[..len] == old(out[..at]) + Dotted(text[..fraction])
  {
    len, fraction := at, 0;
    var i := d.point;
    ghost var before, written := out[..at], out[..at];
    while i < |d.digits| && len + 2 < cap
      invariant i == d.point + fraction && fraction <= |text| && len < cap
      invariant if fraction == 0 then len == at else at + 2 < cap
      invariant out[..len] == written == before + Dotted(text[..fraction])
    {
      DottedMore(written, before, text, fraction);
      len := WriteDigit(if i < 0 then '0' else d.digits[i], fraction == 0, out, len);
      i, fraction := i + 1, fraction + 1;
      written := before + Dotted(text[..fraction]);
    }
  }

  method WriteFraction(d: Decimal, out: array<char>, cap: nat, at: nat) returns (len: nat, fraction: nat)
    requires cap <= out.Length && at < cap
    modifies out
    ensures fraction <= |Fraction(d)| && len < cap && (fraction == |Fraction(d)| || len + 2 >= cap)
    ensures fraction > 0 ==> at + 2 < cap
    ensures out[..len] == old(out[..at]) + Dotted(Fraction(d)[..fraction])
  {
    if IsZero(d) {
      return at, 0;
    }
    FractionIs(d);
    len, fraction := WriteDigits(d, Fraction(d), out, cap, at);
  }

  /** Noughts to make the fraction as long as is asked for. */
  method WritePadding(from: nat, decimals: nat, out: array<char>, cap: nat, at: nat) returns (len: nat, ghost more: nat)
    requires cap <= out.Length && at < cap
    modifies out
    ensures var all := if decimals > from then decimals - from else 0;
            more <= all && len < cap && (more == all || len + 2 >= cap)
    ensures more > 0 ==> at + 2 < cap
    ensures out[..len] == old(out[..at]) + if from == 0 then Dotted(Zeros(more)) else Zeros(more)
  {
    len, more := at, 0;
    var fraction := from;
    while fraction < decimals && len + 2 < cap
      invariant fraction == from + more && (fraction <= decimals || more == 0) && len < cap
      invariant more > 0 ==> at + 2 < cap
      invariant len == at + more + if from == 0 && more > 0 then 1 else 0
      invariant out[..len] == old(out[..at]) + if from == 0 then Dotted(Zeros(more)) else Zeros(more)
    {
      assert Zeros(more + 1) == Zeros(more) + "0";
      assert from == 0 ==> Zeros(more + 1)[..more] == Zeros(more);
      if from == 0 { DottedMore(out[..len], old(out[..at]), Zeros(more + 1), more); }
      len := WriteDigit('0', fraction == 0, out, len);
      fraction, more := fraction + 1, more + 1;
    }
  }

  /** So many of the digits of each part. */
  function Part(d: Decimal, k: nat, fraction: nat, more: nat): string
    requires k <= |WholePart(d)| && fraction <= |Fraction(d)|
  {
    Sign(d.negative) + WholePart(d)[..k] + Dotted(Fraction(d)[..fraction])
    + if fraction == 0 then Dotted(Zeros(more)) else Zeros(more)
  }

  /** Where nothing follows a part that is not all there, what there is is a beginning of the plain form. */
  lemma PartBegins(d: Decimal, decimals: nat, k: nat, fraction: nat, more: nat)
    requires k <= |WholePart(d)| && fraction <= |Fraction(d)| && more <= Padding(d, decimals)
    requires (k < |WholePart(d)| ==> fraction == 0 && more == 0) && (fraction < |Fraction(d)| ==> more == 0)
    ensures var now, all := Part(d, k, fraction, more), Plain(d, decimals);
            |now| <= |all| && now == all[..|now|]
    ensures k == |WholePart(d)| && fraction == |Fraction(d)| && more == Padding(d, decimals)
            ==> Part(d, k, fraction, more) == Plain(d, decimals)
  {
    if k < |WholePart(d)| {
      WholeBegins(Sign(d.negative), WholePart(d), k, Dotted(Fraction(d) + Zeros(Padding(d, decimals))));
    } else {
      RestBegins(d, decimals, fraction, more);
    }
  }

  lemma RestBegins(d: Decimal, decimals: nat, fraction: nat, more: nat)
    requires fraction <= |Fraction(d)| && more <= Padding(d, decimals) && (fraction < |Fraction(d)| ==> more == 0)
    ensures var now, all := Part(d, |WholePart(d)|, fraction, more), Plain(d, decimals);
            && |now| <= |all| && now == all[..|now|]
            && (fraction == |Fraction(d)| && more == Padding(d, decimals) ==> now == all)
  {
    var f, front := Fraction(d), Sign(d.negative) + WholePart(d);
    var all := Dotted(f + Zeros(Padding(d, decimals)));
    var back := Dotted(f[..fraction]) + if fraction == 0 then Dotted(Zeros(more)) else Zeros(more);
    assert WholePart(d)[..|WholePart(d)|] == WholePart(d);
    assert Part(d, |WholePart(d)|, fraction, more) == front + back;
    FractionBegins(f, Padding(d, decimals), fraction, more);
    BeginsAfter(front, back, all);
  }

  lemma WholeBegins(sign: string, whole: string, k: nat, all: string)
    requires k <= |whole|
    ensures sign + whole[..k] == (sign + whole + all)[..|sign| + k]
  {
  }

  lemma BeginsAfter(front: string, back: string, all: string)
    requires |back| <= |all| && back == all[..|back|]
    ensures front + back == (front + all)[..|front + back|]
  {
  }

  lemma FractionBegins(f: string, padding: nat, fraction: nat, more: nat)
    requires fraction <= |f| && more <= padding && (fraction < |f| ==> more == 0)
    ensures var back := Dotted(f[..fraction]) + if fraction == 0 then Dotted(Zeros(more)) else Zeros(more);
            var all := Dotted(f + Zeros(padding));
            |back| <= |all| && back == all[..|back|] && (fraction == |f| && more == padding ==> back == all)
  {
    assert Zeros(more) == Zeros(padding)[..more];
    if fraction < |f| {
      assert (f + Zeros(padding))[..fraction] == f[..fraction];
    } else {
      assert f[..fraction] == f;
      assert f == "" ==> f + Zeros(padding) == Zeros(padding);
    }
  }

  /** In the buffer there is a beginning of the plain form: all of it, where there are two places to spare. */
  method WritePlain(d: Decimal, decimals: nat, out: array<char>, cap: nat) returns (len: nat)
    requires 3 <= cap <= out.Length
    modifies out
    ensures len < cap && out[len] == NUL && len <= |Plain(d, decimals)| && out[..len] == Plain(d, decimals)[..len]
    ensures cap >= |Plain(d, decimals)| + 2 ==> out[..len] == Plain(d, decimals)
  {
    len := 0;
    if d.negative {
      out[0] := '-';
      len := 1;
    }
    assert out[..len] == Sign(d.negative);
    var k, fraction;
    ghost var more;
    len, k := WriteWhole(d, out, cap, len);
    len, fraction := WriteFraction(d, out, cap, len);
    len, more := WritePadding(fraction, decimals, out, cap, len);
    assert out[..len] == Part(d, k, fraction, more);
    PartBegins(d, decimals, k, fraction, more);
    out[len] := NUL;
    assert out[..len] == Part(d, k, fraction, more);
  }
}
