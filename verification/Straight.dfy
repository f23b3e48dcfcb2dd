/** What Brent's method makes of a straight line: the first look is at where it crosses the axis. */
module Straight {
  import opened Basics
  import opened Brent
  import Steps

  /** The line of that slope that crosses the axis at z. */
  ghost predicate IsLine(f: Curve, k: real, z: real) {
    forall x :: f(x) == Some(Brent.Times(k, x - z))
  }

  lemma ToleranceIs(b: real)
    ensures Tolerance(b) == Magnitude(b) / 2251799813685248.0 + 1e-300
  {
  }

  /** On opposite sides of the axis: one above it, and the other below it or on it. */
  lemma OppositeIs(y: real, z: real)
    ensures Opposite(y, z) <==> (y > 0.0 && z <= 0.0) || (y <= 0.0 && z > 0.0)
  {
  }

  /** It stops exactly where the two ends are no more than two tolerances apart, or it is at a root. */
  lemma NearExactly(s: State)
    ensures Near(s) <==> Magnitude(s.c - s.b) <= 2.0 * Tolerance(s.b) || s.fb == 0.0
  {
  }

  /** Arranging: where c is no longer on the other side of the axis, a takes its place, and the steps before are taken
      to have been the way from there; the ends change about only where that leaves b strictly better. */
  lemma ArrangedAs(s: State)
    requires CanBracket(s)
    ensures var t, other := Arranged(s), !Opposite(s.fb, s.fc);
            var c, fc := if other then s.a else s.c, if other then s.fa else s.fc;
            && (if other then t.d == s.b - s.a && t.e == s.b - s.a else t.d == s.d && t.e == s.e)
            && (if Magnitude(fc) < Magnitude(s.fb) then
                  t.b == c && t.fb == fc && t.c == s.b && t.fc == s.fb && t.a == s.b && t.fa == s.fb
                else
                  t.b == s.b && t.fb == s.fb && t.c == c && t.fc == fc && t.a == s.a && t.fa == s.fa)
  {
  }

  /** A tolerance off, the tolerance is nearly the same. */
  lemma ToleranceNearby(b: real, x: real)
    requires Magnitude(x - b) <= Tolerance(b)
    ensures Tolerance(b) <= 2.0 * Tolerance(x)
  {
  }

  lemma Side(k: real, x: real)
    ensures Brent.Times(k, x) > 0.0 <==> (k > 0.0 && x > 0.0) || (k < 0.0 && x < 0.0)
    ensures Brent.Times(k, x) == 0.0 <==> k == 0.0 || x == 0.0
  {
    if k > 0.0 {
      Steps.Scaled(0.0, x, k);
      Steps.Scaled(x, 0.0, k);
    } else if k < 0.0 {
      Steps.Scaled(0.0, x, 0.0 - k);
      Steps.Scaled(x, 0.0, 0.0 - k);
    }
  }

  lemma FartherIsHigher(k: real, x: real, y: real)
    requires k != 0.0
    ensures Magnitude(Brent.Times(k, x)) < Magnitude(Brent.Times(k, y)) <==> Magnitude(x) < Magnitude(y)
  {
    var j := Magnitude(k);
    Steps.MagnitudeScaled(x, j);
    Steps.MagnitudeScaled(y, j);
    Steps.Scaled(Magnitude(x), Magnitude(y), j);
    Either(k, x);
    Either(k, y);
  }

  lemma Either(k: real, x: real)
    ensures Magnitude(Brent.Times(k, x)) == Magnitude(Brent.Times(x, Magnitude(k)))
  {
    assert Brent.Times(0.0 - k, x) == 0.0 - Brent.Times(k, x);
  }

  /** The three points carried along are on the line. */
  predicate OnLine(s: State, k: real, z: real) {
    && s.fa == Brent.Times(k, s.a - z) && s.fb == Brent.Times(k, s.b - z) && s.fc == Brent.Times(k, s.c - z)
  }

  lemma LineBetween(s: State, k: real, z: real)
    requires Opposite(s.fb, s.fc) && OnLine(s, k, z)
    ensures k != 0.0 && s.b != s.c && Between(s.b, z, s.c) && (s.fb == 0.0 <==> s.b == z)
  {
    Side(k, s.b - z);
    Side(k, s.c - z);
  }

  lemma ChordOfLine(b: real, c: real, fb: real, fc: real, k: real, z: real, d: real)
    requires k != 0.0 && b != c && fb == Brent.Times(k, b - z) && fc == Brent.Times(k, c - z)
    requires d * (fc - fb) == 0.0 - fb * (c - b)
    ensures d == z - b
  {
    var w, rise := d - (z - b), k * (c - b);
    assert rise != 0.0 by { Side(k, c - b); }
    assert fc - fb == rise && w * rise == 0.0;
    Steps.Cancelled(w, rise);
  }

  /** Just arranged, with only two points to go by. */
  predicate TwoPoints(s: State) {
    Brackets(s) && s.a == s.c && s.fa == s.fc && Magnitude(s.e) == Magnitude(s.c - s.b)
  }

  lemma FirstArranged(a: real, b: real, fa: real, fb: real, k: real, z: real)
    requires Opposite(fa, fb) && fa == Brent.Times(k, a - z) && fb == Brent.Times(k, b - z)
    ensures var s := Arranged(Start(a, b, fa, fb)); TwoPoints(s) && OnLine(s, k, z)
  {
  }

  /** The look is at the crossing itself, or at most a tolerance past it. */
  predicate Lands(s: State, x: real, z: real) {
    x == z || (StrictlyBetween(s.b, z, x) && Magnitude(x - s.b) == Tolerance(s.b))
  }

  lemma LandsInMiddle(s: State, k: real, z: real)
    requires TwoPoints(s) && !Near(s) && OnLine(s, k, z) && !Steps.Tried(s, Tolerance(s.b))
    ensures PointFrom(s) == z
  {
    LineBetween(s, k, z);
    FartherIsHigher(k, s.b - z, s.c - z);
    FartherIsHigher(k, s.c - z, s.b - z);
    Steps.Bisects(s);
  }

  lemma ChordOf(s: State, k: real, z: real, d: real)
    requires s.b != s.c && OnLine(s, k, z) && k != 0.0 && d * (s.fc - s.fb) == 0.0 - s.fb * (s.c - s.b)
    ensures d == z - s.b
  {
    ChordOfLine(s.b, s.c, s.fb, s.fc, k, z, d);
  }

  lemma LandsOnChord(s: State, k: real, z: real)
    requires TwoPoints(s) && !Near(s) && OnLine(s, k, z) && Steps.Tried(s, Tolerance(s.b))
    ensures Lands(s, PointFrom(s), z)
  {
    LineBetween(s, k, z);
    FartherIsHigher(k, s.b - z, s.c - z);
    var d := Steps.ToTheChord(s);
    ChordOf(s, k, z, d);
    TakenOnLine(s, z, d);
  }

  lemma TakenOnLine(s: State, z: real, d: real)
    requires TwoPoints(s) && !Near(s) && d == z - s.b && d != 0.0 && Steps.Goes(s, d, d)
    requires Between(s.b, z, s.c) && Magnitude(s.b - z) < Magnitude(s.c - z)
    ensures Lands(s, PointFrom(s), z)
  {
    var m, tol := 0.5 * (s.c - s.b), Tolerance(s.b);
    assert Steps.SameWay(d, m) && Steps.Allowed(d, m, tol, s.e);
  }

  /** After that look the method stops, and not two tolerances off. */
  lemma StopsThere(s: State, k: real, z: real, x: real, fx: real)
    requires Brackets(s) && !Near(s) && OnLine(s, k, z) && k != 0.0
    requires x == PointFrom(s) && Lands(s, x, z) && fx == Brent.Times(k, x - z)
    ensures var t := Arranged(Looked(s, fx)); Near(t) && Magnitude(t.b - z) <= 2.0 * Tolerance(t.b)
  {
    var u := Looked(s, fx);
    var t := Arranged(u);
    Side(k, x - z);
    if x == z {
      assert t.b == z && t.fb == 0.0;
    } else {
      Side(k, s.b - z);
      Side(k, s.c - z);
      assert !Opposite(u.fb, u.fc);
      ToleranceNearby(s.b, x);
    }
  }

  lemma OneLook(f: Curve, s: State, k: real, z: real, times: nat)
    requires IsLine(f, k, z) && CanBracket(s) && TwoPoints(Arranged(s)) && OnLine(Arranged(s), k, z) && times >= 2
    requires !Near(Arranged(s))
    ensures var c := Ran(f, s, times);
            c.end.Root? && |c.looks| == 1 && Magnitude(c.end.x - z) <= 2.0 * Tolerance(c.end.x)
  {
    var t := Arranged(s);
    var x := PointFrom(t);
    LineBetween(t, k, z);
    if Steps.Tried(t, Tolerance(t.b)) { LandsOnChord(t, k, z); } else { LandsInMiddle(t, k, z); }
    var fx := Brent.Times(k, x - z);
    assert f(x) == Some(fx);
    StopsThere(t, k, z, x, fx);
    EndsThere(f, Looked(t, fx), times - 1);
    OpenRan(f, s, times);
  }

  lemma EndsThere(f: Curve, s: State, times: nat)
    requires CanBracket(s) && Near(Arranged(s)) && times > 0
    ensures Ran(f, s, times) == Course(Root(Arranged(s).b), [])
  {
    OpenRan(f, s, times);
  }

  /** Of any straight line between two points either side of the axis, the crossing is found with one look at most, to
      within two tolerances. */
  lemma StraightLine(f: Curve, a: real, b: real, fa: real, fb: real, k: real, z: real, times: nat)
    requires f(a) == Some(fa) && f(b) == Some(fb) && Opposite(fa, fb) && IsLine(f, k, z) && times >= 2
    ensures var c := Ran(f, Start(a, b, fa, fb), times);
            c.end.Root? && |c.looks| <= 1 && Magnitude(c.end.x - z) <= 2.0 * Tolerance(c.end.x)
  {
    var s := Start(a, b, fa, fb);
    var t := Arranged(s);
    FirstArranged(a, b, fa, fb, k, z);
    LineBetween(t, k, z);
    if Near(t) {
      EndsThere(f, s, times);
    } else {
      OneLook(f, s, k, z, times);
    }
  }
}
