/** Where a step of Brent's method goes, and what comes of a straight line. */
module Steps {
  import opened Basics
  import opened Brent

  // ------------------------------------------------------------ arithmetic of one step

  lemma Scaled(x: real, y: real, q: real)
    requires q > 0.0
    ensures x < y <==> Brent.Times(x, q) < Brent.Times(y, q)
  {
    if x < y {
      assert (y - x) * q > 0.0;
    } else {
      assert (x - y) * q >= 0.0;
    }
  }

  lemma MagnitudeScaled(x: real, q: real)
    requires q > 0.0
    ensures Magnitude(Brent.Times(x, q)) == Brent.Times(Magnitude(x), q)
  {
    if x >= 0.0 {
      assert x * q >= 0.0;
    } else {
      assert (0.0 - x) * q > 0.0;
    }
  }

  lemma Apart(x: real, y: real, q: real)
    ensures Brent.Times(x - y, q) == Brent.Times(x, q) - Brent.Times(y, q)
  {
  }

  /** Short enough, told from the step and not from its two parts. */
  lemma ShortUpwards(p: real, q: real, m: real, tol: real, e: real, d: real)
    requires p >= 0.0 && q > 0.0 && tol > 0.0 && p == Brent.Times(d, q)
    ensures Short(p, q, m, tol, e) <==> 2.0 * d < 3.0 * m - tol && 2.0 * d < Magnitude(e)
  {
    assert 2.0 * p == Brent.Times(2.0 * d, q);
    MagnitudeScaled(tol, q);
    MagnitudeScaled(e, q);
    Apart(3.0 * m, tol, q);
    Scaled(2.0 * d, 3.0 * m - tol, q);
    Scaled(2.0 * d, Magnitude(e), q);
  }

  lemma Mirrored(x: real, q: real)
    ensures Brent.Times(0.0 - x, 0.0 - q) == Brent.Times(x, q)
  {
  }

  lemma ShortMirrored(p: real, q: real, m: real, tol: real, e: real)
    ensures Short(p, q, m, tol, e) <==> Short(p, 0.0 - q, 0.0 - m, tol, e)
  {
    Mirrored(3.0 * m, q);
    assert Brent.Times(tol, 0.0 - q) == 0.0 - Brent.Times(tol, q);
    assert Brent.Times(e, 0.0 - q) == 0.0 - Brent.Times(e, q);
    assert 3.0 * (0.0 - m) == 0.0 - 3.0 * m;
  }

  /** The step is taken: towards c, less than three quarters of the way, and less than half the step before last. */
  predicate Allowed(d: real, m: real, tol: real, e: real) {
    2.0 * Magnitude(d) < 3.0 * Magnitude(m) - tol && 2.0 * Magnitude(d) < Magnitude(e)
  }

  predicate SameWay(x: real, y: real) {
    (x > 0.0 && y > 0.0) || (x < 0.0 && y < 0.0)
  }

  lemma NotShortOtherWay(p: real, q: real, m: real, tol: real, e: real)
    requires p >= 0.0 && tol > 0.0 && !SameWay(q, m)
    ensures !Short(p, q, m, tol, e)
  {
    assert Brent.Times(3.0 * m, q) <= 0.0 by {
      if q > 0.0 { assert (0.0 - m) * q >= 0.0; } else if q < 0.0 { assert m * (0.0 - q) >= 0.0; }
    }
  }

  lemma ShortExactly(p: real, q: real, m: real, tol: real, e: real, d: real)
    requires p >= 0.0 && q != 0.0 && tol > 0.0 && p == Brent.Times(d, q)
    ensures Short(p, q, m, tol, e) <==> SameWay(q, m) && Allowed(d, m, tol, e)
  {
    if !SameWay(q, m) {
      NotShortOtherWay(p, q, m, tol, e);
    } else if q > 0.0 {
      Scaled(d, 0.0, q);
      ShortUpwards(p, q, m, tol, e, d);
    } else {
      Mirrored(d, q);
      Scaled(0.0 - d, 0.0, 0.0 - q);
      ShortMirrored(p, q, m, tol, e);
      ShortUpwards(p, 0.0 - q, 0.0 - m, tol, e, 0.0 - d);
    }
  }

  // ----------------------------------------------------------------- where a step goes

  /** Interpolation is tried: the step before last was long enough, and the last made things better. */
  predicate Tried(s: State, tol: real) {
    Magnitude(s.e) >= tol && Magnitude(s.fa) > Magnitude(s.fb)
  }

  /** A step of d from b, where it is allowed, and goes towards c; a step of nothing goes where q has it go. */
  ghost predicate Goes(s: State, d: real, q: real)
    requires Brackets(s) && !Near(s)
  {
    var m, tol := 0.5 * (s.c - s.b), Tolerance(s.b);
    var way := if d == 0.0 then q else d;
    if SameWay(way, m) && Allowed(d, m, tol, s.e) then
      && MoveFrom(s) == Move(d, s.d)
      && PointFrom(s) == s.b + if Magnitude(d) > tol then d else if s.c > s.b then tol else 0.0 - tol
    else MoveFrom(s) == Move(m, m) && PointFrom(s) == s.b + m
  }

  /** Where it is not tried, the next point is the middle. */
  lemma Bisects(s: State)
    requires Brackets(s) && !Near(s) && !Tried(s, Tolerance(s.b))
    ensures PointFrom(s) == (s.b + s.c) / 2.0 && MoveFrom(s) == Move((s.c - s.b) / 2.0, (s.c - s.b) / 2.0)
  {
    OpenStep(s);
  }

  predicate Asked(s: State, m: real, p: real, q: real) {
    s.fa != 0.0 && s.fc != 0.0 && Interpolated(s, m).0 == p && Interpolated(s, m).1 == q
  }

  /** What is asked for is p over q the other way; it is taken or left whole. */
  lemma GoesAsAsked(s: State, p: real, q: real, d: real)
    requires Brackets(s) && !Near(s) && Tried(s, Tolerance(s.b)) && q != 0.0
    requires Asked(s, 0.5 * (s.c - s.b), p, q) && p == Brent.Times(d, 0.0 - q)
    ensures Goes(s, d, q)
  {
    var m, tol := 0.5 * (s.c - s.b), Tolerance(s.b);
    var t := Turned(p, q);
    OpenStep(s);
    TurnedStep(p, q, d);
    ShortExactly(t.0, t.1, m, tol, s.e, d);
    Ratio(t.0, t.1, d);
    SignOfStep(t.0, t.1, d);
  }

  lemma TurnedStep(p: real, q: real, d: real)
    requires q != 0.0 && p == Brent.Times(d, 0.0 - q)
    ensures var t := Turned(p, q); t.1 != 0.0 && t.0 == Brent.Times(d, t.1) && (d == 0.0 ==> t.1 == q)
  {
    assert Brent.Times(d, 0.0 - q) == 0.0 - Brent.Times(d, q);
  }

  lemma Ratio(p: real, q: real, d: real)
    requires q != 0.0 && p == Brent.Times(d, q)
    ensures p / q == d
  {
  }

  lemma SignOfStep(p: real, q: real, d: real)
    requires p >= 0.0 && q != 0.0 && p == Brent.Times(d, q)
    ensures d != 0.0 ==> SameWay(d, q)
  {
    if q > 0.0 {
      Scaled(d, 0.0, q);
    } else {
      Mirrored(d, q);
      Scaled(0.0 - d, 0.0, 0.0 - q);
    }
  }

  lemma Cancelled(x: real, a: real)
    requires a != 0.0 && x * a == 0.0
    ensures x == 0.0
  {
    assert x == x * a / a;
  }

  lemma Divided(x: real, y: real)
    requires y != 0.0
    ensures x == x / y * y && (x != 0.0 ==> x / y != 0.0) && (x != y ==> x / y != 1.0)
  {
  }

  lemma SecantParts(a: real, b: real, m: real, g: real, d: real)
    requires a != 0.0 && b == g * a && d * (a - b) == 0.0 - b * (2.0 * m)
    ensures 2.0 * m * g == Brent.Times(d, 0.0 - (1.0 - g))
  {
    var x := d * (1.0 - g) + 2.0 * m * g;
    assert x * a == d * (a - g * a) + g * a * (2.0 * m);
    Cancelled(x, a);
  }

  lemma NoStep(x: real, y: real)
    requires x != 0.0 && y != 0.0
    ensures 0.0 - x * y != 0.0
  {
  }

  lemma ChordStep(a: real, b: real, way: real, m: real, g: real) returns (d: real)
    requires a != 0.0 && b != 0.0 && a != b && way != 0.0 && way == 2.0 * m && g == b / a
    ensures d != 0.0 && d * (a - b) == 0.0 - b * way
    ensures g != 1.0 && 2.0 * m * g == Brent.Times(d, 0.0 - (1.0 - g))
  {
    d := (0.0 - b * way) / (a - b);
    NoStep(b, way);
    Divided(0.0 - b * way, a - b);
    Divided(b, a);
    SecantParts(a, b, m, g, d);
  }

  lemma SecantAsked(s: State, m: real)
    requires s.fa != 0.0 && s.fc != 0.0 && s.a == s.c
    ensures Asked(s, m, 2.0 * m * (s.fb / s.fa), 1.0 - s.fb / s.fa)
  {
    OpenInterpolated(s, m);
  }

  lemma ChordAsked(s: State, m: real) returns (d: real, p: real, q: real)
    requires s.fa != 0.0 && s.fb != 0.0 && s.fa != s.fb && s.c - s.b == 2.0 * m && m != 0.0
    requires s.a == s.c && s.fa == s.fc
    ensures Asked(s, m, p, q) && q != 0.0 && d != 0.0 && p == Brent.Times(d, 0.0 - q)
    ensures d * (s.fc - s.fb) == 0.0 - s.fb * (s.c - s.b)
  {
    var g := s.fb / s.fa;
    p, q := 2.0 * m * g, 1.0 - g;
    d := ChordStep(s.fa, s.fb, s.c - s.b, m, g);
    SecantAsked(s, m);
  }

  /** Where there are only two points, it is to where the chord between them crosses the axis. */
  lemma ToTheChord(s: State) returns (d: real)
    requires Brackets(s) && !Near(s) && Tried(s, Tolerance(s.b)) && s.a == s.c && s.fa == s.fc
    ensures d * (s.fc - s.fb) == 0.0 - s.fb * (s.c - s.b) && d != 0.0 && Goes(s, d, d)
  {
    var p, q;
    d, p, q := ChordAsked(s, 0.5 * (s.c - s.b));
    GoesAsAsked(s, p, q, d);
  }

  /** Two of three points as high as each other, there is no curve through them, and it is to the middle. */
  lemma NoCurve(s: State)
    requires Brackets(s) && !Near(s) && Tried(s, Tolerance(s.b)) && s.a != s.c && s.fa == s.fc
    ensures PointFrom(s) == (s.b + s.c) / 2.0 && MoveFrom(s) == Move((s.c - s.b) / 2.0, (s.c - s.b) / 2.0)
  {
    var m, tol := 0.5 * (s.c - s.b), Tolerance(s.b);
    OpenInterpolated(s, m);
    FlatParts(s, m);
    OpenStep(s);
    var i := Interpolated(s, m);
    var t := Turned(i.0, i.1);
    if Short(t.0, t.1, m, tol, s.e) { ShortStep(t.0, t.1, m, tol, s.e); }
  }

  lemma FlatParts(s: State, m: real)
    requires s.fa != 0.0 && s.fc != 0.0 && s.a != s.c && s.fa == s.fc
    ensures Interpolated(s, m).1 == 0.0
  {
    OpenInterpolated(s, m);
    assert s.fa / s.fc == 1.0;
  }

  /** The curve x = b + (y - fb) u + (y - fb) (y - fc) v goes through all three points. */
  ghost predicate Through(s: State, u: real, v: real) {
    && s.c - s.b == (s.fc - s.fb) * u
    && s.a - s.b == (s.fa - s.fb) * u + (s.fa - s.fb) * (s.fa - s.fc) * v
  }

  lemma CurveThrough(s: State) returns (u: real, v: real)
    requires s.fa != s.fb && s.fb != s.fc && s.fa != s.fc
    ensures Through(s, u, v)
  {
    u := (s.c - s.b) / (s.fc - s.fb);
    var w := (s.a - s.b) / (s.fa - s.fb);
    v := (w - u) / (s.fa - s.fc);
    Divided(s.c - s.b, s.fc - s.fb);
    Divided(s.a - s.b, s.fa - s.fb);
    Divided(w - u, s.fa - s.fc);
    Onward(s.a - s.b, s.fa - s.fb, s.fa - s.fc, u, v, w);
  }

  lemma Onward(x: real, y: real, z: real, u: real, v: real, w: real)
    requires x == w * y && w - u == v * z
    ensures x == y * u + y * z * v
  {
    assert x == (u + v * z) * y;
  }

  lemma CurveTop(h: real, r: real, t: real, u: real, v: real, y: real, x: real)
    requires y == h * (1.0 - r) * u && x == h * (t - r) * u + h * h * (t - r) * (t - 1.0) * v
    ensures y * t * (t - r) + x * (r - 1.0) == h * (1.0 - r) * (t - r) * (t - 1.0) * (u - h * v)
  {
  }

  lemma LeftSide(h: real, r: real, t: real, g: real, z: real)
    ensures g * (h * (1.0 - r) * (t - r) * (t - 1.0) * z) == h * (1.0 - r) * (t - 1.0) * z * (g * (t - r))
  {
  }

  lemma RightSide(h: real, r: real, t: real, g: real, z: real)
    ensures Brent.Times(0.0 - r * h * z, 0.0 - (t - 1.0) * (r - 1.0) * (g - 1.0))
            == h * (1.0 - r) * (t - 1.0) * z * (r * (1.0 - g))
  {
  }

  lemma CurveParts(h: real, r: real, t: real, g: real, u: real, v: real, y: real, x: real, z: real)
    requires r == g * t && z == u - h * v
    requires y == h * (1.0 - r) * u && x == h * (t - r) * u + h * h * (t - r) * (t - 1.0) * v
    ensures g * (y * t * (t - r) + x * (r - 1.0))
            == Brent.Times(0.0 - r * h * z, 0.0 - (t - 1.0) * (r - 1.0) * (g - 1.0))
  {
    CurveTop(h, r, t, u, v, y, x);
    LeftSide(h, r, t, g, z);
    RightSide(h, r, t, g, z);
    assert g * (t - r) == r * (1.0 - g);
  }

  /** The three points told in parts of the highest. */
  lemma InParts(a: real, b: real, h: real, u: real, v: real, y: real, x: real, r: real, t: real)
    requires b == r * h && a == t * h && y == (h - b) * u && x == (a - b) * u + (a - b) * (a - h) * v
    ensures y == h * (1.0 - r) * u && x == h * (t - r) * u + h * h * (t - r) * (t - 1.0) * v
  {
    assert h - b == h * (1.0 - r) && a - b == h * (t - r) && a - h == h * (t - 1.0);
    assert (a - b) * (a - h) == h * h * (t - r) * (t - 1.0);
  }

  lemma CurveStep(a: real, b: real, h: real, u: real, v: real, y: real, x: real, r: real, t: real, g: real,
                  p: real, q: real, d: real)
    requires h != 0.0 && b == r * h && a == t * h && b == g * a
    requires y == (h - b) * u && x == (a - b) * u + (a - b) * (a - h) * v
    requires p == g * (y * t * (t - r) + x * (r - 1.0)) && q == (t - 1.0) * (r - 1.0) * (g - 1.0)
    requires d == 0.0 - b * u + b * h * v
    ensures p == Brent.Times(d, 0.0 - q)
  {
    Chained(b, a, h, r, t, g);
    InParts(a, b, h, u, v, y, x, r, t);
    CurveParts(h, r, t, g, u, v, y, x, u - h * v);
    SameStep(b, h, r, u, v);
  }

  /** The two parts of what is asked for, under covers. */
  ghost function TopOf(g: real, y: real, t: real, r: real, w: real, covers: nat): real {
    if covers > 0 then TopOf(g, y, t, r, w, covers - 1) else g * (y * t * (t - r) - w * (r - 1.0))
  }

  ghost function BottomOf(t: real, r: real, g: real, covers: nat): real {
    if covers > 0 then BottomOf(t, r, g, covers - 1) else (t - 1.0) * (r - 1.0) * (g - 1.0)
  }

  lemma OpenTop(g: real, y: real, t: real, r: real, w: real)
    ensures TopOf(g, y, t, r, w, 3) == g * (y * t * (t - r) - w * (r - 1.0))
  {
    assert TopOf(g, y, t, r, w, 2) == TopOf(g, y, t, r, w, 1) == TopOf(g, y, t, r, w, 0);
  }

  lemma OpenBottom(t: real, r: real, g: real)
    ensures BottomOf(t, r, g, 3) == (t - 1.0) * (r - 1.0) * (g - 1.0)
  {
    assert BottomOf(t, r, g, 2) == BottomOf(t, r, g, 1) == BottomOf(t, r, g, 0);
  }

  lemma OpenTopOther(g: real, y: real, t: real, r: real, w: real, x: real)
    requires w == 0.0 - x
    ensures TopOf(g, y, t, r, w, 3) == g * (y * t * (t - r) + x * (r - 1.0))
  {
    OpenTop(g, y, t, r, w);
    SameTop(g, y * t * (t - r), w, x, r - 1.0);
  }

  lemma CurveEnds(a: real, b: real, h: real, u: real, v: real, y: real, w: real, x: real, r: real, t: real, g: real,
                  p: real, q: real, d: real)
    requires h != 0.0 && b == r * h && a == t * h && b == g * a
    requires y == (h - b) * u && x == (a - b) * u + (a - b) * (a - h) * v && w == 0.0 - x
    requires p == TopOf(g, y, t, r, w, 3) && q == BottomOf(t, r, g, 3) && d == 0.0 - b * u + b * h * v
    ensures p == Brent.Times(d, 0.0 - q)
  {
    OpenTopOther(g, y, t, r, w, x);
    OpenBottom(t, r, g);
    CurveStep(a, b, h, u, v, y, x, r, t, g, p, q, d);
  }

  lemma SomeBottom(r: real, t: real, g: real)
    requires r != 1.0 && t != 1.0 && g != 1.0
    ensures BottomOf(t, r, g, 3) != 0.0
  {
    OpenBottom(t, r, g);
    NotNought(t - 1.0, r - 1.0, g - 1.0);
  }

  lemma CurveIsAsked(s: State, m: real, r: real, t: real, g: real)
    requires s.fa != 0.0 && s.fc != 0.0 && s.a != s.c
    requires r == s.fb / s.fc && t == s.fa / s.fc && g == s.fb / s.fa
    ensures Asked(s, m, TopOf(g, 2.0 * m, t, r, s.b - s.a, 3), BottomOf(t, r, g, 3))
  {
    OpenInterpolated(s, m);
    OpenTop(g, 2.0 * m, t, r, s.b - s.a);
    OpenBottom(t, r, g);
  }

  lemma Quotients(a: real, b: real, h: real, r: real, t: real, g: real)
    requires a != 0.0 && h != 0.0 && a != b && b != h && a != h && r == b / h && t == a / h && g == b / a
    ensures b == r * h && a == t * h && b == g * a && r != 1.0 && t != 1.0 && g != 1.0
  {
    Divided(b, h);
    Divided(a, h);
    Divided(b, a);
  }

  lemma SameTop(g: real, k: real, x: real, y: real, r: real)
    requires x == 0.0 - y
    ensures g * (k - x * r) == g * (k + y * r)
  {
  }

  lemma SameStep(b: real, h: real, r: real, u: real, v: real)
    requires b == r * h
    ensures 0.0 - r * h * (u - h * v) == 0.0 - b * u + b * h * v
  {
  }

  lemma Chained(b: real, a: real, h: real, r: real, t: real, g: real)
    requires h != 0.0 && b == r * h && a == t * h && b == g * a
    ensures r == g * t
  {
    assert (r - g * t) * h == 0.0;
    Cancelled(r - g * t, h);
  }

  lemma NotNought(x: real, y: real, z: real)
    requires x != 0.0 && y != 0.0 && z != 0.0
    ensures x * y * z != 0.0
  {
    assert x * y != 0.0;
  }

  /** The quotients, told as products. */
  predicate AsParts(s: State, r: real, t: real, g: real) {
    s.fb == r * s.fc && s.fa == t * s.fc && s.fb == g * s.fa
  }

  lemma CurveMade(s: State, m: real, r: real, t: real, g: real, u: real, v: real, p: real, q: real, d: real)
    requires AsParts(s, r, t, g) && Through(s, u, v) && s.fc != 0.0 && s.c - s.b == 2.0 * m
    requires p == TopOf(g, 2.0 * m, t, r, s.b - s.a, 3) && q == BottomOf(t, r, g, 3)
    requires d == 0.0 - s.fb * u + s.fb * s.fc * v
    ensures p == Brent.Times(d, 0.0 - q)
  {
    var x, y, w := s.a - s.b, 2.0 * m, s.b - s.a;
    CurveEnds(s.fa, s.fb, s.fc, u, v, y, w, x, r, t, g, p, q, d);
  }

  lemma AskedOf(s: State, m: real) returns (r: real, t: real, g: real, p: real, q: real)
    requires s.fa != 0.0 && s.fc != 0.0 && s.a != s.c && s.fa != s.fb && s.fb != s.fc && s.fa != s.fc
    ensures AsParts(s, r, t, g) && Asked(s, m, p, q) && q != 0.0
    ensures p == TopOf(g, 2.0 * m, t, r, s.b - s.a, 3) && q == BottomOf(t, r, g, 3)
    ensures q == BottomOf(s.fa / s.fc, s.fb / s.fc, s.fb / s.fa, 3)
  {
    r, t, g := s.fb / s.fc, s.fa / s.fc, s.fb / s.fa;
    p, q := TopOf(g, 2.0 * m, t, r, s.b - s.a, 3), BottomOf(t, r, g, 3);
    CurveIsAsked(s, m, r, t, g);
    Quotients(s.fa, s.fb, s.fc, r, t, g);
    SomeBottom(r, t, g);
  }

  lemma CurveTo(s: State, m: real, u: real, v: real) returns (d: real, p: real, q: real)
    requires s.fa != 0.0 && s.fc != 0.0 && s.a != s.c && s.fa != s.fb && s.fb != s.fc && s.fa != s.fc
    requires Through(s, u, v) && s.c - s.b == 2.0 * m
    ensures d == 0.0 - s.fb * u + s.fb * s.fc * v && p == Brent.Times(d, 0.0 - q) && Asked(s, m, p, q) && q != 0.0
    ensures q == BottomOf(s.fa / s.fc, s.fb / s.fc, s.fb / s.fa, 3)
  {
    var r, t, g;
    r, t, g, p, q := AskedOf(s, m);
    d := 0.0 - s.fb * u + s.fb * s.fc * v;
    CurveMade(s, m, r, t, g, u, v, p, q, d);
  }

  /** Otherwise it is to where the curve through the three crosses the axis, which is where y is nought on it. */
  lemma ToTheCurve(s: State) returns (d: real, q: real, u: real, v: real)
    requires Brackets(s) && !Near(s) && Tried(s, Tolerance(s.b)) && s.a != s.c && s.fa != s.fc
    ensures Through(s, u, v) && d == 0.0 - s.fb * u + s.fb * s.fc * v
    ensures Goes(s, d, q) && q == BottomOf(s.fa / s.fc, s.fb / s.fc, s.fb / s.fa, 3)
  {
    var p;
    u, v := CurveThrough(s);
    d, p, q := CurveTo(s, 0.5 * (s.c - s.b), u, v);
    GoesAsAsked(s, p, q, d);
  }
}
