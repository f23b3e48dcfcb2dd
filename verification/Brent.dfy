/** Brent's method for a root, over the reals: which points it looks at, and what it keeps between them. */
module Brent {
  import opened Basics

  /** A function that can only be called; none where it fails or is not finite. */
  type Curve = real -> Option<real>

  const ITERATIONS: nat := 100
  const EPSILON: real := 1.0 / 4503599627370496.0

  predicate Between(p: real, x: real, q: real) {
    Lesser(p, q) <= x <= Larger(p, q)
  }

  predicate StrictlyBetween(p: real, x: real, q: real) {
    Lesser(p, q) < x < Larger(p, q)
  }

  /** How near is near enough. */
  function Tolerance(b: real): (t: real)
    ensures t > 0.0
  {
    2.0 * EPSILON * Magnitude(b) + 1e-300
  }

  // ------------------------------------------------------------------- one step

  /** Five points and values the method carries along: the last two guesses, the other end, the last two steps. */
  datatype State = State(a: real, b: real, c: real, fa: real, fb: real, fc: real, d: real, e: real)

  /** The values are the function's. */
  predicate Honest(f: Curve, s: State) {
    f(s.a) == Some(s.fa) && f(s.b) == Some(s.fb) && f(s.c) == Some(s.fc)
  }

  predicate Opposite(y: real, z: real) {
    (y > 0.0) != (z > 0.0)
  }

  /** At the top of the loop, one of the other two points is on the other side of the axis from b. */
  predicate CanBracket(s: State) {
    Opposite(s.fb, s.fc) || Opposite(s.fb, s.fa)
  }

  /** The root is between b and c, and b is the better of them. */
  predicate Brackets(s: State) {
    Opposite(s.fb, s.fc) && Magnitude(s.fb) <= Magnitude(s.fc)
  }

  /** Make c the point on the other side from b, and b the better of the two. */
  function Arranged(s: State): (t: State)
    requires CanBracket(s)
    ensures Brackets(t)
  {
    var s := if Opposite(s.fb, s.fc) then s else s.(c := s.a, fc := s.fa, d := s.b - s.a, e := s.b - s.a);
    if Magnitude(s.fc) < Magnitude(s.fb) then s.(a := s.b, b := s.c, c := s.b, fa := s.fb, fb := s.fc, fc := s.fb)
    else s
  }

  function Times(x: real, y: real): real {
    x * y
  }

  /** Numerator and denominator of the step interpolation asks for. */
  function Interpolated(s: State, m: real): (real, real)
    requires s.fa != 0.0 && s.fc != 0.0
  {
    InterpolatedCovered(s, m, 3)
  }

  /** The same under covers, which a proof takes off where it has to look. */
  function InterpolatedCovered(s: State, m: real, covers: nat): (real, real)
    requires s.fa != 0.0 && s.fc != 0.0
    decreases covers, s
  {
    if covers > 0 then InterpolatedCovered(s, m, covers - 1)
    else
      var g := s.fb / s.fa;
      if s.a == s.c then (2.0 * m * g, 1.0 - g)
      else
        var r, t := s.fb / s.fc, s.fa / s.fc;
        (g * (2.0 * m * t * (t - r) - (s.b - s.a) * (r - 1.0)), (t - 1.0) * (r - 1.0) * (g - 1.0))
  }

  lemma OpenInterpolated(s: State, m: real)
    requires s.fa != 0.0 && s.fc != 0.0
    ensures Interpolated(s, m) == InterpolatedCovered(s, m, 0)
  {
    assert InterpolatedCovered(s, m, 1) == InterpolatedCovered(s, m, 0);
    assert InterpolatedCovered(s, m, 2) == InterpolatedCovered(s, m, 1);
  }

  /** Turned so that the numerator is not negative. */
  function Turned(p: real, q: real): (r: (real, real))
    ensures r.0 >= 0.0
  {
    (Magnitude(p), if p > 0.0 then 0.0 - q else q)
  }

  predicate Short(p: real, q: real, m: real, tol: real, e: real) {
    2.0 * p < Lesser(Times(3.0 * m, q) - Magnitude(Times(tol, q)), Magnitude(Times(e, q)))
  }

  /** A step short enough has a denominator to divide by, goes the way of m, and less than half as far again. */
  lemma ShortStep(p: real, q: real, m: real, tol: real, e: real)
    requires p >= 0.0 && tol > 0.0 && Short(p, q, m, tol, e)
    ensures q != 0.0
    ensures m > 0.0 ==> 0.0 <= p / q < 1.5 * m
    ensures m < 0.0 ==> 1.5 * m < p / q <= 0.0
  {
    assert Times(3.0 * m, q) > 2.0 * p;
    if q < 0.0 && m <= 0.0 {
      assert Times(0.0 - 3.0 * m, 0.0 - q) == Times(3.0 * m, q);
    }
  }

  datatype Move = Move(d: real, e: real)

  /** The step to take: what interpolation gives, where it is short enough, or half the way. */
  function Chosen(s: State, m: real, tol: real): (r: Move)
    requires Brackets(s) && s.fb != 0.0 && tol > 0.0
    ensures m > 0.0 ==> 0.0 <= r.d < 1.5 * m
    ensures m < 0.0 ==> 1.5 * m < r.d <= 0.0
  {
    if Magnitude(s.e) >= tol && Magnitude(s.fa) > Magnitude(s.fb) then
      var i := Interpolated(s, m);
      var t := Turned(i.0, i.1);
      if Short(t.0, t.1, m, tol, s.e) then
        ShortStep(t.0, t.1, m, tol, s.e);
        Move(t.0 / t.1, s.d)
      else Move(m, m)
    else Move(m, m)
  }

  /** Where to look next: never nearer to b than the tolerance. */
  function NextPoint(b: real, d: real, m: real, tol: real): real {
    b + if Magnitude(d) > tol then d else if m > 0.0 then tol else 0.0 - tol
  }

  predicate Near(s: State) {
    Magnitude(0.5 * (s.c - s.b)) <= Tolerance(s.b) || s.fb == 0.0
  }

  /** The step from where the method is. Covered over, as what is kept does not depend on which it is. */
  function MoveFrom(s: State): Move
    requires Brackets(s) && !Near(s)
  {
    MoveFromCovered(s, 3)
  }

  /** The same under covers, which a proof takes off where it has to look. */
  function MoveFromCovered(s: State, covers: nat): Move
    requires Brackets(s) && !Near(s)
    decreases covers, s
  {
    if covers > 0 then MoveFromCovered(s, covers - 1) else Chosen(s, 0.5 * (s.c - s.b), Tolerance(s.b))
  }

  function PointFrom(s: State): (x: real)
    requires Brackets(s) && !Near(s)
    ensures StrictlyBetween(s.b, x, s.c)
  {
    PointFromCovered(s, 3)
  }

  /** The same under covers, which a proof takes off where it has to look. */
  function PointFromCovered(s: State, covers: nat): (x: real)
    requires Brackets(s) && !Near(s)
    ensures StrictlyBetween(s.b, x, s.c)
    decreases covers, s
  {
    if covers > 0 then PointFromCovered(s, covers - 1)
    else
      var move := Chosen(s, 0.5 * (s.c - s.b), Tolerance(s.b));
      NextPoint(s.b, move.d, 0.5 * (s.c - s.b), Tolerance(s.b))
  }

  lemma OpenStep(s: State)
    requires Brackets(s) && !Near(s)
    ensures MoveFrom(s) == Chosen(s, 0.5 * (s.c - s.b), Tolerance(s.b))
    ensures PointFrom(s) == NextPoint(s.b, MoveFrom(s).d, 0.5 * (s.c - s.b), Tolerance(s.b))
  {
    assert MoveFromCovered(s, 1) == MoveFromCovered(s, 0);
    assert MoveFromCovered(s, 2) == MoveFromCovered(s, 1);
    assert PointFromCovered(s, 1) == PointFromCovered(s, 0);
    assert PointFromCovered(s, 2) == PointFromCovered(s, 1);
  }

  /** Where the method is after looking. */
  function Looked(s: State, fx: real): (t: State)
    requires Brackets(s) && !Near(s)
    ensures CanBracket(t)
  {
    State(s.b, PointFrom(s), s.c, s.fb, fx, s.fc, MoveFrom(s).d, MoveFrom(s).e)
  }

  // ------------------------------------------------------------------- the run

  /** What the method had in hand each time round, and where it looked. */
  datatype Look = Look(b: real, c: real, x: real)

  /** Each time the ends are on opposite sides of the axis, the point looked at is strictly inside, and the next
      two ends are inside the last two. */
  predicate Narrowing(f: Curve, looks: seq<Look>) {
    NarrowingCovered(f, looks, 3)
  }

  /** The same under covers, which a proof takes off where it has to look. */
  predicate NarrowingCovered(f: Curve, looks: seq<Look>, covers: nat)
    decreases covers, looks
  {
    if covers > 0 then NarrowingCovered(f, looks, covers - 1)
    else
      forall i :: 0 <= i < |looks| ==>
                    && OppositeAt(f, looks[i].b, looks[i].c)
                    && StrictlyBetween(looks[i].b, looks[i].x, looks[i].c)
                    && (i > 0 ==> Inside(looks[i - 1], looks[i]))
  }

  lemma OpenNarrowing(f: Curve, looks: seq<Look>)
    ensures Narrowing(f, looks) <==> NarrowingCovered(f, looks, 0)
  {
    assert NarrowingCovered(f, looks, 1) == NarrowingCovered(f, looks, 0);
    assert NarrowingCovered(f, looks, 2) == NarrowingCovered(f, looks, 1);
  }

  /** Both ends are among the old ends and the point looked at, so the new bracket is one part of the old. */
  predicate Inside(was: Look, now: Look) {
    && (now.b == was.x || now.c == was.x)
    && (now.b == was.b || now.c == was.b || now.b == was.c || now.c == was.c)
    && StrictlyBetween(was.b, was.x, was.c)
  }

  predicate OppositeAt(f: Curve, x: real, y: real) {
    f(x).Some? && f(y).Some? && Opposite(f(x).value, f(y).value)
  }

  lemma {:induction false} StaysInside(f: Curve, looks: seq<Look>, i: nat)
    requires Narrowing(f, looks) && i < |looks|
    ensures Between(looks[0].b, looks[i].b, looks[0].c) && Between(looks[0].b, looks[i].c, looks[0].c)
    ensures StrictlyBetween(looks[0].b, looks[i].x, looks[0].c)
  {
    OpenNarrowing(f, looks);
    if i > 0 { StaysInside(f, looks, i - 1); }
  }

  datatype Outcome = Failed | Root(x: real)

  /** What comes of so many times round, and where it looks on the way. */
  datatype Course = Course(end: Outcome, looks: seq<Look>)

  /** Covered over, as a loop takes it one turn at a time. */
  function Ran(f: Curve, s: State, times: nat): Course
    requires CanBracket(s)
    decreases times, 4
  {
    RanCovered(f, s, times, 3)
  }

  /** The same under covers, which a proof takes off where it has to look. */
  function RanCovered(f: Curve, s: State, times: nat, covers: nat): Course
    requires CanBracket(s)
    decreases times, covers
  {
    if covers > 0 then RanCovered(f, s, times, covers - 1)
    else if times == 0 then Course(Root(s.b), [])
    else
      var t := Arranged(s);
      if Near(t) then Course(Root(t.b), [])
      else
        var x := PointFrom(t);
        match f(x)
        case None => Course(Failed, [Look(t.b, t.c, x)])
        case Some(fx) =>
          var rest := Ran(f, Looked(t, fx), times - 1);
          Course(rest.end, [Look(t.b, t.c, x)] + rest.looks)
  }

  lemma OpenRan(f: Curve, s: State, times: nat)
    requires CanBracket(s)
    ensures Ran(f, s, times) == RanCovered(f, s, times, 0)
  {
    assert RanCovered(f, s, times, 1) == RanCovered(f, s, times, 0);
    assert RanCovered(f, s, times, 2) == RanCovered(f, s, times, 1);
  }

  /** With what was looked at before. */
  function After(looks: seq<Look>, c: Course): Course {
    Course(c.end, looks + c.looks)
  }

  /** One time round of so many. */
  lemma RanNext(f: Curve, looks: seq<Look>, s: State, times: nat)
    requires CanBracket(s) && times > 0
    ensures var t, all := Arranged(s), After(looks, Ran(f, s, times));
            if Near(t) then all == Course(Root(t.b), looks)
            else
              var more, y := looks + [Look(t.b, t.c, PointFrom(t))], f(PointFrom(t));
              all == if y.None? then Course(Failed, more) else After(more, Ran(f, Looked(t, y.value), times - 1))
  {
    OpenRan(f, s, times);
  }

  lemma RanNone(f: Curve, looks: seq<Look>, s: State)
    requires CanBracket(s)
    ensures After(looks, Ran(f, s, 0)) == Course(Root(s.b), looks)
  {
    OpenRan(f, s, 0);
  }

  /** Why a root was returned: it is one, or it is as near as can be told to a change of sign, or time ran out. */
  predicate Reason(f: Curve, x: real, c: real, looks: seq<Look>, times: nat) {
    || f(x) == Some(0.0)
    || (OppositeAt(f, x, c) && Magnitude(c - x) <= 2.0 * Tolerance(x))
    || |looks| == times
  }

  predicate Starts(looks: seq<Look>, a: real, b: real) {
    looks != [] ==> (looks[0].b == a && looks[0].c == b) || (looks[0].b == b && looks[0].c == a)
  }

  /** After a look: b is where it looked, a is what b was, and c is still the other end. */
  predicate Follows(was: Look, s: State) {
    s.a == was.b && s.b == was.x && s.c == was.c
  }

  lemma LookAgain(f: Curve, looks: seq<Look>, s: State, x: real)
    requires Narrowing(f, looks) && Honest(f, s) && CanBracket(s)
    requires looks != [] ==> Follows(looks[|looks| - 1], s)
    requires var t := Arranged(s); StrictlyBetween(t.b, x, t.c)
    ensures var t := Arranged(s); Narrowing(f, looks + [Look(t.b, t.c, x)])
  {
    var t := Arranged(s);
    OpenNarrowing(f, looks);
    OpenNarrowing(f, looks + [Look(t.b, t.c, x)]);
    if looks != [] { assert Inside(looks[|looks| - 1], Look(t.b, t.c, x)); }
  }

  /** The ends once arranged are still where the last bracket was. */
  lemma ArrangedStays(f: Curve, looks: seq<Look>, s: State, a: real, b: real)
    requires Narrowing(f, looks) && Honest(f, s) && CanBracket(s) && Starts(looks, a, b)
    requires if looks != [] then Follows(looks[|looks| - 1], s) else s.a == a && s.b == b && s.c == b
    ensures Between(a, s.b, b) && Between(a, Arranged(s).b, b)
  {
    if looks != [] { StaysInside(f, looks, |looks| - 1); }
  }

  /** Stop, or say where to look. */
  method WhereNext(s: State) returns (done: bool, x: real, move: Move)
    requires Brackets(s)
    ensures done <==> Near(s)
    ensures !done ==> x == PointFrom(s) && move == MoveFrom(s)
  {
    var tol, m := Tolerance(s.b), 0.5 * (s.c - s.b);
    done, x, move := false, s.b, Move(m, m);
    if Magnitude(m) <= tol || s.fb == 0.0 {
      return true, x, move;
    }
    OpenStep(s);
    move := Chosen(s, m, tol);
    x := NextPoint(s.b, move.d, m, tol);
  }

  lemma NearEnough(f: Curve, s: State, looks: seq<Look>, times: nat)
    requires Brackets(s) && Honest(f, s) && Near(s)
    ensures Reason(f, s.b, s.c, looks, times)
  {
  }

  /** What is known each time round: the looks so far, and that the method is where the last of them left it. */
  ghost predicate Underway(f: Curve, looks: seq<Look>, s: State, a: real, b: real) {
    && Honest(f, s) && CanBracket(s) && Narrowing(f, looks) && Starts(looks, a, b)
    && if looks != [] then Follows(looks[|looks| - 1], s) else s.a == a && s.b == b && s.c == b
  }

  /** Where it starts from: nothing yet known of c, so that it is made a. */
  function Start(a: real, b: real, fa: real, fb: real): (s: State)
    ensures Opposite(fa, fb) ==> CanBracket(s)
  {
    State(a, b, b, fa, fb, fb, 0.0, 0.0)
  }

  lemma Begins(f: Curve, a: real, b: real, fa: real, fb: real)
    requires f(a) == Some(fa) && f(b) == Some(fb) && Opposite(fa, fb)
    ensures Underway(f, [], Start(a, b, fa, fb), a, b)
  {
    OpenNarrowing(f, []);
  }

  /** One look more. */
  lemma GoesOn(f: Curve, looks: seq<Look>, s: State, a: real, b: real)
    requires Underway(f, looks, s, a, b) && !Near(Arranged(s))
    ensures var t := Arranged(s);
            var x, more := PointFrom(t), looks + [Look(t.b, t.c, PointFrom(t))];
            && Narrowing(f, more) && Starts(more, a, b)
            && (f(x).Some? ==> Underway(f, more, Looked(t, f(x).value), a, b))
  {
    ArrangedStays(f, looks, s, a, b);
    LookAgain(f, looks, s, PointFrom(Arranged(s)));
  }

  /** Where it stops, the better end is between the two it was given, and there is a reason. */
  lemma StopsInside(f: Curve, looks: seq<Look>, s: State, a: real, b: real, times: nat)
    requires Underway(f, looks, s, a, b)
    ensures Between(a, s.b, b) && Between(a, Arranged(s).b, b)
    ensures Near(Arranged(s)) ==> Reason(f, Arranged(s).b, Arranged(s).c, looks, times)
  {
    ArrangedStays(f, looks, s, a, b);
    if Near(Arranged(s)) { NearEnough(f, Arranged(s), looks, times); }
  }

  /** From anywhere on the way: what is kept of the looks so far is kept of all of them; it fails only where the
      function does, and a root is inside and has a reason. */
  lemma {:induction false} KeepsOn(f: Curve, looks: seq<Look>, s: State, a: real, b: real, times: nat, all: Course)
    returns (other: real)
    requires Underway(f, looks, s, a, b) && all == After(looks, Ran(f, s, times))
    ensures Narrowing(f, all.looks) && |all.looks| <= |looks| + times && Starts(all.looks, a, b)
    ensures all.end.Failed? ==> all.looks != [] && f(all.looks[|all.looks| - 1].x).None?
    ensures all.end.Root? ==> Between(a, all.end.x, b) && Reason(f, all.end.x, other, all.looks, |looks| + times)
    decreases times
  {
    var t := Arranged(s);
    other := t.c;
    StopsInside(f, looks, s, a, b, |looks| + times);
    if times == 0 {
      RanNone(f, looks, s);
    } else {
      RanNext(f, looks, s, times);
      if !Near(t) {
        GoesOn(f, looks, s, a, b);
        var x := PointFrom(t);
        if f(x).Some? {
          other := KeepsOn(f, looks + [Look(t.b, t.c, x)], Looked(t, f(x).value), a, b, times - 1, all);
        }
      }
    }
  }

  /** So many times round. */
  method Iterate(f: Curve, start: State, times: nat) returns (r: Outcome, ghost looks: seq<Look>)
    requires CanBracket(start)
    ensures Course(r, looks) == Ran(f, start, times)
  {
    var s := start;
    looks := [];
    ghost var all := Ran(f, s, times);
    assert After(looks, all) == all;
    for i := 0 to times
      invariant CanBracket(s) && After(looks, Ran(f, s, times - i)) == all
    {
      RanNext(f, looks, s, times - i);
      var t := Arranged(s);
      var done, x, move := WhereNext(t);
      if done {
        return Root(t.b), looks;
      }
      looks := looks + [Look(t.b, t.c, x)];
      if f(x).None? {
        return Failed, looks;
      }
      s := State(t.b, x, t.c, t.fb, f(x).value, t.fc, move.d, move.e);
    }
    RanNone(f, looks, s);
    return Root(s.b), looks;
  }

  lemma Keeps(f: Curve, a: real, b: real, fa: real, fb: real, times: nat, all: Course) returns (other: real)
    requires f(a) == Some(fa) && f(b) == Some(fb) && Opposite(fa, fb) && all == Ran(f, Start(a, b, fa, fb), times)
    ensures Narrowing(f, all.looks) && |all.looks| <= times && Starts(all.looks, a, b)
    ensures all.end.Failed? ==> all.looks != [] && f(all.looks[|all.looks| - 1].x).None?
    ensures all.end.Root? ==> Between(a, all.end.x, b) && Reason(f, all.end.x, other, all.looks, times)
  {
    Begins(f, a, b, fa, fb);
    assert [] + all.looks == all.looks;
    other := KeepsOn(f, [], Start(a, b, fa, fb), a, b, times, all);
  }

  method BrentRoot(f: Curve, a: real, b: real, fa: real, fb: real)
    returns (r: Outcome, ghost looks: seq<Look>, ghost other: real)
    requires f(a) == Some(fa) && f(b) == Some(fb) && Opposite(fa, fb)
    ensures Course(r, looks) == Ran(f, Start(a, b, fa, fb), 100)
    ensures Narrowing(f, looks) && |looks| <= 100 && Starts(looks, a, b)
    ensures r.Failed? ==> looks != [] && f(looks[|looks| - 1].x).None?
    ensures r.Root? ==> Between(a, r.x, b) && Reason(f, r.x, other, looks, 100)
  {
    r, looks := Iterate(f, Start(a, b, fa, fb), ITERATIONS);
    other := Keeps(f, a, b, fa, fb, ITERATIONS, Course(r, looks));
  }
}
