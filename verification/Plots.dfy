/** The points of a plot joined up: gaps where the function had no value, and segments cut to the area. */
module Plots {
  import opened Basics
  import opened Graph
  import opened Curves
  import Clip

  /** Where a point of the plot is on the screen, if it has a value. */
  datatype Mark = Gap | At(at: Clip.Spot)

  /** The pixel nearest, a half going away from nought. */
  function Nearest(x: real): int {
    if x >= 0.0 then (x + 0.5).Floor else 0 - (0.5 - x).Floor
  }

  function Pixel(s: Clip.Spot): Point {
    Point(Nearest(s.x), Nearest(s.y))
  }

  /** The area and a pixel beyond each edge. */
  function Margin(area: Area): Clip.Box {
    Clip.Box(area.left as real - 1.0, (area.left + area.width) as real,
             area.top as real - 1.0, (area.top + area.height) as real)
  }

  /** Not so far off that its pixel has no number. */
  predicate OnScale(s: Clip.Spot) {
    Magnitude(s.x) < 1e6 && Magnitude(s.y) < 1e6
  }

  /** What is drawn on coming to a point: a line to the next one, a dot if it is alone, or nothing. */
  datatype Stroke = Nothing | Lone(p: Point) | Joined(p: Point, q: Point)

  function Join(area: Area, a: Clip.Spot, b: Clip.Spot): Stroke {
    match Clip.Clipped(Margin(area), a, b)
    case None => Nothing
    case Some(s) => Joined(Pixel(s.from), Pixel(s.to))
  }

  function StrokeAt(area: Area, marks: seq<Mark>, k: nat): Stroke
    requires k < |marks|
  {
    if marks[k].Gap? then Nothing
    else if k + 1 < |marks| && marks[k + 1].At? then Join(area, marks[k].at, marks[k + 1].at)
    else if (k == 0 || marks[k - 1].Gap?) && OnScale(marks[k].at) then Lone(Pixel(marks[k].at))
    else Nothing
  }

  function Strokes(area: Area, marks: seq<Mark>): (s: seq<Stroke>)
    ensures |s| == |marks|
  {
    seq(|marks|, k requires 0 <= k < |marks| => StrokeAt(area, marks, k))
  }

  /** How far a stroke takes the count. */
  function Counted(s: Stroke): nat {
    if s.Joined? then StepsBetween(s.p, s.q) else 0
  }

  function Inks(s: Stroke, style: Style, n: nat): seq<Dot> {
    InksCovered(s, style, n, 3)
  }

  /** Under covers, so that a proof about many strokes does not look at the dots of one. */
  function InksCovered(s: Stroke, style: Style, n: nat, covers: nat): seq<Dot>
    decreases covers, s
  {
    if covers > 0 then InksCovered(s, style, n, covers - 1)
    else match s
      case Nothing => []
      case Lone(p) => [Dot(p.x, p.y, true)]
      case Joined(p, q) => Dots(p.x, p.y, q.x, q.y, style, n, StepsBetween(p, q) + 1)
  }

  lemma OpenInks(s: Stroke, style: Style, n: nat)
    ensures s.Nothing? ==> Inks(s, style, n) == []
    ensures s.Lone? ==> Inks(s, style, n) == [Dot(s.p.x, s.p.y, true)]
    ensures s.Joined? ==>
              Inks(s, style, n) == Dots(s.p.x, s.p.y, s.q.x, s.q.y, style, n, StepsBetween(s.p, s.q) + 1)
  {
    assert InksCovered(s, style, n, 1) == InksCovered(s, style, n, 0);
    assert InksCovered(s, style, n, 2) == InksCovered(s, style, n, 1);
  }

  function CountAll(strokes: seq<Stroke>): nat {
    if strokes == [] then 0 else Counted(strokes[0]) + CountAll(strokes[1..])
  }

  /** The dots of all of them, the count going on from one to the next. */
  function AllInks(strokes: seq<Stroke>, style: Style, n: nat): seq<Dot> {
    if strokes == [] then []
    else Inks(strokes[0], style, n) + AllInks(strokes[1..], style, n + Counted(strokes[0]))
  }

  // ------------------------------------------------------------------------ drawing

  method DrawSegment(area: Area, a: Clip.Spot, b: Clip.Spot, style: Style, n: nat) returns (next: nat)
    requires area.Valid()
    modifies area.fb
    ensures next == n + Counted(Join(area, a, b))
    ensures area.fb[..] == area.Picture(old(area.fb[..]), Inks(Join(area, a, b), style, n))
  {
    OpenInks(Join(area, a, b), style, n);
    var r := Clip.ClipTo(Margin(area), a, b);
    if r.None? {
      return n;
    }
    var p, q := Pixel(r.value.from), Pixel(r.value.to);
    next := area.Line(p.x, p.y, q.x, q.y, style, n);
  }

  method DrawStroke(area: Area, marks: seq<Mark>, k: nat, style: Style, n: nat) returns (next: nat)
    requires area.Valid() && k < |marks|
    modifies area.fb
    ensures next == n + Counted(StrokeAt(area, marks, k))
    ensures area.fb[..] == area.Picture(old(area.fb[..]), Inks(StrokeAt(area, marks, k), style, n))
  {
    next := n;
    OpenInks(StrokeAt(area, marks, k), style, n);
    if marks[k].Gap? {
      return;
    }
    if k + 1 < |marks| && marks[k + 1].At? {
      next := DrawSegment(area, marks[k].at, marks[k + 1].at, style, n);
    } else if k == 0 || marks[k - 1].Gap? {
      if OnScale(marks[k].at) {
        var p := Pixel(marks[k].at);
        One(area, area.fb[..], Dot(p.x, p.y, true));
        area.PutDot(p.x, p.y);
      }
    }
  }

  lemma InksNext(one: Stroke, rest: seq<Stroke>, style: Style, n: nat)
    ensures AllInks([one] + rest, style, n) == Inks(one, style, n) + AllInks(rest, style, n + Counted(one))
    ensures CountAll([one] + rest) == Counted(one) + CountAll(rest)
  {
    assert ([one] + rest)[1..] == rest;
  }

  /** One stroke drawn, and the rest to draw. */
  lemma StrokeDrawn(area: Area, was: seq<int>, one: Stroke, rest: seq<Stroke>, style: Style, n: nat, all: seq<Dot>)
    requires area.Valid() && |was| == area.fb.Length && all == AllInks([one] + rest, style, n)
    ensures area.Picture(was, all)
            == area.Picture(area.Picture(was, Inks(one, style, n)), AllInks(rest, style, n + Counted(one)))
  {
    InksNext(one, rest, style, n);
    PictureBoth(area, was, Inks(one, style, n), AllInks(rest, style, n + Counted(one)));
  }

  lemma StrokeOfMany(area: Area, was: seq<int>, marks: seq<Mark>, k: nat, rest: seq<Stroke>, style: Style, n: nat)
    requires area.Valid() && |was| == area.fb.Length && k < |marks| && rest == Strokes(area, marks)[k..]
    ensures rest[1..] == Strokes(area, marks)[k + 1..]
    ensures var one := StrokeAt(area, marks, k);
            area.Picture(was, AllInks(rest, style, n))
            == area.Picture(area.Picture(was, Inks(one, style, n)), AllInks(rest[1..], style, n + Counted(one)))
  {
    assert rest == [StrokeAt(area, marks, k)] + rest[1..];
    StrokeDrawn(area, was, StrokeAt(area, marks, k), rest[1..], style, n, AllInks(rest, style, n));
  }

  /** Every point in turn: the picture is what all the strokes ink, one after another. */
  method DrawPoints(area: Area, marks: seq<Mark>, style: Style)
    requires area.Valid()
    modifies area.fb
    ensures area.fb[..] == area.Picture(old(area.fb[..]), AllInks(Strokes(area, marks), style, 0))
  {
    var n := 0;
    ghost var all := area.Picture(area.fb[..], AllInks(Strokes(area, marks), style, 0));
    ghost var rest := Strokes(area, marks);
    for k := 0 to |marks|
      invariant rest == Strokes(area, marks)[k..]
      invariant area.Picture(area.fb[..], AllInks(rest, style, n)) == all
    {
      StrokeOfMany(area, area.fb[..], marks, k, rest, style, n);
      n := DrawStroke(area, marks, k, style, n);
      rest := rest[1..];
    }
  }

  // ------------------------------------------------------------------- what it comes to

  lemma {:induction false} CountBoth(a: seq<Stroke>, b: seq<Stroke>)
    ensures CountAll(a + b) == CountAll(a) + CountAll(b)
    decreases |a|
  {
    if a == [] {
      assert a + b == b;
    } else {
      CountBoth(a[1..], b);
      assert (a + b)[1..] == a[1..] + b;
    }
  }

  lemma InksFirst(a: seq<Stroke>, style: Style, n: nat)
    requires a != []
    ensures AllInks(a, style, n) == Inks(a[0], style, n) + AllInks(a[1..], style, n + Counted(a[0]))
  {
  }

  lemma {:induction false} InksBoth(a: seq<Stroke>, b: seq<Stroke>, style: Style, n: nat, m: nat)
    requires m == n + CountAll(a)
    ensures AllInks(a + b, style, n) == AllInks(a, style, n) + AllInks(b, style, m)
    decreases |a|
  {
    if a == [] {
      assert a + b == b;
    } else {
      var all := a + b;
      assert all[0] == a[0] && all[1..] == a[1..] + b;
      InksFirst(a, style, n);
      InksFirst(all, style, n);
      InksBoth(a[1..], b, style, n + Counted(a[0]), m);
      Apart(Inks(a[0], style, n), AllInks(a[1..], style, n + Counted(a[0])), AllInks(b, style, m));
    }
  }

  lemma Apart(a: seq<Dot>, b: seq<Dot>, c: seq<Dot>)
    ensures a + b + c == a + (b + c)
  {
  }

  lemma LastStroke(rest: seq<Stroke>, style: Style, m: nat)
    requires rest == [Nothing]
    ensures AllInks(rest, style, m) == [] && CountAll(rest) == 0
  {
    OpenInks(Nothing, style, m);
  }

  lemma StrokesApart(area: Area, a: seq<Mark>, b: seq<Mark>)
    ensures Strokes(area, a + [Gap] + b) == Strokes(area, a) + [Nothing] + Strokes(area, b)
  {
    var all := a + [Gap] + b;
    forall k | 0 <= k < |all|
      ensures StrokeAt(area, all, k) == (Strokes(area, a) + [Nothing] + Strokes(area, b))[k]
    {
      if k > |a| {
        var i := k - |a| - 1;
        assert all[k] == b[i] && (k + 1 < |all| ==> all[k + 1] == b[i + 1]);
        assert all[k - 1] == if i == 0 then Gap else b[i - 1];
      }
    }
  }

  /** What is either side of a gap is drawn as if the other were not there, but that the pattern goes on. */
  lemma GapApart(area: Area, a: seq<Mark>, b: seq<Mark>, style: Style, n: nat)
    ensures AllInks(Strokes(area, a + [Gap] + b), style, n)
            == AllInks(Strokes(area, a), style, n)
               + AllInks(Strokes(area, b), style, n + CountAll(Strokes(area, a)))
  {
    var s, t := Strokes(area, a), Strokes(area, b);
    var m := n + CountAll(s);
    StrokesApart(area, a, b);
    CountBoth(s, [Nothing]);
    LastStroke([Nothing], style, m);
    InksBoth(s, [Nothing], style, n, m);
    InksBoth(s + [Nothing], t, style, n, m);
  }

  /** Points that all have a value and are in the area. */
  predicate AllIn(area: Area, marks: seq<Mark>) {
    forall k :: 0 <= k < |marks| ==> marks[k].At? && Clip.Inside(Margin(area), marks[k].at)
  }

  function Pixels(marks: seq<Mark>): (p: seq<Point>)
    requires forall k :: 0 <= k < |marks| ==> marks[k].At?
    ensures |p| == |marks|
  {
    seq(|marks|, k requires 0 <= k < |marks| => Pixel(marks[k].at))
  }

  lemma StrokeWithin(area: Area, marks: seq<Mark>, k: nat)
    requires AllIn(area, marks) && |marks| >= 2 && k < |marks|
    ensures StrokeAt(area, marks, k)
            == if k + 1 < |marks| then Joined(Pixels(marks)[k], Pixels(marks)[k + 1]) else Nothing
  {
    if k + 1 < |marks| { Clip.InsideStays(Margin(area), marks[k].at, marks[k + 1].at); }
  }

  predicate JoinUp(strokes: seq<Stroke>, points: seq<Point>) {
    && |strokes| == |points| > 0 && strokes[|points| - 1] == Nothing
    && forall k :: 0 <= k < |points| - 1 ==> strokes[k] == Joined(points[k], points[k + 1])
  }

  lemma AllJoinUp(area: Area, marks: seq<Mark>)
    requires AllIn(area, marks) && |marks| >= 2
    ensures JoinUp(Strokes(area, marks), Pixels(marks))
  {
    forall k | 0 <= k < |marks|
      ensures StrokeAt(area, marks, k)
              == if k + 1 < |marks| then Joined(Pixels(marks)[k], Pixels(marks)[k + 1]) else Nothing
    {
      StrokeWithin(area, marks, k);
    }
  }

  lemma JoinDrawn(area: Area, now: seq<int>, p: Point, q: Point, rest: seq<Stroke>, style: Style, m: nat,
                  next: seq<int>)
    requires area.Valid() && |now| == area.fb.Length
    requires area.Picture(now, Inks(Joined(p, q), style, m)) == next
    ensures area.Picture(now, AllInks([Joined(p, q)] + rest, style, m))
            == area.Picture(next, AllInks(rest, style, m + StepsBetween(p, q)))
  {
    StrokeDrawn(area, now, Joined(p, q), rest, style, m, AllInks([Joined(p, q)] + rest, style, m));
  }

  lemma PathStep(area: Area, was: seq<int>, points: seq<Point>, k: nat, style: Style, n: nat, rest: seq<Stroke>, m: nat)
    requires area.Valid() && |was| == area.fb.Length && k + 1 < |points| && m == n + Length(points[..k + 1])
    ensures var p, q := points[k], points[k + 1];
            && m + StepsBetween(p, q) == n + Length(points[..k + 2])
            && area.Picture(SoFar(area, was, points, k, style, n), AllInks([Joined(p, q)] + rest, style, m))
               == area.Picture(SoFar(area, was, points, k + 1, style, n), AllInks(rest, style, m + StepsBetween(p, q)))
  {
    SegmentDrawn(area, was, points, k, style, n);
    OpenInks(Joined(points[k], points[k + 1]), style, m);
    JoinDrawn(area, SoFar(area, was, points, k, style, n), points[k], points[k + 1], rest, style, m,
              SoFar(area, was, points, k + 1, style, n));
  }

  lemma FirstOfRest(strokes: seq<Stroke>, k: nat, rest: seq<Stroke>)
    requires k < |strokes| && rest == strokes[k..]
    ensures rest == [strokes[k]] + strokes[k + 1..]
    ensures CountAll(rest) == Counted(strokes[k]) + CountAll(strokes[k + 1..])
  {
    assert rest[1..] == strokes[k + 1..];
  }

  /** From any point of such a curve, the path so far with the strokes that are left comes to the whole path. */
  lemma {:induction false} PathGoesOn(area: Area, was: seq<int>, strokes: seq<Stroke>, points: seq<Point>, k: nat,
                                      style: Style, n: nat, rest: seq<Stroke>, m: nat)
    requires area.Valid() && |was| == area.fb.Length && JoinUp(strokes, points) && k < |points|
    requires rest == strokes[k..] && m == n + Length(points[..k + 1])
    ensures m + CountAll(rest) == n + Length(points)
    ensures area.Picture(SoFar(area, was, points, k, style, n), AllInks(rest, style, m))
            == SoFar(area, was, points, |points| - 1, style, n)
    decreases |points| - k
  {
    FirstOfRest(strokes, k, rest);
    if k + 1 < |points| {
      var more := strokes[k + 1..];
      PathStep(area, was, points, k, style, n, more, m);
      PathGoesOn(area, was, strokes, points, k + 1, style, n, more, m + StepsBetween(points[k], points[k + 1]));
    } else {
      assert strokes[k] == Nothing && strokes[k + 1..] == [];
      assert rest == [Nothing];
      LastStroke(rest, style, m);
      assert points[..k + 1] == points;
    }
  }

  /** A curve all of it in the area is drawn as its path: each of its dots once, inked by its place along it. */
  lemma WholeCurve(area: Area, was: seq<int>, marks: seq<Mark>, style: Style, n: nat)
    requires area.Valid() && |was| == area.fb.Length && AllIn(area, marks) && |marks| >= 2
    ensures area.Picture(was, AllInks(Strokes(area, marks), style, n))
            == area.Picture(was, Path(Pixels(marks), style, n))
    ensures CountAll(Strokes(area, marks)) == Length(Pixels(marks))
  {
    var strokes, points := Strokes(area, marks), Pixels(marks);
    AllJoinUp(area, marks);
    assert |points[..1]| == 1 && strokes[0..] == strokes && points[..|points|] == points;
    PathGoesOn(area, was, strokes, points, 0, style, n, strokes, n);
  }

  lemma NearestBetween(lo: int, x: real, hi: int)
    requires lo as real <= x <= hi as real
    ensures lo <= Nearest(x) <= hi
  {
  }

  /** However far off its ends are, a segment is drawn in no more steps than the area is long, and one. */
  lemma JoinIsShort(area: Area, a: Clip.Spot, b: Clip.Spot)
    ensures Counted(Join(area, a, b)) <= Max(area.width, area.height) + 1
  {
    var from, to := Clip.ClippedExactly(Margin(area), a, b);
    var r := Clip.Clipped(Margin(area), a, b);
    if r.Some? {
      assert Clip.Inside(Margin(area), Clip.Along(a, b, from)) && Clip.Inside(Margin(area), Clip.Along(a, b, to));
      OnMargin(area, r.value.from);
      OnMargin(area, r.value.to);
    }
  }

  lemma OnMargin(area: Area, s: Clip.Spot)
    requires Clip.Inside(Margin(area), s)
    ensures area.left - 1 <= Pixel(s).x <= area.left + area.width
    ensures area.top - 1 <= Pixel(s).y <= area.top + area.height
  {
    NearestBetween(area.left - 1, s.x, area.left + area.width);
    NearestBetween(area.top - 1, s.y, area.top + area.height);
  }
}
