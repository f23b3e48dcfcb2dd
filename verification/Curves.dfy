/** A curve of any number of segments, drawn one line after another with one count of pixels along it. */
module Curves {
  import opened Graph

  datatype Point = Point(x: int, y: int)

  /** How many pixels along the curve its last point is. */
  function Length(points: seq<Point>): nat
    requires points != []
  {
    if |points| == 1 then 0
    else Length(points[..|points| - 1]) + StepsBetween(points[|points| - 2], points[|points| - 1])
  }

  function StepsBetween(p: Point, q: Point): nat {
    Steps(p.x, p.y, q.x, q.y)
  }

  /** The dots of one segment but for the first, which the one before it ends with. */
  function Onward(p: Point, q: Point, style: Style, n: nat): (r: seq<Dot>)
    ensures |r| == StepsBetween(p, q)
  {
    Dots(p.x, p.y, q.x, q.y, style, n, StepsBetween(p, q) + 1)[1..]
  }

  /** The dots of the whole curve, those that two segments share once. */
  function Path(points: seq<Point>, style: Style, n: nat): (r: seq<Dot>)
    requires points != []
    decreases |points|, 4
  {
    PathCovered(points, style, n, 3)
  }

  /** Under covers, so that a proof about a curve does not look at its dots unless it asks. */
  function PathCovered(points: seq<Point>, style: Style, n: nat, covers: nat): (r: seq<Dot>)
    requires points != []
    decreases |points|, covers
  {
    var m := |points| - 1;
    if covers > 0 then PathCovered(points, style, n, covers - 1)
    else if m == 0 then [Dot(points[0].x, points[0].y, Inked(style, n))]
    else Path(points[..m], style, n) + Onward(points[m - 1], points[m], style, n + Length(points[..m]))
  }

  lemma OpenPath(points: seq<Point>, style: Style, n: nat)
    requires points != []
    ensures var m := |points| - 1;
            Path(points, style, n) ==
            if m == 0 then [Dot(points[0].x, points[0].y, Inked(style, n))]
            else Path(points[..m], style, n) + Onward(points[m - 1], points[m], style, n + Length(points[..m]))
  {
    assert PathCovered(points, style, n, 1) == PathCovered(points, style, n, 0);
    assert PathCovered(points, style, n, 2) == PathCovered(points, style, n, 1);
  }

  lemma SegmentEnds(p: Point, q: Point, style: Style, n: nat)
    ensures var dots, steps := Dots(p.x, p.y, q.x, q.y, style, n, StepsBetween(p, q) + 1), StepsBetween(p, q);
            && dots[0] == Dot(p.x, p.y, Inked(style, n))
            && dots[steps] == Dot(q.x, q.y, Inked(style, n + steps))
            && (forall k :: 0 < k <= steps ==> dots[k] == Onward(p, q, style, n)[k - 1])
            && (forall k :: 0 < k <= steps ==> Beside(dots[k - 1], dots[k]))
  {
    EndToEnd(p.x, p.y, q.x, q.y, style, n);
  }

  /** One pixel on, straight or diagonally. */
  predicate Beside(d: Dot, e: Dot) {
    Max(Abs(e.x - d.x), Abs(e.y - d.y)) == 1
  }

  /** Dots from one point to another, each inked by its place and each a pixel on from the last. */
  predicate RunsOn(path: seq<Dot>, from: Point, to: Point, style: Style, n: nat) {
    && path != []
    && path[0] == Dot(from.x, from.y, Inked(style, n))
    && path[|path| - 1] == Dot(to.x, to.y, Inked(style, n + (|path| - 1)))
    && (forall i :: 0 <= i < |path| ==> path[i].ink == Inked(style, n + i))
    && (forall i :: 0 < i < |path| ==> Beside(path[i - 1], path[i]))
  }

  lemma OneDot(p: Point, style: Style, n: nat)
    ensures RunsOn([Dot(p.x, p.y, Inked(style, n))], p, p, style, n)
  {
  }

  lemma NextSegment(path: seq<Dot>, from: Point, p: Point, q: Point, style: Style, n: nat)
    requires RunsOn(path, from, p, style, n)
    ensures RunsOn(path + Onward(p, q, style, n + (|path| - 1)), from, q, style, n)
  {
    var l := |path| - 1;
    var dots := Dots(p.x, p.y, q.x, q.y, style, n + l, StepsBetween(p, q) + 1);
    var all := path + Onward(p, q, style, n + l);
    SegmentEnds(p, q, style, n + l);
    assert forall i :: l <= i < |all| ==> all[i] == dots[i - l];
    forall i | 0 <= i < |all| ensures all[i].ink == Inked(style, n + i) {
      if i > l { assert dots[i - l].ink == Inked(style, n + l + (i - l)); }
    }
    forall i | 0 < i < |all| ensures Beside(all[i - 1], all[i]) {
      if i > l { assert Beside(dots[i - l - 1], dots[i - l]); }
    }
  }

  /** However many segments and however the curve is cut into them, the dots go on from one to the next with
      none twice and none left out, each inked by its place along the whole curve. */
  lemma {:induction false} PatternRunsOn(points: seq<Point>, style: Style, n: nat)
    requires points != []
    ensures |Path(points, style, n)| == Length(points) + 1
    ensures RunsOn(Path(points, style, n), points[0], points[|points| - 1], style, n)
    decreases |points|
  {
    var m := |points| - 1;
    OpenPath(points, style, n);
    if m == 0 {
      OneDot(points[0], style, n);
    } else {
      var front := points[..m];
      PatternRunsOn(front, style, n);
      NextSegment(Path(front, style, n), points[0], points[m - 1], points[m], style, n);
    }
  }

  /** Which of its dots a curve inks: all of a solid one, four and then not four of a dashed one, and every third of a
      dotted one, however it is cut into segments. */
  lemma InkedByPlace(points: seq<Point>, style: Style, i: nat)
    requires points != [] && i < |Path(points, style, 0)|
    ensures Path(points, style, 0)[i].ink <==>
              match style case Solid => true case Dashed => i % 8 < 4 case Dotted => i % 3 == 0
  {
    PatternRunsOn(points, style, 0);
    FourAndFour(i);
  }

  lemma FourAndFour(i: nat)
    ensures (i / 4) % 2 == 0 <==> i % 8 < 4
  {
    assert i == 8 * (i / 8) + i % 8;
  }

  // --------------------------------------------------------------- drawing it

  /** A dot inked twice is inked. */
  lemma InkedTwice(area: Area, picture: seq<int>, d: Dot)
    requires area.Valid() && |picture| == area.fb.Length
    ensures area.Inking(area.Inking(picture, d), d) == area.Inking(picture, d)
  {
  }

  lemma {:induction false} PictureBoth(area: Area, picture: seq<int>, a: seq<Dot>, b: seq<Dot>)
    requires area.Valid() && |picture| == area.fb.Length
    ensures area.Picture(picture, a + b) == area.Picture(area.Picture(picture, a), b)
    decreases |b|
  {
    if b == [] {
      assert a + b == a;
    } else {
      var m := |b| - 1;
      PictureBoth(area, picture, a, b[..m]);
      assert (a + b)[..|a + b| - 1] == a + b[..m];
    }
  }

  /** Drawing a segment over the dot the last one ended with is drawing the rest of it. */
  lemma DrawnOver(area: Area, picture: seq<int>, a: seq<Dot>, b: seq<Dot>)
    requires area.Valid() && |picture| == area.fb.Length && a != [] && b != [] && a[|a| - 1] == b[0]
    ensures area.Picture(area.Picture(picture, a), b) == area.Picture(picture, a + b[1..])
  {
    var d := b[0];
    var front := a[..|a| - 1];
    var was := area.Picture(picture, front);
    assert a == front + [d] && b == [d] + b[1..];
    One(area, was, d);
    One(area, area.Inking(was, d), d);
    PictureBoth(area, picture, front, [d]);
    InkedTwice(area, was, d);
    PictureBoth(area, area.Picture(picture, a), [d], b[1..]);
    PictureBoth(area, picture, a, b[1..]);
  }

  lemma One(area: Area, picture: seq<int>, d: Dot)
    requires area.Valid() && |picture| == area.fb.Length
    ensures area.Picture(picture, [d]) == area.Inking(picture, d)
  {
    assert [d][..0] == [];
  }

  /** One point more. */
  lemma PathGrows(points: seq<Point>, k: nat, style: Style, n: nat)
    requires k + 1 < |points|
    ensures var p, q, l := points[k], points[k + 1], Length(points[..k + 1]);
            && Length(points[..k + 2]) == l + StepsBetween(p, q)
            && Path(points[..k + 2], style, n) == Path(points[..k + 1], style, n) + Onward(p, q, style, n + l)
  {
    var more := points[..k + 2];
    OpenPath(more, style, n);
    assert more[..k + 1] == points[..k + 1] && more[k] == points[k] && more[k + 1] == points[k + 1];
  }

  lemma FirstDrawn(area: Area, was: seq<int>, points: seq<Point>, style: Style, n: nat)
    requires area.Valid() && |was| == area.fb.Length && |points| >= 2
    ensures var p, q := points[0], points[1];
            area.Picture(was, Dots(p.x, p.y, q.x, q.y, style, n, StepsBetween(p, q) + 1))
            == area.Picture(was, Path(points[..2], style, n))
  {
    var p, q := points[0], points[1];
    var dots := Dots(p.x, p.y, q.x, q.y, style, n, StepsBetween(p, q) + 1);
    PathGrows(points, 0, style, n);
    SegmentEnds(p, q, style, n);
    assert points[..1] == [p];
    OpenPath([p], style, n);
    FirstAndRest(dots);
  }

  lemma FirstAndRest(dots: seq<Dot>)
    requires dots != []
    ensures [dots[0]] + dots[1..] == dots
  {
  }

  lemma NextDrawn(area: Area, was: seq<int>, points: seq<Point>, k: nat, style: Style, n: nat)
    requires area.Valid() && |was| == area.fb.Length && k + 1 < |points|
    ensures var p, q, m := points[k], points[k + 1], n + Length(points[..k + 1]);
            area.Picture(area.Picture(was, Path(points[..k + 1], style, n)),
                         Dots(p.x, p.y, q.x, q.y, style, m, StepsBetween(p, q) + 1))
            == area.Picture(was, Path(points[..k + 2], style, n))
  {
    var p, q, m := points[k], points[k + 1], n + Length(points[..k + 1]);
    var path, dots := Path(points[..k + 1], style, n), Dots(p.x, p.y, q.x, q.y, style, m, StepsBetween(p, q) + 1);
    assert Path(points[..k + 2], style, n) == path + dots[1..] by { PathGrows(points, k, style, n); }
    assert path != [] && path[|path| - 1] == dots[0] by {
      PatternRunsOn(points[..k + 1], style, n);
      SegmentEnds(p, q, style, m);
    }
    DrawnOver(area, was, path, dots);
  }

  /** The picture when k segments have been drawn. */
  ghost function SoFar(area: Area, was: seq<int>, points: seq<Point>, k: nat, style: Style, n: nat): (r: seq<int>)
    requires area.Valid() && |was| == area.fb.Length && k < |points|
    ensures |r| == |was|
  {
    if k == 0 then was else area.Picture(was, Path(points[..k + 1], style, n))
  }

  lemma SegmentDrawn(area: Area, was: seq<int>, points: seq<Point>, k: nat, style: Style, n: nat)
    requires area.Valid() && |was| == area.fb.Length && k + 1 < |points|
    ensures var p, q, m := points[k], points[k + 1], n + Length(points[..k + 1]);
            && m + StepsBetween(p, q) == n + Length(points[..k + 2])
            && area.Picture(SoFar(area, was, points, k, style, n),
                            Dots(p.x, p.y, q.x, q.y, style, m, Steps(p.x, p.y, q.x, q.y) + 1))
               == SoFar(area, was, points, k + 1, style, n)
  {
    PathGrows(points, k, style, n);
    if k == 0 {
      FirstDrawn(area, was, points, style, n);
    } else {
      NextDrawn(area, was, points, k, style, n);
    }
  }
}
