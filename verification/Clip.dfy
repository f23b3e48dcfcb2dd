/** Cutting a segment to a box: what is left of it is exactly the part of it inside. */
module Clip {
  import opened Basics

  datatype Spot = Spot(x: real, y: real)

  datatype Segment = Segment(from: Spot, to: Spot)

  datatype Box = Box(left: real, right: real, top: real, bottom: real)

  predicate Inside(box: Box, s: Spot) {
    box.left <= s.x <= box.right && box.top <= s.y <= box.bottom
  }

  /** A point of a segment, by how much of the way along it. */
  function Along(a: Spot, b: Spot, t: real): Spot {
    Spot(a.x + t * (b.x - a.x), a.y + t * (b.y - a.y))
  }

  /** One side of the box, as what a part of the way times p may be at most. */
  datatype Side = Side(p: real, q: real)

  predicate Meets(e: Side, t: real) {
    Product(e.p, t) <= e.q
  }

  function Sides(box: Box, a: Spot, b: Spot): (e: seq<Side>)
    ensures |e| == 4
  {
    var dx, dy := b.x - a.x, b.y - a.y;
    [Side(0.0 - dx, a.x - box.left), Side(dx, box.right - a.x),
     Side(0.0 - dy, a.y - box.top), Side(dy, box.bottom - a.y)]
  }

  /** From how much of the way to how much. */
  datatype Stretch = Stretch(from: real, to: real)

  predicate Has(r: Option<Stretch>, t: real) {
    r.Some? && r.value.from <= t <= r.value.to
  }

  /** A stretch with one side more to be kept to. */
  function CutBy(r: Stretch, e: Side): Option<Stretch> {
    if e.p == 0.0 then
      if e.q < 0.0 then None else Some(r)
    else if e.p < 0.0 then Some(r.(from := Larger(r.from, e.q / e.p)))
    else Some(r.(to := Lesser(r.to, e.q / e.p)))
  }

  function Cut(sides: seq<Side>): Option<Stretch> {
    if sides == [] then Some(Stretch(0.0, 1.0))
    else match Cut(sides[..|sides| - 1])
      case None => None
      case Some(r) => CutBy(r, sides[|sides| - 1])
  }

  /** The segment cut to the box, if any of it is there. */
  function Clipped(box: Box, a: Spot, b: Spot): Option<Segment> {
    match Cut(Sides(box, a, b))
    case None => None
    case Some(r) => if r.from > r.to then None else Some(Segment(Along(a, b, r.from), Along(a, b, r.to)))
  }

  lemma {:induction false} StaysCut(sides: seq<Side>, i: nat)
    requires i <= |sides| && Cut(sides[..i]).None?
    ensures Cut(sides).None?
    decreases |sides|
  {
    if i < |sides| {
      var front := sides[..|sides| - 1];
      assert front[..i] == sides[..i];
      StaysCut(front, i);
    } else {
      assert sides[..i] == sides;
    }
  }

  method ClipTo(box: Box, a: Spot, b: Spot) returns (r: Option<Segment>)
    ensures r == Clipped(box, a, b)
  {
    var sides := Sides(box, a, b);
    var t0, t1 := 0.0, 1.0;
    for i := 0 to 4
      invariant Cut(sides[..i]) == Some(Stretch(t0, t1))
    {
      var e := sides[i];
      assert sides[..i + 1][..i] == sides[..i];
      if e.p == 0.0 {
        if e.q < 0.0 {
          StaysCut(sides, i + 1);
          return None;
        }
        continue;
      }
      var t := e.q / e.p;
      if e.p < 0.0 {
        t0 := Larger(t0, t);
      } else {
        t1 := Lesser(t1, t);
      }
    }
    assert sides[..4] == sides;
    if t0 > t1 {
      return None;
    }
    return Some(Segment(Along(a, b, t0), Along(a, b, t1)));
  }

  // -------------------------------------------------------------- what is left is what is inside

  lemma OneSide(e: Side, t: real)
    requires e.p != 0.0
    ensures e.p < 0.0 ==> (Meets(e, t) <==> e.q / e.p <= t)
    ensures e.p > 0.0 ==> (Meets(e, t) <==> t <= e.q / e.p)
  {
    var c := e.q / e.p;
    assert e.q == e.p * c;
    assert e.p * t - e.q == e.p * (t - c);
    if e.p < 0.0 {
      Turned(0.0 - e.p, t - c);
    } else {
      Turned(e.p, t - c);
    }
  }

  lemma Turned(p: real, d: real)
    requires p > 0.0
    ensures p * d <= 0.0 <==> d <= 0.0
    ensures p * d >= 0.0 <==> d >= 0.0
  {
    if d > 0.0 { assert p * d > 0.0; }
    if d < 0.0 { assert p * (0.0 - d) > 0.0; }
  }

  lemma OneCut(r: Stretch, e: Side, t: real)
    ensures Has(CutBy(r, e), t) <==> r.from <= t <= r.to && Meets(e, t)
  {
    if e.p != 0.0 { OneSide(e, t); }
  }

  /** The stretch left is of the parts of the way that keep to every side. */
  lemma {:induction false} CutExactly(sides: seq<Side>, t: real)
    ensures Has(Cut(sides), t) <==> 0.0 <= t <= 1.0 && forall i :: 0 <= i < |sides| ==> Meets(sides[i], t)
    decreases |sides|
  {
    if sides != [] {
      var front, last := sides[..|sides| - 1], sides[|sides| - 1];
      CutExactly(front, t);
      assert forall i :: 0 <= i < |front| ==> front[i] == sides[i];
      if Cut(front).Some? { OneCut(Cut(front).value, last, t); }
    }
  }

  lemma SidesAreTheBox(box: Box, a: Spot, b: Spot, t: real)
    ensures (forall i :: 0 <= i < 4 ==> Meets(Sides(box, a, b)[i], t)) <==> Inside(box, Along(a, b, t))
  {
    var e := Sides(box, a, b);
    var dx, dy := b.x - a.x, b.y - a.y;
    assert (0.0 - dx) * t == 0.0 - t * dx && (0.0 - dy) * t == 0.0 - t * dy;
    assert Meets(e[0], t) <==> box.left <= a.x + t * dx;
    assert Meets(e[1], t) <==> a.x + t * dx <= box.right;
    assert Meets(e[2], t) <==> box.top <= a.y + t * dy;
    assert Meets(e[3], t) <==> a.y + t * dy <= box.bottom;
  }

  /** A point of the segment is in the box exactly where it is in the stretch that is left. */
  lemma InsideExactly(box: Box, a: Spot, b: Spot, t: real)
    requires 0.0 <= t <= 1.0
    ensures Has(Cut(Sides(box, a, b)), t) <==> Inside(box, Along(a, b, t))
  {
    CutExactly(Sides(box, a, b), t);
    SidesAreTheBox(box, a, b, t);
  }

  lemma {:induction false} CutWithin(sides: seq<Side>)
    ensures Cut(sides).Some? ==> Cut(sides).value.from >= 0.0 && Cut(sides).value.to <= 1.0
    decreases |sides|
  {
    if sides != [] { CutWithin(sides[..|sides| - 1]); }
  }

  /** What is left is on the segment, the same way round, and is all of it that is in the box; where nothing is left,
      none of it is. */
  lemma ClippedExactly(box: Box, a: Spot, b: Spot) returns (from: real, to: real)
    ensures Clipped(box, a, b).None? <==> forall t :: 0.0 <= t <= 1.0 ==> !Inside(box, Along(a, b, t))
    ensures Clipped(box, a, b).Some? ==>
              && 0.0 <= from <= to <= 1.0
              && Clipped(box, a, b).value == Segment(Along(a, b, from), Along(a, b, to))
              && forall t :: 0.0 <= t <= 1.0 ==> (Inside(box, Along(a, b, t)) <==> from <= t <= to)
  {
    var cut := Cut(Sides(box, a, b));
    CutWithin(Sides(box, a, b));
    from, to := if cut.Some? then cut.value.from else 1.0, if cut.Some? then cut.value.to else 0.0;
    forall t | 0.0 <= t <= 1.0 ensures Inside(box, Along(a, b, t)) <==> from <= t <= to {
      InsideExactly(box, a, b, t);
    }
    if from <= to { assert Inside(box, Along(a, b, from)); }
  }

  /** A segment whose ends are in the box is left as it is. */
  lemma InsideStays(box: Box, a: Spot, b: Spot)
    requires Inside(box, a) && Inside(box, b)
    ensures Clipped(box, a, b) == Some(Segment(a, b))
  {
    var cut := Cut(Sides(box, a, b));
    CutWithin(Sides(box, a, b));
    assert Along(a, b, 0.0) == a && Along(a, b, 1.0) == b;
    InsideExactly(box, a, b, 0.0);
    InsideExactly(box, a, b, 1.0);
    assert cut == Some(Stretch(0.0, 1.0));
  }
}
