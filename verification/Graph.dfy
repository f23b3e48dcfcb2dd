/** The plotter's line: which pixels it inks between two points, in any direction. */
module Graph {

  datatype Style = Solid | Dashed | Dotted

  /** A pixel of a line, and whether its style inks it. */
  datatype Dot = Dot(x: int, y: int, ink: bool)

  function Abs(a: int): nat {
    if a < 0 then -a else a
  }

  function Max(a: int, b: int): int {
    if a < b then b else a
  }

  /** Whether a style inks a pixel, by how far along its curve that is. */
  predicate Inked(style: Style, n: nat) {
    match style
    case Solid => true
    case Dashed => (n / 4) % 2 == 0
    case Dotted => n % 3 == 0
  }

  // ------------------------------------------------------ the line as it should be

  function Steps(x0: int, y0: int, x1: int, y1: int): nat {
    Max(Abs(x1 - x0), Abs(y1 - y0))
  }

  /** How far along one axis the line has come after k of steps steps, to the nearest pixel,
      a half rounded up; on the longer axis that is k. */
  function Along(k: nat, extent: nat, steps: nat): nat {
    AlongCovered(k, extent, steps, 3)
  }

  /** The same under covers, which a proof takes off where it has to look. */
  function AlongCovered(k: nat, extent: nat, steps: nat, covers: nat): nat
    decreases covers, k, extent, steps
  {
    if covers > 0 then AlongCovered(k, extent, steps, covers - 1)
    else if steps == 0 then 0
    else (2 * k * extent + steps) / (2 * steps)
  }

  /** The covers keep the division out of sight of a proof that does not ask for it. */
  lemma OpenAlong(k: nat, extent: nat, steps: nat)
    ensures Along(k, extent, steps) == if steps == 0 then 0 else (2 * k * extent + steps) / (2 * steps)
  {
    assert AlongCovered(k, extent, steps, 1) == AlongCovered(k, extent, steps, 0);
    assert AlongCovered(k, extent, steps, 2) == AlongCovered(k, extent, steps, 1);
  }

  function Toward(from: int, to: int, steps: nat): int {
    if from < to then from + steps else from - steps
  }

  function DotAt(x0: int, y0: int, x1: int, y1: int, style: Style, n: nat, k: nat): Dot {
    var steps := Steps(x0, y0, x1, y1);
    Dot(Toward(x0, x1, Along(k, Abs(x1 - x0), steps)),
        Toward(y0, y1, Along(k, Abs(y1 - y0), steps)),
        Inked(style, n + k))
  }

  /** The first count dots of a line whose curve is n pixels along already. */
  function Dots(x0: int, y0: int, x1: int, y1: int, style: Style, n: nat, count: nat): (r: seq<Dot>)
    ensures |r| == count
  {
    seq(count, k requires 0 <= k < count => DotAt(x0, y0, x1, y1, style, n, k))
  }

  // --------------------------------------------------------------- the screen

  /** Part of a framebuffer to draw on, one value for each pixel, row after row. */
  class Area {
    const fb: array<int>
    const stride: nat
    const left: nat
    const top: nat
    const width: nat
    const height: nat
    const ink: int

    constructor (fb: array<int>, stride: nat, left: nat, top: nat, width: nat, height: nat, ink: int)
      requires left + width <= stride && (top + height) * stride <= fb.Length
      ensures Valid() && this.fb == fb
    {
      this.fb, this.stride, this.left, this.top := fb, stride, left, top;
      this.width, this.height, this.ink := width, height, ink;
    }

    predicate Valid() {
      left + width <= stride && (top + height) * stride <= fb.Length
    }

    predicate Inside(x: int, y: int) {
      left <= x < left + width && top <= y < top + height
    }

    lemma InBounds(x: int, y: int)
      requires Valid() && Inside(x, y)
      ensures 0 <= y * stride + x < fb.Length
    {
      assert (y + 1) * stride <= (top + height) * stride;
    }

    /** The picture with one dot more; off the area there is nothing to ink. */
    ghost function Inking(picture: seq<int>, d: Dot): (r: seq<int>)
      requires Valid() && |picture| == fb.Length
      ensures |r| == |picture|
    {
      if d.ink && Inside(d.x, d.y) then
        InBounds(d.x, d.y);
        picture[d.y * stride + d.x := ink]
      else picture
    }

    ghost function Picture(picture: seq<int>, dots: seq<Dot>): (r: seq<int>)
      requires Valid() && |picture| == fb.Length
      ensures |r| == |picture|
    {
      if dots == [] then picture
      else Inking(Picture(picture, dots[..|dots| - 1]), dots[|dots| - 1])
    }

    method PutDot(x: int, y: int)
      requires Valid()
      modifies fb
      ensures fb[..] == Inking(old(fb[..]), Dot(x, y, true))
    {
      if x < left || x >= left + width || y < top || y >= top + height {
        return;
      }
      InBounds(x, y);
      fb[y * stride + x] := ink;
    }

    /** Ink the line, and return how far along its curve the next one starts. */
    method Line(x0: int, y0: int, x1: int, y1: int, style: Style, n: nat) returns (next: nat)
      requires Valid()
      modifies fb
      ensures next == n + Steps(x0, y0, x1, y1)
      ensures fb[..] == Picture(old(fb[..]), Dots(x0, y0, x1, y1, style, n, Steps(x0, y0, x1, y1) + 1))
    {
      var err: int := Abs(x1 - x0) - Abs(y1 - y0);
      var x, y := x0, y0;
      next := n;
      ghost var steps := Steps(x0, y0, x1, y1);
      ghost var k, a, b := 0, 0, 0;
      Start(Abs(x1 - x0), Abs(y1 - y0));
      assert Dots(x0, y0, x1, y1, style, n, 0) == [];
      while true
        invariant 0 <= k <= steps && next == n + k
        invariant Following(k, a, b, Abs(x1 - x0), Abs(y1 - y0), err)
        invariant x == Toward(x0, x1, a) && y == Toward(y0, y1, b)
        invariant fb[..] == Picture(old(fb[..]), Dots(x0, y0, x1, y1, style, n, k))
        decreases steps - k
      {
        Arrived(k, a, b, Abs(x1 - x0), Abs(y1 - y0));
        OneMoreDot(x0, y0, x1, y1, style, n, k);
        assert DotAt(x0, y0, x1, y1, style, n, k) == Dot(x, y, Inked(style, next));
        // What ends one segment begins the next, and is one pixel of the two
        if Inked(style, next) {
          PutDot(x, y);
        }
        if x == x1 && y == y1 {
          return;
        }
        next := next + 1;
        err, x, y, a, b := Step(x0, y0, x1, y1, x, y, err, k, a, b);
        k := k + 1;
      }
    }
  }

  /** One step on: along x, along y, or along both. */
  method Step(x0: int, y0: int, x1: int, y1: int, x: int, y: int, err: int, ghost k: nat, ghost a: nat, ghost b: nat)
    returns (err': int, x': int, y': int, ghost c: nat, ghost d: nat)
    requires k < Steps(x0, y0, x1, y1) && Following(k, a, b, Abs(x1 - x0), Abs(y1 - y0), err)
    requires x == Toward(x0, x1, a) && y == Toward(y0, y1, b)
    ensures Following(k + 1, c, d, Abs(x1 - x0), Abs(y1 - y0), err')
    ensures x' == Toward(x0, x1, c) && y' == Toward(y0, y1, d)
  {
    var dx := Abs(x1 - x0);
    var sx := if x0 < x1 then 1 else -1;
    var dy := 0 - Abs(y1 - y0);
    var sy := if y0 < y1 then 1 else -1;
    var e2 := 2 * err;
    err', x', y' := err, x, y;
    if e2 >= dy {
      err' := err' + dy;
      x' := x' + sx;
    }
    if e2 <= dx {
      err' := err' + dx;
      y' := y' + sy;
    }
    c, d := NextOnLine(k, a, b, dx, -dy, err);
  }

  lemma OneMoreDot(x0: int, y0: int, x1: int, y1: int, style: Style, n: nat, k: nat)
    ensures Dots(x0, y0, x1, y1, style, n, k + 1) ==
            Dots(x0, y0, x1, y1, style, n, k) + [DotAt(x0, y0, x1, y1, style, n, k)]
  {
  }

  // ------------------------------------------------------- why the loop is right

  /** After k steps the line is a pixels along x and b along y, each the nearest to the true line. */
  predicate OnLine(k: nat, a: nat, b: nat, dx: nat, dy: nat) {
    a == Along(k, dx, Max(dx, dy)) && b == Along(k, dy, Max(dx, dy))
  }

  /** And the loop's error term says which way it has to go. */
  ghost predicate Following(k: nat, a: nat, b: nat, dx: nat, dy: nat, err: int) {
    OnLine(k, a, b, dx, dy) && err == Error(a, b, dx, dy)
  }

  function Error(a: nat, b: nat, dx: nat, dy: nat): int {
    ErrorCovered(a, b, dx, dy, 3)
  }

  /** The same under covers, which a proof takes off where it has to look. */
  function ErrorCovered(a: nat, b: nat, dx: nat, dy: nat, covers: nat): int
    decreases covers, a, b, dx, dy
  {
    if covers > 0 then ErrorCovered(a, b, dx, dy, covers - 1) else (b + 1) * dx - (a + 1) * dy
  }

  lemma OpenError(a: nat, b: nat, dx: nat, dy: nat)
    ensures Error(a, b, dx, dy) == b * dx - a * dy + dx - dy
  {
    assert ErrorCovered(a, b, dx, dy, 1) == ErrorCovered(a, b, dx, dy, 0);
    assert ErrorCovered(a, b, dx, dy, 2) == ErrorCovered(a, b, dx, dy, 1);
    assert (b + 1) * dx - (a + 1) * dy == b * dx - a * dy + dx - dy;
  }

  /** The nearest pixel, a half rounded up, without dividing. */
  lemma Nearest(k: nat, extent: nat, steps: nat, m: nat)
    requires steps > 0
    ensures m == Along(k, extent, steps) <==> 0 - steps < 2 * (m * steps - k * extent) <= steps
  {
    OpenAlong(k, extent, steps);
    var w := k * extent;
    assert 2 * k * extent == 2 * w;
    Quotient(2 * w + steps, 2 * steps, m);
    assert m * (2 * steps) == 2 * (m * steps) && (m + 1) * (2 * steps) == 2 * (m * steps) + 2 * steps;
  }

  lemma Quotient(t: nat, d: nat, m: nat)
    requires d > 0
    ensures m == t / d <==> m * d <= t < (m + 1) * d
  {
    var q := t / d;
    assert t == q * d + t % d;
    assert (q + 1) * d == q * d + d;
  }

  lemma Times(a: int, b: int, d: nat)
    requires a <= b
    ensures a * d <= b * d
  {
  }

  lemma Start(dx: nat, dy: nat)
    ensures Following(0, 0, 0, dx, dy, dx - dy)
  {
    var steps := Max(dx, dy);
    OpenAlong(0, dx, steps);
    OpenAlong(0, dy, steps);
    OpenError(0, 0, dx, dy);
    if steps > 0 { Nearest(0, dx, steps, 0); Nearest(0, dy, steps, 0); }
  }

  /** The line is at its end exactly when its steps are done. */
  lemma Arrived(k: nat, a: nat, b: nat, dx: nat, dy: nat)
    requires k <= Max(dx, dy) && OnLine(k, a, b, dx, dy)
    ensures a == dx && b == dy <==> k == Max(dx, dy)
    ensures a <= dx && b <= dy
  {
    var steps := Max(dx, dy);
    OpenAlong(0, dx, 0);
    OpenAlong(0, dy, 0);
    if steps > 0 {
      Nearest(k, steps, steps, k);
      Nearest(steps, dx, steps, dx);
      Nearest(steps, dy, steps, dy);
      NoFurther(k, dx, steps);
      NoFurther(k, dy, steps);
    }
  }

  lemma NoFurther(k: nat, extent: nat, steps: nat)
    requires 0 < steps && k <= steps && extent <= steps
    ensures Along(k, extent, steps) <= extent
  {
    var m := Along(k, extent, steps);
    Nearest(k, extent, steps, m);
    Times(k, steps, extent);
    Past(m * steps, k * extent, extent * steps, steps);
    if m > extent { OneFurther(m, extent, steps); }
  }

  lemma OneFurther(m: nat, extent: nat, steps: nat)
    requires m > extent
    ensures m * steps >= extent * steps + steps
  {
    Times(extent + 1, m, steps);
    assert (extent + 1) * steps == extent * steps + steps;
  }

  lemma Past(a: nat, b: nat, c: nat, steps: nat)
    requires 2 * (a - b) <= steps && b <= c && 0 < steps
    ensures a < c + steps
  {
  }

  /** The shorter axis moves on exactly when the line would otherwise fall half a pixel behind. */
  lemma NextMinor(k: nat, m: nat, major: nat, minor: nat)
    requires 0 < major && m == Along(k, minor, major)
    requires minor <= major
    ensures Along(k + 1, minor, major) ==
            if 2 * (m * major - k * minor) <= 2 * minor - major then m + 1 else m
  {
    var up := 2 * (m * major - k * minor) <= 2 * minor - major;
    var next := if up then m + 1 else m;
    Nearest(k, minor, major, m);
    assert (m + 1) * major == m * major + major && (k + 1) * minor == k * minor + minor;
    Nearest(k + 1, minor, major, next);
  }

  lemma ErrorAlongX(a: nat, b: nat, dx: nat, dy: nat)
    ensures Error(a + 1, b, dx, dy) == Error(a, b, dx, dy) - dy
  {
    OpenError(a, b, dx, dy);
    OpenError(a + 1, b, dx, dy);
    assert (a + 1) * dy == a * dy + dy;
  }

  lemma ErrorAlongY(a: nat, b: nat, dx: nat, dy: nat)
    ensures Error(a, b + 1, dx, dy) == Error(a, b, dx, dy) + dx
  {
    OpenError(a, b, dx, dy);
    OpenError(a, b + 1, dx, dy);
    assert (b + 1) * dx == b * dx + dx;
  }

  lemma NextShallow(k: nat, b: nat, dx: nat, dy: nat)
    requires dy <= dx && k < dx && b == Along(k, dy, dx)
    ensures var err := Error(k, b, dx, dy);
            2 * err >= 0 - dy && Along(k + 1, dy, dx) == if 2 * err <= dx then b + 1 else b
  {
    OpenError(k, b, dx, dy);
    Nearest(k, dy, dx, b);
    NextMinor(k, b, dx, dy);
  }

  lemma NextSteep(k: nat, a: nat, dx: nat, dy: nat)
    requires dx < dy && k < dy && a == Along(k, dx, dy)
    ensures var err := Error(a, k, dx, dy);
            2 * err <= dx && Along(k + 1, dx, dy) == if 2 * err >= 0 - dy then a + 1 else a
  {
    OpenError(a, k, dx, dy);
    Nearest(k, dx, dy, a);
    NextMinor(k, a, dy, dx);
  }

  lemma NextOnLine(k: nat, a: nat, b: nat, dx: nat, dy: nat, err: int) returns (c: nat, d: nat)
    requires k < Max(dx, dy) && Following(k, a, b, dx, dy, err)
    ensures c == if 2 * err >= 0 - dy then a + 1 else a
    ensures d == if 2 * err <= dx then b + 1 else b
    ensures Following(k + 1, c, d, dx, dy, err - (if c > a then dy else 0) + if d > b then dx else 0)
  {
    c, d := if 2 * err >= 0 - dy then a + 1 else a, if 2 * err <= dx then b + 1 else b;
    var steps := Max(dx, dy);
    Nearest(k, steps, steps, k);
    Nearest(k + 1, steps, steps, k + 1);
    if dx >= dy { NextShallow(k, b, dx, dy); } else { NextSteep(k, a, dx, dy); }
    if c > a { ErrorAlongX(a, b, dx, dy); }
    if d > b { ErrorAlongY(c, b, dx, dy); }
  }

  // ------------------------------------------------------------ what the line is

  /** Every dot is within half a pixel of the true line. */
  lemma WithinHalfAPixel(x0: int, y0: int, x1: int, y1: int, style: Style, n: nat, k: nat)
    requires k <= Steps(x0, y0, x1, y1)
    ensures var d := DotAt(x0, y0, x1, y1, style, n, k);
            Abs(2 * ((d.y - y0) * (x1 - x0) - (d.x - x0) * (y1 - y0))) <= Steps(x0, y0, x1, y1)
  {
    var dx, dy, steps := Abs(x1 - x0), Abs(y1 - y0), Steps(x0, y0, x1, y1);
    if steps > 0 {
      var a, b := Along(k, dx, steps), Along(k, dy, steps);
      NearTrue(k, a, b, dx, dy, steps);
      Signed(b, dx, a, dy, x1 - x0, y1 - y0);
    }
  }

  lemma NearTrue(k: nat, a: nat, b: nat, dx: nat, dy: nat, steps: nat)
    requires steps == Max(dx, dy) && steps > 0 && OnLine(k, a, b, dx, dy)
    ensures Abs(2 * (b * dx - a * dy)) <= steps
  {
    Nearest(k, steps, steps, k);
    if dx >= dy { Nearest(k, dy, steps, b); } else { Nearest(k, dx, steps, a); }
  }

  lemma Signed(b: int, dx: int, a: int, dy: int, x: int, y: int)
    requires dx == Abs(x) && dy == Abs(y)
    ensures var sa, sb := if x > 0 then a else -a, if y > 0 then b else -b;
            Abs(2 * (sb * x - sa * y)) == Abs(2 * (b * dx - a * dy))
  {
    if x > 0 && y <= 0 { assert -b * x == -(b * x) && a * y == -(a * -y); }
    if x <= 0 && y > 0 { assert b * x == -(b * -x) && -a * y == -(a * y); }
    if x <= 0 && y <= 0 { assert -b * x == b * -x && -a * y == a * -y; }
  }

  /** The line goes from one end to the other, a neighbouring pixel at a time. */
  lemma EndToEnd(x0: int, y0: int, x1: int, y1: int, style: Style, n: nat)
    ensures var dots := Dots(x0, y0, x1, y1, style, n, Steps(x0, y0, x1, y1) + 1);
            && dots[0] == Dot(x0, y0, Inked(style, n))
            && dots[|dots| - 1] == Dot(x1, y1, Inked(style, n + Steps(x0, y0, x1, y1)))
            && forall k :: 0 < k < |dots| ==>
                 Max(Abs(dots[k].x - dots[k - 1].x), Abs(dots[k].y - dots[k - 1].y)) == 1
  {
    var dx, dy, steps := Abs(x1 - x0), Abs(y1 - y0), Steps(x0, y0, x1, y1);
    Start(dx, dy);
    Arrived(steps, Along(steps, dx, steps), Along(steps, dy, steps), dx, dy);
    forall k | 0 < k <= steps
      ensures Max(Abs(DotAt(x0, y0, x1, y1, style, n, k).x - DotAt(x0, y0, x1, y1, style, n, k - 1).x),
                  Abs(DotAt(x0, y0, x1, y1, style, n, k).y - DotAt(x0, y0, x1, y1, style, n, k - 1).y)) == 1
    {
      Neighbours(k - 1, dx, dy, steps);
    }
  }

  lemma Neighbours(k: nat, dx: nat, dy: nat, steps: nat)
    requires steps == Max(dx, dy) && k < steps
    ensures 0 <= Along(k + 1, dx, steps) - Along(k, dx, steps) <= 1
    ensures 0 <= Along(k + 1, dy, steps) - Along(k, dy, steps) <= 1
    ensures Along(k + 1, dx, steps) > Along(k, dx, steps) || Along(k + 1, dy, steps) > Along(k, dy, steps)
  {
    Nearest(k, steps, steps, k);
    Nearest(k + 1, steps, steps, k + 1);
    if dx >= dy {
      NextMinor(k, Along(k, dy, steps), steps, dy);
    } else {
      NextMinor(k, Along(k, dx, steps), steps, dx);
    }
  }
}
