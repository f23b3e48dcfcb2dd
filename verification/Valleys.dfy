/** A function that falls and then rises: golden sections close in on its lowest point. */
module Valleys {
  import opened Basics
  import opened Brent
  import opened Search

  /** Falls as far as z, and rises from there. */
  ghost predicate Valley(f: Curve, sign: real, a: real, b: real, z: real) {
    && a <= z <= b && (forall x :: a <= x <= b ==> f(x).Some?)
    && forall x, y :: a <= x < y <= b && (y <= z || z <= x) ==> Below(f, sign, x, y, z)
  }

  /** Of two points on the same side of z, the nearer is the lower. */
  ghost predicate Below(f: Curve, sign: real, x: real, y: real, z: real) {
    && f(x).Some? && f(y).Some?
    && (y <= z ==> Signed(sign, f(y).value) < Signed(sign, f(x).value))
    && (z <= x && x < y ==> Signed(sign, f(x).value) < Signed(sign, f(y).value))
  }

  // ------------------------------------------------------------------ how the points lie

  /** How far out of place a point kept from section to section can have got. */
  ghost function Drift(k: nat): (d: real)
    ensures d >= 0.0
  {
    if k == 0 then 0.0 else 1.62 * (5e-18 + Drift(k - 1))
  }

  lemma DriftTen(k: nat)
    ensures Drift(k + 10) <= 125.0 * Drift(k) + 2e-15
  {
    assert Drift(k + 2) <= 2.6244 * Drift(k) + 2.2e-17;
    assert Drift(k + 4) <= 2.6244 * Drift(k + 2) + 2.2e-17;
    assert Drift(k + 6) <= 2.6244 * Drift(k + 4) + 2.2e-17;
    assert Drift(k + 8) <= 2.6244 * Drift(k + 6) + 2.2e-17;
    assert Drift(k + 10) <= 2.6244 * Drift(k + 8) + 2.2e-17;
  }

  lemma DriftSmall()
    ensures Drift(64) <= 0.0007
  {
    DriftTen(0);
    DriftTen(10);
    DriftTen(20);
    DriftTen(30);
    DriftTen(40);
    DriftTen(50);
    assert Drift(62) <= 2.6244 * Drift(60) + 2.2e-17;
    assert Drift(64) <= 2.6244 * Drift(62) + 2.2e-17;
  }

  lemma {:induction false} DriftGrows(k: nat, n: nat)
    requires k <= n
    ensures Drift(k) <= Drift(n)
  {
    if k < n { DriftGrows(k, n - 1); }
  }

  ghost function Shrink(k: nat): (d: real)
    ensures d > 0.0
  {
    if k == 0 then 1.0 else 0.62 * Shrink(k - 1)
  }

  lemma ShrinkEight(k: nat)
    ensures Shrink(k + 8) <= 0.0219 * Shrink(k)
  {
    assert Shrink(k + 2) == 0.3844 * Shrink(k);
    assert Shrink(k + 4) == 0.3844 * Shrink(k + 2);
    assert Shrink(k + 6) == 0.3844 * Shrink(k + 4);
    assert Shrink(k + 8) == 0.3844 * Shrink(k + 6);
  }

  lemma ShrinkSmall()
    ensures 16.0 * Shrink(64) <= 1e-12
  {
    ShrinkEight(0);
    ShrinkEight(8);
    ShrinkEight(16);
    ShrinkEight(24);
    ShrinkEight(32);
    ShrinkEight(40);
    ShrinkEight(48);
    ShrinkEight(56);
  }

  /** That part of it from one end of a section, or out by so much of its width. */
  ghost predicate PartIn(s: Section, d: real, left: real, right: real) {
    var w := s.hi - s.lo;
    left == 0.38196601125010515 * w && Magnitude(right - 0.38196601125010515 * w) <= Brent.Times(d, w)
  }

  /** One of the points is just where it should be, and the other nearly. */
  ghost predicate Placed(s: Section, d: real) {
    && s.lo < s.hi
    && (PartIn(s, d, s.x1 - s.lo, s.hi - s.x2) || PartIn(s, d, s.hi - s.x2, s.x1 - s.lo))
  }

  lemma Scaling(c: real, d: real, w: real)
    requires w >= 0.0 && c <= d
    ensures Brent.Times(c, w) <= Brent.Times(d, w)
  {
    assert (d - c) * w >= 0.0;
  }

  lemma PlacedInside(s: Section, d: real)
    requires Placed(s, d) && d <= 0.0007
    ensures s.lo < s.x1 < s.x2 < s.hi
  {
    Scaling(d, 0.0007, s.hi - s.lo);
  }

  /** What is left of a width when one end is cut off, and how far out the point kept then is. */
  lemma CutOff(w: real, p: real, q: real, d: real, v: real)
    requires w > 0.0 && v == w - q && 0.0 <= d <= 0.0007
    requires var g := 0.38196601125010515;
             || (p == g * w && Magnitude(q - g * w) <= Brent.Times(d, w))
             || (q == g * w && Magnitude(p - g * w) <= Brent.Times(d, w))
    ensures 0.0 < v <= 0.62 * w
    ensures Magnitude(w - p - q - 0.38196601125010515 * v) <= Brent.Times(1.62 * (5e-18 + d), v)
  {
    var e := Brent.Times(d, w);
    Scaling(d, 0.0007, w);
    CutOffBy(w, p, q, e, v);
    OutBy(w, v, d);
  }

  lemma CutOffBy(w: real, p: real, q: real, e: real, v: real)
    requires w > 0.0 && v == w - q && 0.0 <= e <= 0.0007 * w
    requires var g := 0.38196601125010515;
             (p == g * w && Magnitude(q - g * w) <= e) || (q == g * w && Magnitude(p - g * w) <= e)
    ensures 0.0 < v <= 0.62 * w && w <= 1.62 * v
    ensures Magnitude(w - p - q - 0.38196601125010515 * v) <= 5e-18 * w + e
  {
  }

  lemma OutBy(w: real, v: real, d: real)
    requires w <= 1.62 * v && d >= 0.0
    ensures 5e-18 * w + Brent.Times(d, w) <= Brent.Times(1.62 * (5e-18 + d), v)
  {
    var c := 5e-18 + d;
    assert Brent.Times(c, w) == 5e-18 * w + Brent.Times(d, w);
    Rearranged(c, w, v);
  }

  lemma Rearranged(c: real, w: real, v: real)
    requires w <= 1.62 * v && c >= 0.0
    ensures Brent.Times(c, w) <= Brent.Times(1.62 * c, v)
  {
    Scaling(w, 1.62 * v, c);
    assert Brent.Times(w, c) == Brent.Times(c, w) && Brent.Times(1.62 * v, c) == Brent.Times(1.62 * c, v);
  }

  /** A section less its right-hand end, with its left-hand point kept, */
  lemma CutRight(s: Section, d: real, t: Section)
    requires Placed(s, d) && 0.0 <= d <= 0.0007
    requires t.lo == s.lo && t.hi == s.x2 && t.x2 == s.x1 && t.x1 == s.lo + GOLDEN * (s.x2 - s.lo)
    ensures Placed(t, 1.62 * (5e-18 + d)) && t.hi - t.lo <= 0.62 * (s.hi - s.lo)
  {
    CutOff(s.hi - s.lo, s.x1 - s.lo, s.hi - s.x2, d, t.hi - t.lo);
  }

  /** or the other way about. */
  lemma CutLeft(s: Section, d: real, t: Section)
    requires Placed(s, d) && 0.0 <= d <= 0.0007
    requires t.lo == s.x1 && t.hi == s.hi && t.x1 == s.x2 && t.x2 == s.hi - GOLDEN * (s.hi - s.x1)
    ensures Placed(t, 1.62 * (5e-18 + d)) && t.hi - t.lo <= 0.62 * (s.hi - s.lo)
  {
    CutOff(s.hi - s.lo, s.hi - s.x2, s.x1 - s.lo, d, t.hi - t.lo);
  }

  // ---------------------------------------------------------------- the lowest point stays in

  /** The lowest point is on the side that is kept. */
  lemma StaysIn(f: Curve, sign: real, s: Section, z: real)
    requires Valley(f, sign, s.lo, s.hi, z) && s.lo < s.x1 < s.x2 < s.hi
    requires IsSigned(f, sign, s.x1, s.f1) && IsSigned(f, sign, s.x2, s.f2)
    ensures s.f1 <= s.f2 ==> Valley(f, sign, s.lo, s.x2, z)
    ensures s.f1 > s.f2 ==> Valley(f, sign, s.x1, s.hi, z)
  {
    if s.x2 < z || z < s.x1 { assert Below(f, sign, s.x1, s.x2, z); }
  }

  /** An end of the section is where it was at first, or no lower than the points inside. */
  ghost predicate Outside(f: Curve, sign: real, s: Section, a: real, b: real) {
    && (s.lo == a || (f(s.lo).Some? && Lesser(s.f1, s.f2) <= Signed(sign, f(s.lo).value)))
    && (s.hi == b || (f(s.hi).Some? && Lesser(s.f1, s.f2) <= Signed(sign, f(s.hi).value)))
  }

  /** What is so all along: the points are where they should be, near enough, the lowest point is in the section, and
      it is so much narrower for every step. */
  ghost predicate Closing(f: Curve, sign: real, s: Section, z: real, a: real, b: real, k: nat) {
    && Placed(s, Drift(k)) && Valley(f, sign, s.lo, s.hi, z) && Outside(f, sign, s, a, b)
    && IsSigned(f, sign, s.x1, s.f1) && IsSigned(f, sign, s.x2, s.f2)
  }

  lemma PlacedNext(s: Section, d: real, y: real, t: Section)
    requires Placed(s, d) && 0.0 <= d <= 0.0007 && t == Moved(s, NextOf(s), y)
    ensures Placed(t, 1.62 * (5e-18 + d)) && t.hi - t.lo <= 0.62 * (s.hi - s.lo)
    ensures s.lo <= t.lo && t.hi <= s.hi
  {
    PlacedInside(s, d);
    if s.f1 <= s.f2 { CutRight(s, d, t); } else { CutLeft(s, d, t); }
  }

  lemma OutsideNext(f: Curve, sign: real, s: Section, a: real, b: real, y: real)
    requires Outside(f, sign, s, a, b) && IsSigned(f, sign, s.x1, s.f1) && IsSigned(f, sign, s.x2, s.f2)
    ensures Outside(f, sign, Moved(s, NextOf(s), y), a, b)
  {
  }

  lemma ClosesIn(f: Curve, sign: real, s: Section, z: real, a: real, b: real, k: nat, t: Section)
    requires Closing(f, sign, s, z, a, b, k) && k < 64
    requires f(NextOf(s)).Some? ==> t == Moved(s, NextOf(s), Signed(sign, f(NextOf(s)).value))
    ensures f(NextOf(s)).Some? && Closing(f, sign, t, z, a, b, k + 1)
    ensures t.hi - t.lo <= 0.62 * (s.hi - s.lo) && s.lo <= t.lo && t.hi <= s.hi
  {
    DriftSmall();
    DriftGrows(k, 64);
    PlacedInside(s, Drift(k));
    StaysIn(f, sign, s, z);
    NextIsInside(s);
    var y := Signed(sign, f(NextOf(s)).value);
    PlacedNext(s, Drift(k), y, t);
    OutsideNext(f, sign, s, a, b, y);
  }

  /** With the points as high as each other, it is the right-hand end that is cut off. */
  lemma TieCutsRight(s: Section, y: real)
    requires s.f1 == s.f2
    ensures NextOf(s) == s.lo + 0.38196601125010515 * (s.x2 - s.lo)
    ensures Moved(s, NextOf(s), y) == Section(s.lo, s.x2, NextOf(s), s.x1, y, s.f1)
  {
  }

  lemma NextIsInside(s: Section)
    requires s.lo < s.x1 < s.x2 < s.hi
    ensures s.lo <= NextOf(s) <= s.hi
  {
    PartWay(s.lo, s.hi, s.lo, s.x2);
    PartWay(s.lo, s.hi, s.x1, s.hi);
  }

  /** Where the search ends: a narrow section with the lowest point in it. */
  ghost predicate Closed(f: Curve, sign: real, e: Option<Section>, z: real, a: real, b: real) {
    && e.Some? && e.value.lo <= z <= e.value.hi && Narrow(e.value) && Outside(f, sign, e.value, a, b)
    && e.value.lo < e.value.x1 < e.value.x2 < e.value.hi
  }

  /** The same under covers, which a proof takes off where it has to look. */
  ghost predicate ClosingCovered(f: Curve, sign: real, s: Section, z: real, a: real, b: real, k: nat, covers: nat) {
    if covers > 0 then ClosingCovered(f, sign, s, z, a, b, k, covers - 1) else Closing(f, sign, s, z, a, b, k)
  }

  lemma OpenClosing(f: Curve, sign: real, s: Section, z: real, a: real, b: real, k: nat)
    ensures ClosingCovered(f, sign, s, z, a, b, k, 3) <==> Closing(f, sign, s, z, a, b, k)
  {
    assert ClosingCovered(f, sign, s, z, a, b, k, 1) == ClosingCovered(f, sign, s, z, a, b, k, 0);
    assert ClosingCovered(f, sign, s, z, a, b, k, 2) == ClosingCovered(f, sign, s, z, a, b, k, 1);
  }

  /** How wide a section can still be. */
  ghost function Room(k: nat, r: real): real {
    if k == 0 then 16.0 * (1.0 + r) else 0.62 * Room(k - 1, r)
  }

  lemma {:induction false} RoomIs(k: nat, r: real)
    ensures Room(k, r) == Brent.Times(16.0 * Shrink(k), 1.0 + r)
  {
    if k > 0 {
      RoomIs(k - 1, r);
      assert Brent.Times(0.62 * (16.0 * Shrink(k - 1)), 1.0 + r) == 0.62 * Brent.Times(16.0 * Shrink(k - 1), 1.0 + r);
    }
  }

  lemma RoomLeft(r: real)
    requires r >= 0.0
    ensures Room(64, r) <= 1e-12 * (1.0 + r)
  {
    RoomIs(64, r);
    ShrinkSmall();
    Scaling(16.0 * Shrink(64), 1e-12, 1.0 + r);
  }

  lemma NextCloses(f: Curve, sign: real, s: Section, z: real, a: real, b: real, k: nat, t: Section)
    requires ClosingCovered(f, sign, s, z, a, b, k, 3) && k < 64
    requires f(NextOf(s)).Some? ==> t == Moved(s, NextOf(s), Signed(sign, f(NextOf(s)).value))
    ensures f(NextOf(s)).Some? && ClosingCovered(f, sign, t, z, a, b, k + 1, 3)
    ensures t.hi - t.lo <= 0.62 * (s.hi - s.lo) && s.lo <= t.lo && t.hi <= s.hi
  {
    OpenClosing(f, sign, s, z, a, b, k);
    ClosesIn(f, sign, s, z, a, b, k, t);
    OpenClosing(f, sign, t, z, a, b, k + 1);
  }

  lemma ClosingInside(f: Curve, sign: real, s: Section, z: real, a: real, b: real, k: nat)
    requires ClosingCovered(f, sign, s, z, a, b, k, 3) && k <= 64
    ensures s.lo < s.x1 < s.x2 < s.hi && s.lo <= z <= s.hi && Outside(f, sign, s, a, b)
  {
    OpenClosing(f, sign, s, z, a, b, k);
    DriftSmall();
    DriftGrows(k, 64);
    PlacedInside(s, Drift(k));
  }

  /** Nowhere in a section is nearer nought than that. */
  ghost predicate AtLeast(s: Section, r: real) {
    r >= 0.0 && forall x :: s.lo <= x <= s.hi ==> Magnitude(x) >= r
  }

  lemma NarrowAtLast(s: Section, r: real)
    requires s.lo < s.x1 < s.hi && s.hi - s.lo <= Room(64, r) && AtLeast(s, r)
    ensures Narrow(s)
  {
    RoomLeft(r);
  }

  lemma {:induction false} HuntCloses(f: Curve, sign: real, s: Section, z: real, a: real, b: real, k: nat, times: nat,
                                      r: real)
    requires ClosingCovered(f, sign, s, z, a, b, k, 3) && k <= 64 && times >= 64 - k
    requires s.hi - s.lo <= Room(k, r) && AtLeast(s, r)
    ensures Closed(f, sign, Hunted(f, sign, s, times).end, z, a, b)
    decreases times
  {
    OpenHunted(f, sign, s, times);
    ClosingInside(f, sign, s, z, a, b, k);
    if k == 64 { NarrowAtLast(s, r); }
    if !Narrow(s) {
      var y := if f(NextOf(s)).Some? then f(NextOf(s)).value else 0.0;
      var t := Moved(s, NextOf(s), Signed(sign, y));
      NextCloses(f, sign, s, z, a, b, k, t);
      HuntCloses(f, sign, t, z, a, b, k + 1, times - 1, r);
    }
  }

  lemma FirstPlaced(f: Curve, sign: real, a: real, b: real, z: real, s: Section)
    requires a < b && Valley(f, sign, a, b, z) && s.lo == a && s.hi == b
    requires s.x1 == a + GOLDEN * (b - a) && s.x2 == b - GOLDEN * (b - a)
    requires IsSigned(f, sign, s.x1, s.f1) && IsSigned(f, sign, s.x2, s.f2)
    ensures ClosingCovered(f, sign, s, z, a, b, 0, 3)
  {
    OpenClosing(f, sign, s, z, a, b, 0);
  }

  /** The section a search of an interval begins with. */
  ghost function FirstOf(f: Curve, sign: real, a: real, b: real): (s: Section)
    requires forall x :: a <= x <= b ==> f(x).Some?
    requires a <= a + GOLDEN * (b - a) <= b && a <= b - GOLDEN * (b - a) <= b
  {
    var x1, x2 := a + GOLDEN * (b - a), b - GOLDEN * (b - a);
    Section(a, b, x1, x2, Signed(sign, f(x1).value), Signed(sign, f(x2).value))
  }

  lemma GoldenFrom(f: Curve, sign: real, a: real, b: real)
    requires forall x :: a <= x <= b ==> f(x).Some?
    requires a <= a + GOLDEN * (b - a) <= b && a <= b - GOLDEN * (b - a) <= b
    ensures Golden(f, sign, a, b).end == Hunted(f, sign, FirstOf(f, sign, a, b), 100).end
  {
  }

  lemma FirstCloses(f: Curve, sign: real, a: real, b: real, z: real)
    requires a < b && Valley(f, sign, a, b, z)
    requires a <= a + GOLDEN * (b - a) <= b && a <= b - GOLDEN * (b - a) <= b
    ensures ClosingCovered(f, sign, FirstOf(f, sign, a, b), z, a, b, 0, 3)
  {
    FirstPlaced(f, sign, a, b, z, FirstOf(f, sign, a, b));
  }

  lemma GoldenCloses(f: Curve, sign: real, a: real, b: real, z: real, r: real)
    requires a < b && Valley(f, sign, a, b, z)
    requires r >= 0.0 && b - a <= 16.0 * (1.0 + r) && forall x :: a <= x <= b ==> Magnitude(x) >= r
    ensures Closed(f, sign, Golden(f, sign, a, b).end, z, a, b)
  {
    PartWay(a, b, a, b);
    FirstCloses(f, sign, a, b, z);
    HuntCloses(f, sign, FirstOf(f, sign, a, b), z, a, b, 0, 100, r);
    GoldenFrom(f, sign, a, b);
  }

  /** No further off than that. */
  predicate Close(x: real, z: real) {
    Magnitude(x - z) <= 2e-12 * (1.0 + Magnitude(x))
  }

  lemma NearTheEnd(s: Section, z: real, x: real)
    requires s.lo <= z <= s.hi && s.lo < s.x1 < s.hi && s.lo <= x <= s.hi && Narrow(s)
    ensures Close(x, z)
  {
  }

  /** Of a function that falls and then rises, over an interval no wider than sixteen, or than sixteen times as far as
      it is from nought, the search ends at a point no further from the lowest there is than 2e-12 of that. */
  lemma ValleyFound(f: Curve, sign: real, a: real, b: real, z: real, r: real)
    requires a < b && Valley(f, sign, a, b, z)
    requires r >= 0.0 && b - a <= 16.0 * (1.0 + r) && forall x :: a <= x <= b ==> Magnitude(x) >= r
    ensures Golden(f, sign, a, b).end.Some? && Close(LowerOf(Golden(f, sign, a, b).end.value), z)
  {
    GoldenCloses(f, sign, a, b, z, r);
    var s := Golden(f, sign, a, b).end.value;
    NearTheEnd(s, z, LowerOf(s));
  }

  // --------------------------------------------------------------------- over the samples

  lemma EvenlySpaced(a: real, b: real, k: nat)
    requires k < 64
    ensures Grid(a, b, k + 1) - Grid(a, b, k) == (b - a) / 64.0 && Grid(a, b, 0) == a && Grid(a, b, 64) == b
  {
  }

  lemma BothSides(a: real, b: real, k: nat)
    requires k <= 64 && a < b
    ensures Grid(a, b, LeftOf(k)) < Grid(a, b, RightOf(k))
    ensures a <= Grid(a, b, LeftOf(k)) <= Grid(a, b, k) <= Grid(a, b, RightOf(k)) <= b
    ensures Grid(a, b, RightOf(k)) - Grid(a, b, LeftOf(k)) <= (b - a) / 32.0
  {
    if k > 0 { EvenlySpaced(a, b, k - 1); }
    if k < 64 { EvenlySpaced(a, b, k); }
    GridBetween(a, b, LeftOf(k));
    GridBetween(a, b, RightOf(k));
  }

  /** The lowest point of all is between the samples either side of the lowest sample. */
  lemma BestBeside(f: Curve, sign: real, a: real, b: real, z: real, k: nat)
    requires a < b && Valley(f, sign, a, b, z) && k == BestOf(sign, Scanned(f, a, b))
    ensures k <= 64 && Grid(a, b, LeftOf(k)) <= z <= Grid(a, b, RightOf(k))
  {
    var s := Scanned(f, a, b);
    BestIsLowest(sign, s);
    BothSides(a, b, k);
    var x, lo, hi := Grid(a, b, k), Grid(a, b, LeftOf(k)), Grid(a, b, RightOf(k));
    assert s[k] == Sample(x, f(x)) && s[LeftOf(k)] == Sample(lo, f(lo)) && s[RightOf(k)] == Sample(hi, f(hi));
    assert z < lo ==> Below(f, sign, lo, x, z);
    assert hi < z ==> Below(f, sign, x, hi, z);
  }

  /** Of samples as low as each other it is the first. */
  lemma {:induction false} BestIsFirst(sign: real, s: seq<Sample>, k: nat)
    requires BestOf(sign, s) > k && s[k].y.Some?
    ensures Signed(sign, s[BestOf(sign, s)].y.value) < Signed(sign, s[k].y.value)
  {
    var front := s[..|s| - 1];
    if BestOf(sign, front) == BestOf(sign, s) {
      BestIsFirst(sign, front, k);
    } else {
      BestIsLowest(sign, front);
      assert front[k] == s[k];
    }
  }

  lemma SomeBest(f: Curve, sign: real, a: real, b: real)
    requires a < b && forall x :: a <= x <= b ==> f(x).Some?
    ensures 0 <= BestOf(sign, Scanned(f, a, b)) <= 64
  {
    var t := Scanned(f, a, b);
    BestIsLowest(sign, t);
    BothSides(a, b, 0);
    assert t[0] == Sample(Grid(a, b, 0), f(Grid(a, b, 0)));
  }

  lemma PartOfValley(f: Curve, sign: real, a: real, b: real, z: real, p: real, q: real)
    requires Valley(f, sign, a, b, z) && a <= p <= z <= q <= b
    ensures Valley(f, sign, p, q, z)
  {
  }

  /** A point no higher than the one the search ends at is in the section it ends with. */
  lemma InSection(f: Curve, sign: real, a: real, b: real, z: real, s: Section, x: real)
    requires Valley(f, sign, a, b, z) && Closed(f, sign, Some(s), z, a, b) && a <= x <= b
    requires IsSigned(f, sign, s.x1, s.f1) && IsSigned(f, sign, s.x2, s.f2)
    requires f(x).Some? && Signed(sign, f(x).value) < Lesser(s.f1, s.f2)
    ensures s.lo <= x <= s.hi
  {
    assert x < s.lo ==> Below(f, sign, x, s.lo, z);
    assert s.hi < x ==> Below(f, sign, s.hi, x, z);
  }

  lemma BesideCloses(f: Curve, sign: real, a: real, b: real, z: real, r: real, k: nat)
    requires a < b && Valley(f, sign, a, b, z) && k == BestOf(sign, Scanned(f, a, b))
    requires r >= 0.0 && b - a <= 512.0 * (1.0 + r) && forall x :: a <= x <= b ==> Magnitude(x) >= r
    ensures k <= 64
    ensures var p, q := Grid(a, b, LeftOf(k)), Grid(a, b, RightOf(k));
            && p < q && Valley(f, sign, p, q, z) && p <= Grid(a, b, k) <= q
            && HuntBeside(f, sign, Scanned(f, a, b), k) == Golden(f, sign, p, q).end
            && Closed(f, sign, Golden(f, sign, p, q).end, z, p, q)
  {
    BestBeside(f, sign, a, b, z, k);
    BothSides(a, b, k);
    var p, q := Grid(a, b, LeftOf(k)), Grid(a, b, RightOf(k));
    PartOfValley(f, sign, a, b, z, p, q);
    GoldenCloses(f, sign, p, q, z, r);
  }

  lemma EndIsSigned(f: Curve, sign: real, p: real, q: real)
    requires p < q && Golden(f, sign, p, q).end.Some?
    ensures var s := Golden(f, sign, p, q).end.value;
            IsSigned(f, sign, s.x1, s.f1) && IsSigned(f, sign, s.x2, s.f2) && f(LowerOf(s)).Some?
            && Signed(sign, f(LowerOf(s)).value) == Lesser(s.f1, s.f2)
  {
    PartWay(p, q, p, q);
    GoldenIsSound(f, sign, p, q, p + GOLDEN * (q - p), q - GOLDEN * (q - p), ITERATIONS, Golden(f, sign, p, q));
  }

  /** The sample it began from, or where the search ended. */
  lemma ExtremumIs(f: Curve, sign: real, t: seq<Sample>, k: nat, s: Section)
    requires |t| == SCAN + 1 && k == BestOf(sign, t) && k <= SCAN && HuntBeside(f, sign, t, k) == Some(s)
    requires f(LowerOf(s)).Some?
    ensures var m, e := LowerOf(s), ExtremumOf(f, sign, t);
            if Signed(sign, t[k].y.value) < Signed(sign, f(m).value) then e == At(t[k].x, t[k].y.value)
            else e == At(m, f(m).value)
  {
  }

  lemma CloseEither(f: Curve, sign: real, p: real, q: real, z: real, s: Section, x: real)
    requires p < q && Valley(f, sign, p, q, z) && Closed(f, sign, Some(s), z, p, q) && p <= x <= q
    requires IsSigned(f, sign, s.x1, s.f1) && IsSigned(f, sign, s.x2, s.f2) && f(x).Some?
    ensures Close(LowerOf(s), z)
    ensures Signed(sign, f(x).value) < Lesser(s.f1, s.f2) ==> Close(x, z)
  {
    NearTheEnd(s, z, LowerOf(s));
    if Signed(sign, f(x).value) < Lesser(s.f1, s.f2) {
      InSection(f, sign, p, q, z, s, x);
      NearTheEnd(s, z, x);
    }
  }

  /** So the lowest point of such a function, or with the sign turned the highest, is found wherever it is among the
      samples, over an interval no wider than 512, or than 512 times as far as it is from nought. */
  lemma ExtremumIsFound(f: Curve, sign: real, a: real, b: real, z: real, r: real)
    requires a < b && Valley(f, sign, a, b, z)
    requires r >= 0.0 && b - a <= 512.0 * (1.0 + r) && forall x :: a <= x <= b ==> Magnitude(x) >= r
    ensures var e := ExtremumOf(f, sign, Scanned(f, a, b)); e.At? && f(e.x) == Some(e.y) && Close(e.x, z)
  {
    var t := Scanned(f, a, b);
    var k := BestOf(sign, t);
    SomeBest(f, sign, a, b);
    BesideCloses(f, sign, a, b, z, r, k);
    var p, q, x := Grid(a, b, LeftOf(k)), Grid(a, b, RightOf(k)), Grid(a, b, k);
    var s := Golden(f, sign, p, q).end.value;
    EndIsSigned(f, sign, p, q);
    ExtremumIs(f, sign, t, k, s);
    assert t[k] == Sample(x, f(x));
    CloseEither(f, sign, p, q, z, s, x);
  }
}
