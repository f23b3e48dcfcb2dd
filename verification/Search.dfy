/** Looking over an interval for a root or for its lowest point. */
module Search {
  import opened Basics
  import opened Brent

  const SCAN: nat := 64
  const GOLDEN: real := 0.38196601125010515

  datatype Sample = Sample(x: real, y: Option<real>)

  function Grid(a: real, b: real, k: nat): real {
    if k == SCAN then b else a + (b - a) * k as real / 64.0
  }

  lemma GridBetween(a: real, b: real, k: nat)
    requires a <= b && k <= SCAN
    ensures a <= Grid(a, b, k) <= b
  {
    var w := b - a;
    assert w * k as real >= 0.0;
    assert w * (64.0 - k as real) >= 0.0;
  }

  /** Each sample is of the function, and inside. */
  predicate Samples(f: Curve, s: seq<Sample>, a: real, b: real) {
    forall k :: 0 <= k < |s| ==> s[k].y == f(s[k].x) && a <= s[k].x <= b
  }

  method ScanTake(f: Curve, a: real, b: real) returns (s: seq<Sample>)
    requires a <= b
    ensures |s| == SCAN + 1 && Samples(f, s, a, b) && s[0].x == a && s[SCAN].x == b
    ensures forall k :: 0 <= k <= SCAN ==> s[k].x == Grid(a, b, k)
  {
    s := [];
    for k := 0 to SCAN + 1
      invariant |s| == k && Samples(f, s, a, b) && forall i :: 0 <= i < k ==> s[i].x == Grid(a, b, i)
    {
      GridBetween(a, b, k);
      s := s + [Sample(Grid(a, b, k), f(Grid(a, b, k)))];
    }
  }

  // --------------------------------------------------------------- the lowest point

  /** Upside down where the sign is minus one. */
  function Signed(sign: real, y: real): real {
    sign * y
  }

  /** None looked at is lower. */
  predicate Lowest(f: Curve, sign: real, low: real, seen: seq<real>) {
    forall i :: 0 <= i < |seen| ==> f(seen[i]).Some? && low <= Signed(sign, f(seen[i]).value)
  }

  predicate AllWithin(seen: seq<real>, a: real, b: real) {
    forall i :: 0 <= i < |seen| ==> a <= seen[i] <= b
  }

  /** What a search comes to: a point inside, the function there, and nothing seen that is lower. */
  predicate IsLowest(f: Curve, sign: real, a: real, b: real, x: real, y: real, seen: seq<real>) {
    a <= x <= b && f(x) == Some(y) && Lowest(f, sign, Signed(sign, y), seen)
  }

  /** An interval with two points inside, and what the function is there. */
  datatype Section = Section(lo: real, hi: real, x1: real, x2: real, f1: real, f2: real)

  predicate Narrow(s: Section) {
    Magnitude(s.hi - s.lo) <= 1e-12 * (1.0 + Magnitude(s.x1))
  }

  /** The point to look at next: in what is left of the side that is lower. */
  function NextOf(s: Section): real {
    if s.f1 <= s.f2 then s.lo + GOLDEN * (s.x2 - s.lo) else s.hi - GOLDEN * (s.hi - s.x1)
  }

  /** The other side is cut off at its point; the point that was in is kept, beside the new one. */
  function Moved(s: Section, x: real, y: real): Section {
    if s.f1 <= s.f2 then Section(s.lo, s.x2, x, s.x1, y, s.f1) else Section(s.x1, s.hi, s.x2, x, s.f2, y)
  }

  /** Where a search ends, if the function does not fail it, and the points it looked at. */
  datatype Hunt = Hunt(end: Option<Section>, seen: seq<real>)

  /** Golden sections, so many at most. Covered over, as a loop takes them one at a time. */
  function Hunted(f: Curve, sign: real, s: Section, times: nat): Hunt
    decreases times, 4
  {
    HuntedCovered(f, sign, s, times, 3)
  }

  /** The same under covers, which a proof takes off where it has to look. */
  function HuntedCovered(f: Curve, sign: real, s: Section, times: nat, covers: nat): Hunt
    decreases times, covers
  {
    if covers > 0 then HuntedCovered(f, sign, s, times, covers - 1)
    else if times == 0 || Narrow(s) then Hunt(Some(s), [])
    else
      var x := NextOf(s);
      match f(x)
      case None => Hunt(None, [x])
      case Some(y) =>
        var rest := Hunted(f, sign, Moved(s, x, Signed(sign, y)), times - 1);
        Hunt(rest.end, [x] + rest.seen)
  }

  lemma OpenHunted(f: Curve, sign: real, s: Section, times: nat)
    ensures Hunted(f, sign, s, times) == HuntedCovered(f, sign, s, times, 0)
  {
    assert HuntedCovered(f, sign, s, times, 1) == HuntedCovered(f, sign, s, times, 0);
    assert HuntedCovered(f, sign, s, times, 2) == HuntedCovered(f, sign, s, times, 1);
  }

  /** With the points looked at before. */
  function Since(seen: seq<real>, h: Hunt): Hunt {
    Hunt(h.end, seen + h.seen)
  }

  lemma HuntEnds(f: Curve, sign: real, seen: seq<real>, s: Section, times: nat)
    requires times == 0 || Narrow(s)
    ensures Since(seen, Hunted(f, sign, s, times)) == Hunt(Some(s), seen)
  {
    OpenHunted(f, sign, s, times);
  }

  lemma HuntNext(f: Curve, sign: real, seen: seq<real>, s: Section, times: nat)
    requires times > 0 && !Narrow(s)
    ensures var x, all := NextOf(s), Since(seen, Hunted(f, sign, s, times));
            all == if f(x).None? then Hunt(None, seen + [x])
                   else Since(seen + [x], Hunted(f, sign, Moved(s, x, Signed(sign, f(x).value)), times - 1))
  {
    OpenHunted(f, sign, s, times);
  }

  /** So many sections of an interval at most, from two points of it. */
  function HuntFrom(f: Curve, sign: real, a: real, b: real, x1: real, x2: real, times: nat): Hunt {
    if f(x1).None? || f(x2).None? then Hunt(None, [x1, x2])
    else
      var start := Section(a, b, x1, x2, Signed(sign, f(x1).value), Signed(sign, f(x2).value));
      Since([x1, x2], Hunted(f, sign, start, times))
  }

  /** The whole of a search: a point so much of the way from either end, and sections from there. */
  function Golden(f: Curve, sign: real, a: real, b: real): Hunt {
    HuntFrom(f, sign, a, b, a + GOLDEN * (b - a), b - GOLDEN * (b - a), ITERATIONS)
  }

  /** The lower of the two points of a section. */
  function LowerOf(s: Section): real {
    if s.f1 <= s.f2 then s.x1 else s.x2
  }

  /** What is known all along: the points are inside, the values are the function's, and the lower of them is the
      lowest of all looked at. */
  ghost predicate Sound(f: Curve, sign: real, a: real, b: real, s: Section, seen: seq<real>) {
    && a <= s.lo <= b && a <= s.hi <= b && a <= s.x1 <= b && a <= s.x2 <= b
    && IsSigned(f, sign, s.x1, s.f1) && IsSigned(f, sign, s.x2, s.f2)
    && AllWithin(seen, a, b) && Lowest(f, sign, Lesser(s.f1, s.f2), seen)
  }

  predicate IsSigned(f: Curve, sign: real, x: real, y: real) {
    f(x).Some? && y == Signed(sign, f(x).value)
  }

  /** Part of the way from one end to the other is between them. */
  lemma PartWay(a: real, b: real, p: real, q: real)
    requires a <= p <= b && a <= q <= b
    ensures a <= p + GOLDEN * (q - p) <= b && a <= q - GOLDEN * (q - p) <= b
  {
    var d := q - p;
    if d >= 0.0 {
      assert 0.0 <= GOLDEN * d <= d;
    } else {
      assert 0.0 <= GOLDEN * (0.0 - d) <= 0.0 - d;
      assert GOLDEN * d == 0.0 - GOLDEN * (0.0 - d);
    }
  }

  lemma SoundNext(f: Curve, sign: real, a: real, b: real, s: Section, seen: seq<real>)
    requires Sound(f, sign, a, b, s, seen)
    ensures var x := NextOf(s);
            && AllWithin(seen + [x], a, b)
            && (f(x).Some? ==> Sound(f, sign, a, b, Moved(s, x, Signed(sign, f(x).value)), seen + [x]))
  {
    PartWay(a, b, s.lo, s.x2);
    PartWay(a, b, s.x1, s.hi);
  }

  lemma {:induction false} HuntIsSound(f: Curve, sign: real, a: real, b: real, s: Section, seen: seq<real>, times: nat,
                                       all: Hunt)
    requires Sound(f, sign, a, b, s, seen) && all == Since(seen, Hunted(f, sign, s, times))
    ensures AllWithin(all.seen, a, b) && |seen| <= |all.seen| <= |seen| + times
    ensures all.end.Some? ==> Sound(f, sign, a, b, all.end.value, all.seen)
    ensures all.end.None? ==> exists i :: 0 <= i < |all.seen| && f(all.seen[i]).None?
    decreases times
  {
    if times == 0 || Narrow(s) {
      HuntEnds(f, sign, seen, s, times);
    } else {
      var x := NextOf(s);
      HuntNext(f, sign, seen, s, times);
      SoundNext(f, sign, a, b, s, seen);
      if f(x).None? {
        assert f(all.seen[|seen|]).None?;
      } else {
        HuntIsSound(f, sign, a, b, Moved(s, x, Signed(sign, f(x).value)), seen + [x], times - 1, all);
      }
    }
  }

  /** Wherever it looks is inside, and it ends at the lowest of that; it fails only where the function does. */
  lemma GoldenIsSound(f: Curve, sign: real, a: real, b: real, x1: real, x2: real, times: nat, h: Hunt)
    requires a <= x1 <= b && a <= x2 <= b && h == HuntFrom(f, sign, a, b, x1, x2, times)
    ensures AllWithin(h.seen, a, b) && 2 <= |h.seen| <= times + 2
    ensures h.end.Some? ==> Sound(f, sign, a, b, h.end.value, h.seen)
    ensures h.end.None? ==> exists i :: 0 <= i < |h.seen| && f(h.seen[i]).None?
  {
    if f(x1).None? || f(x2).None? {
      assert h.seen == [x1, x2];
      assert f(h.seen[0]).None? || f(h.seen[1]).None?;
    } else {
      var s := Section(a, b, x1, x2, Signed(sign, f(x1).value), Signed(sign, f(x2).value));
      HuntIsSound(f, sign, a, b, s, [x1, x2], times, h);
    }
  }

  lemma SignTwice(sign: real, y: real)
    requires sign == 1.0 || sign == -1.0
    ensures Signed(sign, Signed(sign, y)) == y
  {
  }

  lemma EndsLowest(f: Curve, sign: real, a: real, b: real, s: Section, seen: seq<real>, x: real, y: real)
    requires (sign == 1.0 || sign == -1.0) && Sound(f, sign, a, b, s, seen)
    requires x == LowerOf(s) && y == Signed(sign, if s.f1 <= s.f2 then s.f1 else s.f2)
    ensures f(x) == Some(y) && IsLowest(f, sign, a, b, x, y, seen)
  {
    SignTwice(sign, f(x).value);
  }

  /** Section after section. */
  method Narrowed(f: Curve, sign: real, start: Section, times: nat)
    returns (end: Option<Section>, ghost seen: seq<real>)
    ensures Hunt(end, seen) == Hunted(f, sign, start, times)
  {
    var s, i := start, 0;
    seen := [];
    ghost var all := Hunted(f, sign, s, times);
    assert Since(seen, all) == all;
    while i < times && Magnitude(s.hi - s.lo) > 1e-12 * (1.0 + Magnitude(s.x1))
      invariant i <= times && Since(seen, Hunted(f, sign, s, times - i)) == all
    {
      HuntNext(f, sign, seen, s, times - i);
      ghost var was := s;
      var x: real;
      if s.f1 <= s.f2 {
        s := s.(hi := s.x2, x2 := s.x1, f2 := s.f1);
        x := s.lo + GOLDEN * (s.hi - s.lo);
        seen := seen + [x];
        if f(x).None? {
          return None, seen;
        }
        s := s.(x1 := x, f1 := Signed(sign, f(x).value));
      } else {
        s := s.(lo := s.x1, x1 := s.x2, f1 := s.f2);
        x := s.hi - GOLDEN * (s.hi - s.lo);
        seen := seen + [x];
        if f(x).None? {
          return None, seen;
        }
        s := s.(x2 := x, f2 := Signed(sign, f(x).value));
      }
      assert x == NextOf(was) && s == Moved(was, x, Signed(sign, f(x).value));
      i := i + 1;
    }
    HuntEnds(f, sign, seen, s, times - i);
    return Some(s), seen;
  }

  method GoldenSearch(f: Curve, sign: real, a: real, b: real)
    returns (ok: bool, x: real, y: real, ghost seen: seq<real>)
    requires a <= b && (sign == 1.0 || sign == -1.0)
    ensures var h := Golden(f, sign, a, b);
            seen == h.seen && ok == h.end.Some?
            && (ok ==> var s := h.end.value; x == (if s.f1 <= s.f2 then s.x1 else s.x2) && f(x) == Some(y))
    ensures AllWithin(seen, a, b) && 2 <= |seen| <= 102
    ensures ok ==> IsLowest(f, sign, a, b, x, y, seen)
    ensures !ok ==> exists i :: 0 <= i < |seen| && f(seen[i]).None?
  {
    var x1, x2 := a + GOLDEN * (b - a), b - GOLDEN * (b - a);
    PartWay(a, b, a, b);
    ghost var h := Golden(f, sign, a, b);
    GoldenIsSound(f, sign, a, b, x1, x2, ITERATIONS, h);
    ok, x, y, seen := false, x1, 0.0, [x1, x2];
    if f(x1).None? || f(x2).None? {
      return;
    }
    var start := Section(a, b, x1, x2, Signed(sign, f(x1).value), Signed(sign, f(x2).value));
    var end, more := Narrowed(f, sign, start, ITERATIONS);
    seen := seen + more;
    if end.None? {
      return;
    }
    var s := end.value;
    x, y := if s.f1 <= s.f2 then s.x1 else s.x2, Signed(sign, if s.f1 <= s.f2 then s.f1 else s.f2);
    EndsLowest(f, sign, a, b, s, seen, x, y);
    return true, x, y, seen;
  }

  /** Which sample is the lowest, the first of equals; -1 where there is none. */
  function BestOf(sign: real, s: seq<Sample>): (best: int)
    ensures -1 <= best < |s| && (best >= 0 ==> s[best].y.Some?)
  {
    if s == [] then -1
    else
      var best, k := BestOf(sign, s[..|s| - 1]), |s| - 1;
      if s[k].y.Some? && (best < 0 || Signed(sign, s[k].y.value) < Signed(sign, s[best].y.value)) then k else best
  }

  lemma {:induction false} BestIsLowest(sign: real, s: seq<Sample>)
    ensures BestOf(sign, s) < 0 <==> forall k :: 0 <= k < |s| ==> s[k].y.None?
    ensures BestOf(sign, s) >= 0 ==> LowestSample(sign, s, Signed(sign, s[BestOf(sign, s)].y.value))
  {
    if s != [] { BestIsLowest(sign, s[..|s| - 1]); }
  }

  method BestSample(sign: real, s: seq<Sample>) returns (best: int)
    ensures best == BestOf(sign, s)
    ensures best < 0 <==> forall k :: 0 <= k < |s| ==> s[k].y.None?
    ensures best >= 0 ==> LowestSample(sign, s, Signed(sign, s[best].y.value))
  {
    best := -1;
    for k := 0 to |s|
      invariant best == BestOf(sign, s[..k])
    {
      assert s[..k + 1][..k] == s[..k];
      if s[k].y.Some? && (best < 0 || Signed(sign, s[k].y.value) < Signed(sign, s[best].y.value)) {
        best := k;
      }
    }
    assert s[..|s|] == s;
    BestIsLowest(sign, s);
  }

  predicate LowestSample(sign: real, s: seq<Sample>, low: real) {
    forall k :: 0 <= k < |s| && s[k].y.Some? ==> low <= Signed(sign, s[k].y.value)
  }

  datatype Extreme = NoExtreme | At(x: real, y: real)

  /** The samples an interval is looked over with. */
  function Scanned(f: Curve, a: real, b: real): seq<Sample> {
    seq(SCAN + 1, k requires 0 <= k <= SCAN => Sample(Grid(a, b, k), f(Grid(a, b, k))))
  }

  /** The samples either side of one, or that one where it is the first or the last. */
  function LeftOf(k: nat): nat {
    if k > 0 then k - 1 else 0
  }

  function RightOf(k: nat): nat {
    if k < SCAN then k + 1 else SCAN
  }

  /** The golden search between the samples either side of the lowest. */
  function HuntBeside(f: Curve, sign: real, s: seq<Sample>, best: nat): Option<Section>
    requires |s| == SCAN + 1 && best <= SCAN
  {
    Golden(f, sign, s[LeftOf(best)].x, s[RightOf(best)].x).end
  }

  /** The lowest sample, or what a search on either side of it comes to where that is as low. */
  function ExtremumOf(f: Curve, sign: real, s: seq<Sample>): Extreme
    requires |s| == SCAN + 1
  {
    var best := BestOf(sign, s);
    if best < 0 then NoExtreme
    else
      match HuntBeside(f, sign, s, best)
      case None => At(s[best].x, s[best].y.value)
      case Some(e) =>
        var x := LowerOf(e);
        if f(x).Some? && Signed(sign, f(x).value) <= Signed(sign, s[best].y.value) then At(x, f(x).value)
        else At(s[best].x, s[best].y.value)
  }

  /** A lowest point, or with the sign turned a highest: found exactly where any sample is of the function, inside,
      and no higher than any sample, or than any point the search looked at where its own is returned. */
  method Extremum(f: Curve, sign: real, a: real, b: real) returns (r: Extreme, ghost seen: seq<real>)
    requires sign == 1.0 || sign == -1.0
    ensures r == ExtremumOf(f, sign, Scanned(f, Lesser(a, b), Larger(a, b)))
    ensures r.NoExtreme? <==> forall k :: 0 <= k <= SCAN ==> Scanned(f, Lesser(a, b), Larger(a, b))[k].y.None?
    ensures r.At? ==> IsLowest(f, sign, Lesser(a, b), Larger(a, b), r.x, r.y, seen)
    ensures r.At? ==> LowestSample(sign, Scanned(f, Lesser(a, b), Larger(a, b)), Signed(sign, r.y))
  {
    var lo, hi := Lesser(a, b), Larger(a, b);
    var s := ScanTake(f, lo, hi);
    assert s == Scanned(f, lo, hi);
    var best := BestSample(sign, s);
    seen := [];
    if best < 0 {
      return NoExtreme, seen;
    }
    r := At(s[best].x, s[best].y.value);
    Ordered(lo, hi, LeftOf(best), RightOf(best));
    var ok, m, fm, looked := GoldenSearch(f, sign, s[LeftOf(best)].x, s[RightOf(best)].x);
    if ok && Signed(sign, fm) <= Signed(sign, r.y) {
      r, seen := At(m, fm), looked;
    }
  }

  lemma Ordered(a: real, b: real, i: nat, j: nat)
    requires a <= b && i <= j <= SCAN
    ensures Grid(a, b, i) <= Grid(a, b, j)
  {
    GridBetween(a, b, i);
    var w := b - a;
    assert w * (j - i) as real >= 0.0;
    assert w * j as real == w * i as real + w * (j - i) as real;
  }

  // --------------------------------------------------------------------- the root

  function Absolute(f: Curve): Curve {
    x => match f(x) case None => None case Some(y) => Some(Magnitude(y))
  }

  /** The largest the function is among the samples, and at least one. */
  function Scale(s: seq<Sample>): (m: real)
    ensures m >= 1.0 && forall k :: 0 <= k < |s| && s[k].y.Some? ==> Magnitude(s[k].y.value) <= m
  {
    if s == [] then 1.0
    else
      var front, y := Scale(s[..|s| - 1]), s[|s| - 1].y;
      if y.Some? then Larger(front, Magnitude(y.value)) else front
  }

  method ScaleOf(s: seq<Sample>) returns (m: real)
    ensures m == Scale(s)
  {
    m := 1.0;
    for k := 0 to |s|
      invariant m == Scale(s[..k])
    {
      assert s[..k + 1][..k] == s[..k];
      m := if s[k].y.Some? then Larger(m, Magnitude(s[k].y.value)) else m;
    }
    assert s[..|s|] == s;
  }

  /** Inside, and nought or a millionth part of the scale at most. */
  predicate GoodRoot(f: Curve, a: real, b: real, x: real, scale: real) {
    Lesser(a, b) <= x <= Larger(a, b) && f(x).Some? && Magnitude(f(x).value) <= 1e-6 * scale
  }

  /** What is narrowed down to between two samples; a pole, where it is huge, is no root. */
  function CrossingOf(f: Curve, p: Sample, q: Sample): Outcome {
    if p.y.None? || q.y.None? || !Opposite(p.y.value, q.y.value) then Failed
    else
      match Ran(f, Start(p.x, q.x, p.y.value, q.y.value), ITERATIONS).end
      case Failed => Failed
      case Root(x) => if IsNoPole(f, x, p.y.value, q.y.value) then Root(x) else Failed
  }

  predicate IsNoPole(f: Curve, x: real, y: real, z: real) {
    f(x).Some? && Magnitude(f(x).value) <= 1e-6 * Larger(1.0, Larger(Magnitude(y), Magnitude(z)))
  }

  method Crossing(f: Curve, p: Sample, q: Sample) returns (r: Outcome)
    requires p.y == f(p.x) && q.y == f(q.x) && p.y.Some? && q.y.Some? && Opposite(p.y.value, q.y.value)
    ensures r == CrossingOf(f, p, q)
  {
    var root, looks, other := BrentRoot(f, p.x, q.x, p.y.value, q.y.value);
    if root.Root? && f(root.x).Some?
       && Magnitude(f(root.x).value) <= 1e-6 * Larger(1.0, Larger(Magnitude(p.y.value), Magnitude(q.y.value))) {
      return root;
    }
    return Failed;
  }

  lemma CrossingInside(f: Curve, p: Sample, q: Sample)
    requires p.y == f(p.x) && q.y == f(q.x)
    ensures var r := CrossingOf(f, p, q);
            r.Root? ==> Between(p.x, r.x, q.x) && p.y.Some? && q.y.Some? && IsNoPole(f, r.x, p.y.value, q.y.value)
  {
    if p.y.Some? && q.y.Some? && Opposite(p.y.value, q.y.value) {
      var all := Ran(f, Start(p.x, q.x, p.y.value, q.y.value), ITERATIONS);
      var other := Keeps(f, p.x, q.x, p.y.value, q.y.value, ITERATIONS, all);
    }
  }

  /** How far from nought each sample is. */
  function Sizes(f: Curve, s: seq<Sample>): (t: seq<Sample>)
    ensures |t| == |s|
  {
    seq(|s|, k requires 0 <= k < |s| => Sample(s[k].x, Absolute(f)(s[k].x)))
  }

  /** Where the function is nearest nought, if that is near enough. */
  function TouchingOf(f: Curve, s: seq<Sample>, scale: real): Outcome
    requires |s| == SCAN + 1
  {
    var best := BestOf(1.0, Sizes(f, s));
    if best < 0 then Failed
    else
      match HuntBeside(Absolute(f), 1.0, s, best)
      case None => Failed
      case Some(e) =>
        var x := LowerOf(e);
        if f(x).Some? && Magnitude(f(x).value) <= 1e-10 * scale then Root(x) else Failed
  }

  /** A root where the function does not change sign: the lowest it is seen to be, near the lowest sample. */
  method Touching(f: Curve, s: seq<Sample>, a: real, b: real, scale: real) returns (r: Outcome)
    requires a <= b && |s| == SCAN + 1 && Samples(f, s, a, b) && scale >= 1.0
    requires forall k :: 0 <= k <= SCAN ==> s[k].x == Grid(a, b, k)
    ensures r == TouchingOf(f, s, scale)
    ensures r.Root? ==> a <= r.x <= b && f(r.x).Some? && Magnitude(f(r.x).value) <= 1e-10 * scale
  {
    var best := BestSample(1.0, Sizes(f, s));
    if best < 0 {
      return Failed;
    }
    Ordered(a, b, LeftOf(best), RightOf(best));
    var ok, m, fm, seen := GoldenSearch(Absolute(f), 1.0, s[LeftOf(best)].x, s[RightOf(best)].x);
    if !ok || fm > 1e-10 * scale {
      return Failed;
    }
    return Root(m);
  }

  /** What a sample gives by itself or with the next. */
  function RootAt(f: Curve, s: seq<Sample>, k: nat): Outcome
    requires k < |s|
  {
    if s[k].y == Some(0.0) then Root(s[k].x)
    else if k + 1 < |s| then CrossingOf(f, s[k], s[k + 1])
    else Failed
  }

  /** The first there is. */
  function FirstRoot(f: Curve, s: seq<Sample>, k: nat): Outcome
    requires k <= |s|
    decreases |s| - k
  {
    if k == |s| then Failed else if RootAt(f, s, k).Root? then RootAt(f, s, k) else FirstRoot(f, s, k + 1)
  }

  lemma {:induction false} FirstOfAny(f: Curve, s: seq<Sample>, k: nat, i: nat)
    requires k <= i < |s| && RootAt(f, s, i).Root?
    ensures FirstRoot(f, s, k).Root?
    decreases i - k
  {
    if k < i { FirstOfAny(f, s, k + 1, i); }
  }

  lemma {:induction false} FirstIsOne(f: Curve, s: seq<Sample>, k: nat) returns (i: nat)
    requires k <= |s| && FirstRoot(f, s, k).Root?
    ensures k <= i < |s| && FirstRoot(f, s, k) == RootAt(f, s, i)
    decreases |s| - k
  {
    i := k;
    if !RootAt(f, s, k).Root? { i := FirstIsOne(f, s, k + 1); }
  }

  lemma SmallBeside(y: real, p: real, q: real, scale: real)
    requires Magnitude(y) <= 1e-6 * Larger(1.0, Larger(p, q)) && scale >= 1.0 && scale >= p && scale >= q
    ensures Magnitude(y) <= 1e-6 * scale
  {
  }

  lemma RootAtIsGood(f: Curve, s: seq<Sample>, k: nat, a: real, b: real, scale: real)
    requires k < |s| && Samples(f, s, a, b) && RootAt(f, s, k).Root? && scale == Scale(s)
    ensures var x := RootAt(f, s, k).x; a <= x <= b && f(x).Some? && Magnitude(f(x).value) <= 1e-6 * scale
  {
    if s[k].y != Some(0.0) {
      var p, q := s[k], s[k + 1];
      CrossingInside(f, p, q);
      SmallBeside(f(RootAt(f, s, k).x).value, Magnitude(p.y.value), Magnitude(q.y.value), scale);
    }
  }

  /** The first sample that is nought, or first change of sign whose narrowing ends at no pole; or where there is
      neither, where the function comes nearest nought, if it touches it. */
  function RootOf(f: Curve, s: seq<Sample>): Outcome
    requires |s| == SCAN + 1
  {
    if FirstRoot(f, s, 0).Root? then FirstRoot(f, s, 0) else TouchingOf(f, s, Scale(s))
  }

  /** There is one wherever any sample is nought, or any change of sign passes. */
  lemma RootWhereAny(f: Curve, s: seq<Sample>, k: nat)
    requires |s| == SCAN + 1 && k < |s|
    ensures RootAt(f, s, k).Root? ==> RootOf(f, s).Root?
  {
    if RootAt(f, s, k).Root? { FirstOfAny(f, s, 0, k); }
  }

  method FindFirst(f: Curve, s: seq<Sample>, a: real, b: real) returns (r: Outcome)
    requires Samples(f, s, a, b)
    ensures r == FirstRoot(f, s, 0)
  {
    for k := 0 to |s|
      invariant FirstRoot(f, s, 0) == FirstRoot(f, s, k)
    {
      if s[k].y == Some(0.0) {
        return Root(s[k].x);
      }
      if k + 1 < |s| && s[k].y.Some? && s[k + 1].y.Some? && Opposite(s[k].y.value, s[k + 1].y.value) {
        r := Crossing(f, s[k], s[k + 1]);
        if r.Root? {
          return;
        }
      }
    }
    return Failed;
  }

  method NumRoot(f: Curve, a: real, b: real) returns (r: Outcome)
    ensures r == RootOf(f, Scanned(f, Lesser(a, b), Larger(a, b)))
    ensures r.Root? ==> GoodRoot(f, a, b, r.x, Scale(Scanned(f, Lesser(a, b), Larger(a, b))))
    ensures (exists k :: 0 <= k <= SCAN && RootAt(f, Scanned(f, Lesser(a, b), Larger(a, b)), k).Root?) ==> r.Root?
  {
    var lo, hi := Lesser(a, b), Larger(a, b);
    var s := ScanTake(f, lo, hi);
    assert s == Scanned(f, lo, hi);
    var scale := ScaleOf(s);
    forall k | 0 <= k <= SCAN ensures RootAt(f, s, k).Root? ==> RootOf(f, s).Root? { RootWhereAny(f, s, k); }
    r := FindFirst(f, s, lo, hi);
    if r.Root? {
      ghost var k := FirstIsOne(f, s, 0);
      RootAtIsGood(f, s, k, lo, hi, scale);
      return;
    }
    r := Touching(f, s, lo, hi, scale);
  }
}
