/** How near an area comes, where the rule says how far out it may be. */
module Accuracy {
  import opened Basics
  import opened Integral

  /** A rule that always gives an area, no further from the difference of an antiderivative than it says. */
  ghost predicate Sound(rule: Rule, f: real -> real) {
    forall lo, hi :: SoundAt(rule, f, lo, hi)
  }

  ghost predicate SoundAt(rule: Rule, f: real -> real, lo: real, hi: real) {
    var e := rule(lo, hi);
    e.Estimate? && Magnitude(e.value - (f(hi) - f(lo))) <= e.error
  }

  /** On pieces no wider than a 64th of the interval, it says no more than that. */
  ghost predicate FineWithin(rule: Rule, width: real, slack: real) {
    forall lo, hi :: FineAt(rule, lo, hi, width, slack)
  }

  ghost predicate FineAt(rule: Rule, lo: real, hi: real, width: real, slack: real) {
    64.0 * Magnitude(hi - lo) <= Magnitude(width) && rule(lo, hi).Estimate? ==> rule(lo, hi).error <= slack
  }

  // ------------------------------------------------------------------ what halving does

  /** The two parts of a halved piece are equally wide, and each has what the rule gives for it; no other piece is
      touched. There are none exactly where the rule fails on one of them. */
  lemma HalvesAreEqual(rule: Rule, ps: seq<Piece>, w: nat)
    requires w < |ps|
    ensures var (lo, hi, o) := (ps[w].lo, ps[w].hi, Halved(rule, ps, w));
            && (o.Gone? <==> rule(lo, (lo + hi) / 2.0).Failed? || rule((lo + hi) / 2.0, hi).Failed?)
            && (o.Pieces? ==> |o.ps| == |ps| + 1 && IsHalved(rule, ps, w, o.ps))
  {
  }

  ghost predicate IsHalved(rule: Rule, ps: seq<Piece>, w: nat, more: seq<Piece>)
    requires w < |ps| && |more| == |ps| + 1
  {
    var (p, left, right) := (ps[w], more[w], more[|ps|]);
    && left.lo == p.lo && left.hi == right.lo && right.hi == p.hi && left.hi - left.lo == right.hi - right.lo
    && rule(left.lo, left.hi) == Estimate(left.value, left.error)
    && rule(right.lo, right.hi) == Estimate(right.value, right.error)
    && forall i :: 0 <= i < |ps| && i != w ==> more[i] == ps[i]
  }

  /** It is the first of those with the largest error that is halved. */
  lemma {:induction false} WorstIsFirst(ps: seq<Piece>, i: nat)
    requires ps != [] && i < Worst(ps)
    ensures ps[i].error < ps[Worst(ps)].error
  {
    var front := ps[..|ps| - 1];
    if Worst(ps) < |ps| - 1 {
      WorstIsFirst(front, i);
    } else {
      assert ps[i] == front[i];
    }
  }

  // ------------------------------------------------------------------------ sums

  /** What a function goes up by over all the pieces. */
  ghost function Over(ps: seq<Piece>, f: real -> real): real {
    if ps == [] then 0.0 else Over(ps[..|ps| - 1], f) + (f(ps[|ps| - 1].hi) - f(ps[|ps| - 1].lo))
  }

  lemma {:induction false} OverUpdated(ps: seq<Piece>, f: real -> real, w: nat, p: Piece)
    requires w < |ps|
    ensures Over(ps[w := p], f) == Over(ps, f) - (f(ps[w].hi) - f(ps[w].lo)) + (f(p.hi) - f(p.lo))
  {
    var n := |ps| - 1;
    if w < n {
      assert ps[w := p][..n] == ps[..n][w := p];
      OverUpdated(ps[..n], f, w, p);
    } else {
      assert ps[w := p][..n] == ps[..n];
    }
  }

  lemma OverMore(ps: seq<Piece>, f: real -> real, p: Piece)
    ensures Over(ps + [p], f) == Over(ps, f) + (f(p.hi) - f(p.lo))
  {
    assert (ps + [p])[..|ps|] == ps;
  }

  lemma OverHalved(rule: Rule, ps: seq<Piece>, w: nat, more: seq<Piece>, f: real -> real)
    requires w < |ps| && |more| == |ps| + 1 && IsHalved(rule, ps, w, more)
    ensures Over(more, f) == Over(ps, f)
  {
    var left, right := more[w], more[|ps|];
    assert more == ps[w := left] + [right];
    OverUpdated(ps, f, w, left);
    OverMore(ps[w := left], f, right);
  }

  /** What is added up is no further out than the errors added up. */
  lemma {:induction false} Misfit(rule: Rule, ps: seq<Piece>, f: real -> real)
    requires Sound(rule, f) && Honest(rule, ps)
    ensures Magnitude(Total(ps) - Over(ps, f)) <= Error(ps)
  {
    if ps != [] {
      var p := ps[|ps| - 1];
      assert SoundAt(rule, f, p.lo, p.hi);
      Misfit(rule, ps[..|ps| - 1], f);
    }
  }

  /** So many times over. */
  ghost function Shares(n: nat, slack: real): real {
    if n == 0 then 0.0 else Shares(n - 1, slack) + slack
  }

  lemma {:induction false} SharesAre(n: nat, slack: real)
    ensures Shares(n, slack) == n as real * slack
  {
    if n > 0 { SharesAre(n - 1, slack); }
  }

  lemma {:induction false} ErrorAtMost(ps: seq<Piece>, slack: real, n: nat)
    requires slack >= 0.0 && |ps| <= n && forall i :: 0 <= i < |ps| ==> ps[i].error <= slack
    ensures Error(ps) <= Shares(n, slack)
    decreases n
  {
    if ps != [] {
      ErrorAtMost(ps[..|ps| - 1], slack, n - 1);
    } else if n > 0 {
      ErrorAtMost(ps, slack, n - 1);
    }
  }

  // ------------------------------------------------------------------------ widths

  /** More than so wide, the way the interval goes. */
  predicate Wider(p: Piece, part: real) {
    if part > 0.0 then p.hi - p.lo > part else p.hi - p.lo < part
  }

  predicate AllWider(ps: seq<Piece>, part: real) {
    forall i :: 0 <= i < |ps| ==> Wider(ps[i], part)
  }

  lemma {:induction false} WidthsAddUp(ps: seq<Piece>, part: real)
    requires AllWider(ps, part) && ps != []
    ensures if part > 0.0 then Over(ps, x => x) > |ps| as real * part else Over(ps, x => x) < |ps| as real * part
  {
    var front := ps[..|ps| - 1];
    assert |ps| as real * part == |front| as real * part + part;
    if front != [] { WidthsAddUp(front, part); }
  }

  /** Pieces each wider than a 128th are fewer than 128. */
  lemma FewerThan128(ps: seq<Piece>, width: real)
    requires width != 0.0 && AllWider(ps, width / 128.0) && ps != [] && Over(ps, x => x) == width
    ensures |ps| < 128
  {
    WidthsAddUp(ps, width / 128.0);
    if |ps| >= 128 { Enough(|ps| as real, width); }
  }

  lemma Enough(n: real, width: real)
    requires n >= 128.0
    ensures if width > 0.0 then n * (width / 128.0) >= width else n * (width / 128.0) <= width
  {
    if width > 0.0 {
      assert (n - 128.0) * (width / 128.0) >= 0.0;
    } else {
      assert (n - 128.0) * (0.0 - width / 128.0) >= 0.0;
    }
  }

  // ------------------------------------------------------------------------ the area

  ghost predicate Underway(rule: Rule, ps: seq<Piece>, f: real -> real, width: real, rise: real) {
    && ps != [] && Honest(rule, ps) && AllWider(ps, width / 128.0)
    && Over(ps, x => x) == width && Over(ps, f) == rise
  }

  lemma HalvedUnderway(rule: Rule, ps: seq<Piece>, w: nat, more: seq<Piece>, f: real -> real, width: real, rise: real)
    requires w < |ps| && |more| == |ps| + 1 && IsHalved(rule, ps, w, more)
    requires width != 0.0 && Underway(rule, ps, f, width, rise)
    requires 64.0 * Magnitude(ps[w].hi - ps[w].lo) > Magnitude(width)
    ensures Underway(rule, more, f, width, rise)
  {
    assert Wider(ps[w], width / 128.0);
    OverHalved(rule, ps, w, more, x => x);
    OverHalved(rule, ps, w, more, f);
  }

  lemma AllErrorsAtMost(ps: seq<Piece>, slack: real)
    requires ps != [] && |ps| <= 128 && 0.0 <= slack && ps[Worst(ps)].error <= slack
    ensures Error(ps) <= 128.0 * slack
  {
    ErrorAtMost(ps, slack, 128);
    SharesAre(128, slack);
  }

  /** Where the errors add up to more than is small enough, the worst piece is not a fine one. */
  lemma WorstIsWide(rule: Rule, ps: seq<Piece>, width: real, slack: real)
    requires ps != [] && |ps| <= 128 && Honest(rule, ps) && FineWithin(rule, width, slack)
    requires 0.0 <= slack && 128.0 * slack < Error(ps)
    ensures var p := ps[Worst(ps)]; 64.0 * Magnitude(p.hi - p.lo) > Magnitude(width)
  {
    var p := ps[Worst(ps)];
    assert FineAt(rule, p.lo, p.hi, width, slack);
    if p.error <= slack {
      AllErrorsAtMost(ps, slack);
    }
  }

  lemma {:induction false} RefinedNear(rule: Rule, ps: seq<Piece>, f: real -> real, width: real, rise: real,
                                       slack: real)
    requires Sound(rule, f) && FineWithin(rule, width, slack) && 0.0 <= slack && 128.0 * slack <= 1e-12
    requires width != 0.0 && |ps| <= 128 && Underway(rule, ps, f, width, rise)
    ensures Refined(rule, ps).Pieces?
    ensures var all := Refined(rule, ps).ps;
            Honest(rule, all) && Over(all, f) == rise && SmallEnough(Total(all), Error(all))
    decreases 128 - |ps|
  {
    FewerThan128(ps, width);
    if !SmallEnough(Total(ps), Error(ps)) {
      var w := Worst(ps);
      WorstIsWide(rule, ps, width, slack);
      var lo, hi := ps[w].lo, ps[w].hi;
      assert SoundAt(rule, f, lo, (lo + hi) / 2.0) && SoundAt(rule, f, (lo + hi) / 2.0, hi);
      HalvesAreEqual(rule, ps, w);
      var more := Halved(rule, ps, w).ps;
      HalvedUnderway(rule, ps, w, more, f, width, rise);
      RefinedNear(rule, more, f, width, rise, slack);
    }
  }

  lemma WholePiece(rule: Rule, a: real, b: real, f: real -> real, ps: seq<Piece>)
    requires Sound(rule, f) && a != b && rule(a, b).Estimate?
    requires ps == [Piece(a, b, rule(a, b).value, rule(a, b).error)]
    ensures Underway(rule, ps, f, b - a, f(b) - f(a)) && Area(rule, a, b) == Refined(rule, ps)
  {
    assert SoundAt(rule, f, a, b);
    OverMore([], x => x, ps[0]);
    OverMore([], f, ps[0]);
    assert [] + ps == ps;
  }

  lemma NearFrom(total: real, rise: real, error: real)
    requires Magnitude(total - rise) <= error && SmallEnough(total, error)
    ensures Magnitude(total - rise) <= Larger(1e-12, Magnitude(total) / 10000000000.0)
  {
  }

  /** With a rule that is never further out than it says, and on pieces no wider than a 64th of the interval says next
      to nothing, there is an area, and it is right to a part in ten thousand million, or to 1e-12. */
  lemma AreaIsNear(rule: Rule, a: real, b: real, f: real -> real, slack: real)
    requires Sound(rule, f) && FineWithin(rule, b - a, slack) && 0.0 <= slack && 128.0 * slack <= 1e-12
    ensures Area(rule, a, b).Pieces?
    ensures var area := Total(Area(rule, a, b).ps);
            Magnitude(area - (f(b) - f(a))) <= Larger(1e-12, Magnitude(area) / 10000000000.0)
  {
    if a != b {
      assert SoundAt(rule, f, a, b);
      var ps := [Piece(a, b, rule(a, b).value, rule(a, b).error)];
      WholePiece(rule, a, b, f, ps);
      RefinedNear(rule, ps, f, b - a, f(b) - f(a), slack);
      var all := Refined(rule, ps).ps;
      Misfit(rule, all, f);
      NearFrom(Total(all), f(b) - f(a), Error(all));
    }
  }

  /** The whole interval is left in one piece exactly where the rule says that is near enough. */
  lemma OnePieceExactly(rule: Rule, a: real, b: real)
    requires a != b && rule(a, b).Estimate?
    ensures var e := rule(a, b);
            Area(rule, a, b) == Pieces([Piece(a, b, e.value, e.error)])
            <==> e.error <= Larger(1e-12, Magnitude(e.value) / 10000000000.0)
  {
    var e := rule(a, b);
    var ps := [Piece(a, b, e.value, e.error)];
    assert ps[..0] == [];
    assert Error(ps) == e.error && Total(ps) == e.value;
    if !SmallEnough(e.value, e.error) && Refined(rule, ps).Pieces? { NeverFewer(rule, ps); }
  }

  lemma NeverFewer(rule: Rule, ps: seq<Piece>)
    requires ps != [] && |ps| < 128 && !SmallEnough(Total(ps), Error(ps)) && Refined(rule, ps).Pieces?
    ensures |Refined(rule, ps).ps| > |ps|
  {
    AtLeast(rule, Halved(rule, ps, Worst(ps)).ps);
  }

  lemma {:induction false} AtLeast(rule: Rule, ps: seq<Piece>)
    requires 1 <= |ps| <= 128
    ensures Refined(rule, ps).Pieces? ==> |Refined(rule, ps).ps| >= |ps|
    decreases 128 - |ps|
  {
    if !SmallEnough(Total(ps), Error(ps)) && |ps| < 128 && Halved(rule, ps, Worst(ps)).Pieces? {
      AtLeast(rule, Halved(rule, ps, Worst(ps)).ps);
    }
  }
}
