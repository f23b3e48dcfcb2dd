/** The two fits themselves: a line, and a quadratic through the normal equations about the mean of x. */
module Fits {
  import opened Basics
  import opened Vectors
  import opened Elimination
  import opened Pivots
  import opened Regression

  function Mean(x: seq<real>): real
    requires x != []
  {
    Dot(x, Ones(|x|)) / |x| as real
  }

  method MeanOf(x: seq<real>) returns (m: real)
    requires x != []
    ensures m == Mean(x)
  {
    m := 0.0;
    OpenDot(x[..0], Ones(|x|)[..0]);
    for i := 0 to |x|
      invariant m == Dot(x[..i], Ones(|x|)[..i])
    {
      DotGrows(x, Ones(|x|), i);
      m := m + x[i];
    }
    assert x[..|x|] == x && Ones(|x|)[..|x|] == Ones(|x|);
    m := m / |x| as real;
  }

  /** What is left of a column about its mean adds up to nought. */
  lemma AboutTheMean(x: seq<real>)
    requires x != []
    ensures Shifted(x, Mean(x)) == Plus(x, Scaled(0.0 - Mean(x), Ones(|x|)))
    ensures Dot(Ones(|x|), Shifted(x, Mean(x))) == 0.0
  {
    var m, o := Mean(x), Ones(|x|);
    assert Shifted(x, m) == Plus(x, Scaled(0.0 - m, o));
    DotPlus(o, x, Scaled(0.0 - m, o));
    DotScaled(o, 0.0 - m, o);
    DotOnes(|x|);
    DotSymmetric(o, x);
  }

  // ---------------------------------------------------------------------- the line

  /** The sums of squares and of products about the two means. */
  method Spreads(x: seq<real>, y: seq<real>, mx: real, my: real) returns (sxx: real, syy: real, sxy: real)
    requires |x| == |y|
    ensures sxx == Dot(Shifted(x, mx), Shifted(x, mx))
    ensures syy == Dot(Shifted(y, my), Shifted(y, my))
    ensures sxy == Dot(Shifted(x, mx), Shifted(y, my))
  {
    ghost var u, w := Shifted(x, mx), Shifted(y, my);
    sxx, syy, sxy := 0.0, 0.0, 0.0;
    OpenDot(u[..0], u[..0]);
    OpenDot(w[..0], w[..0]);
    OpenDot(u[..0], w[..0]);
    for i := 0 to |x|
      invariant sxx == Dot(u[..i], u[..i])
      invariant syy == Dot(w[..i], w[..i])
      invariant sxy == Dot(u[..i], w[..i])
    {
      DotGrows(u, u, i);
      DotGrows(w, w, i);
      DotGrows(u, w, i);
      var dx, dy := x[i] - mx, y[i] - my;
      SameProducts(dx, dx, u[i], u[i]);
      SameProducts(dy, dy, w[i], w[i]);
      SameProducts(dx, dy, u[i], w[i]);
      sxx := sxx + dx * dx;
      syy := syy + dy * dy;
      sxy := sxy + dx * dy;
    }
    assert u[..|x|] == u && w[..|x|] == w;
  }

  ghost predicate Varies(x: seq<real>) {
    exists i, j :: 0 <= i < |x| && 0 <= j < |x| && x[i] != x[j]
  }

  /** The squares about the mean add up to something exactly where the column varies. */
  lemma SpreadWhereItVaries(x: seq<real>)
    requires x != []
    ensures var u := Shifted(x, Mean(x)); Dot(u, u) > 0.0 <==> Varies(x)
  {
    var m := Mean(x);
    var u := Shifted(x, m);
    DotSelf(u);
    if Dot(u, u) == 0.0 {
      DotSelfNought(u);
      assert forall i :: 0 <= i < |x| ==> u[i] == x[i] - m;
    } else if !Varies(x) {
      AboutTheMean(x);
      assert u == Scaled(x[0] - m, Ones(|x|));
      DotScaled(Ones(|x|), x[0] - m, Ones(|x|));
      DotOnes(|x|);
      DotNought(u, u);
    }
  }

  /** The line through the means with the given slope, what it leaves, and what that has in common with x. */
  lemma LineParts(x: seq<real>, y: seq<real>, slope: real)
    requires |x| == |y| && x != []
    ensures var u, w := Shifted(x, Mean(x)), Shifted(y, Mean(y));
            var e := Residuals(Coef(0.0, slope, Mean(y) - slope * Mean(x)), x, y);
            && e == Plus(w, Scaled(0.0 - slope, u))
            && Dot(Ones(|x|), e) == 0.0
            && Dot(u, e) == Dot(u, w) - slope * Dot(u, u)
  {
    var o := Ones(|x|);
    var u, w := Shifted(x, Mean(x)), Shifted(y, Mean(y));
    var k := Coef(0.0, slope, Mean(y) - slope * Mean(x));
    var e := Residuals(k, x, y);
    forall i | 0 <= i < |x| ensures e[i] == Plus(w, Scaled(0.0 - slope, u))[i] {
      AtExpanded(k, x[i]);
      Distribute(slope, x[i], 0.0 - Mean(x));
      assert At(k, x[i]) == slope * x[i] + (Mean(y) - slope * Mean(x));
      assert u[i] == x[i] - Mean(x) && w[i] == y[i] - Mean(y);
      assert e[i] == w[i] + (0.0 - slope) * u[i];
    }
    assert e == Plus(w, Scaled(0.0 - slope, u));
    AboutTheMean(x);
    AboutTheMean(y);
    DotPlus(o, w, Scaled(0.0 - slope, u));
    DotScaled(o, 0.0 - slope, u);
    DotPlus(u, w, Scaled(0.0 - slope, u));
    DotScaled(u, 0.0 - slope, u);
    assert Dot(o, e) == 0.0;
    assert Dot(u, e) == Dot(u, w) - slope * Dot(u, u);
  }

  /** What has nothing in common with 1 and with x about its mean has nothing in common with x. */
  lemma AboutAnyPoint(e: seq<real>, x: seq<real>)
    requires |e| == |x| && x != [] && Dot(Ones(|x|), e) == 0.0 && Dot(Shifted(x, Mean(x)), e) == 0.0
    ensures Dot(e, Ones(|x|)) == 0.0 && Dot(e, x) == 0.0
  {
    var m, o := Mean(x), Ones(|x|);
    AboutTheMean(x);
    DotPlus(e, x, Scaled(0.0 - m, o));
    DotScaled(e, 0.0 - m, o);
    DotSymmetric(e, o);
    DotSymmetric(e, Shifted(x, m));
  }

  ghost predicate BestLine(k: Coef, x: seq<real>, y: seq<real>)
    requires |x| == |y|
  {
    && k.a == 0.0
    && forall l: Coef :: l.a == 0.0 ==>
                         Misfit(k, x, y) <= Misfit(l, x, y) && (Misfit(l, x, y) <= Misfit(k, x, y) ==> l == k)
  }

  lemma LineIsBest(x: seq<real>, y: seq<real>, slope: real)
    requires |x| == |y| && Varies(x)
    requires var u, w := Shifted(x, Mean(x)), Shifted(y, Mean(y)); Dot(u, w) == slope * Dot(u, u)
    ensures BestLine(Coef(0.0, slope, Mean(y) - slope * Mean(x)), x, y)
  {
    var k := Coef(0.0, slope, Mean(y) - slope * Mean(x));
    var e := Residuals(k, x, y);
    LineParts(x, y, slope);
    AboutAnyPoint(e, x);
    forall l: Coef | l.a == 0.0
      ensures Misfit(k, x, y) <= Misfit(l, x, y) && (Misfit(l, x, y) <= Misfit(k, x, y) ==> l == k)
    {
      DotFitted(e, Less(k, l), x);
      BetterBy(k, l, x, y);
      if Misfit(l, x, y) <= Misfit(k, x, y) {
        var d := Fitted(Less(k, l), x);
        DotSelf(d);
        DotSelfNought(d);
        forall i | 0 <= i < |x| ensures At(k, x[i]) == At(l, x[i]) {
          assert d[i] == 0.0;
          AtLess(k, l, x[i]);
        }
      }
    }
  }

  /** What the line leaves, out of what there is about the mean of y. */
  lemma LineMisfit(x: seq<real>, y: seq<real>, slope: real)
    requires |x| == |y| && x != []
    requires var u, w := Shifted(x, Mean(x)), Shifted(y, Mean(y)); Dot(u, w) == slope * Dot(u, u)
    ensures var u, w := Shifted(x, Mean(x)), Shifted(y, Mean(y));
            Misfit(Coef(0.0, slope, Mean(y) - slope * Mean(x)), x, y) == Dot(w, w) - slope * Dot(u, w)
  {
    var u, w := Shifted(x, Mean(x)), Shifted(y, Mean(y));
    LineParts(x, y, slope);
    var e := Plus(w, Scaled(0.0 - slope, u));
    DotPlus(e, w, Scaled(0.0 - slope, u));
    DotScaled(e, 0.0 - slope, u);
    DotSymmetric(e, u);
    DotSymmetric(e, w);
    DotPlus(w, w, Scaled(0.0 - slope, u));
    DotScaled(w, 0.0 - slope, u);
    DotSymmetric(w, u);
  }

  lemma ShareOfSpread(sxx: real, syy: real, sxy: real)
    requires sxx > 0.0 && syy > 0.0 && 0.0 <= syy - sxy / sxx * sxy
    ensures var r2 := sxy * sxy / (sxx * syy); 0.0 <= r2 <= 1.0 && syy - sxy / sxx * sxy == syy * (1.0 - r2)
  {
    Positive(sxx, syy);
    Square(sxy);
    var r2, q := sxy * sxy / (sxx * syy), sxy / sxx * sxy;
    assert q * sxx == sxy * sxy by { assert sxy / sxx * sxx == sxy; Associate(sxy / sxx, sxy, sxx); }
    assert r2 * (sxx * syy) == sxy * sxy;
    ShareBounds(r2, syy, q);
    if r2 < 0.0 { Positive(0.0 - r2, sxx * syy); }
  }

  lemma ShareBounds(r: real, s: real, q: real)
    requires s > 0.0 && r * s == q && q <= s
    ensures r <= 1.0 && s - q == s * (1.0 - r)
  {
    if r > 1.0 { Positive(r - 1.0, s); }
  }

  /** A flat line through the mean of y leaves exactly what there is about it. */
  lemma FlatMisfit(x: seq<real>, y: seq<real>)
    requires |x| == |y| && x != []
    ensures Misfit(Coef(0.0, 0.0, Mean(y)), x, y) == Dot(Shifted(y, Mean(y)), Shifted(y, Mean(y)))
  {
    assert Residuals(Coef(0.0, 0.0, Mean(y)), x, y) == Shifted(y, Mean(y));
  }

  datatype Fit = NoFit | Fit(k: Coef, r2: real)

  /** How much of what there is about the mean of y a fit accounts for. */
  ghost predicate Accounts(f: Fit, x: seq<real>, y: seq<real>)
    requires |x| == |y| && x != [] && f.Fit?
  {
    && 0.0 <= f.r2 <= 1.0
    && Misfit(f.k, x, y) == Dot(Shifted(y, Mean(y)), Shifted(y, Mean(y))) * (1.0 - f.r2)
    && (Varies(y) || f.r2 == 1.0)
  }

  method FitLine(x: seq<real>, y: seq<real>) returns (f: Fit)
    requires |x| == |y|
    ensures f.Fit? <==> Varies(x)
    ensures f.Fit? ==> BestLine(f.k, x, y) && Accounts(f, x, y)
  {
    if |x| < 2 {
      return NoFit;
    }
    var mx := MeanOf(x);
    var my := MeanOf(y);
    var sxx, syy, sxy := Spreads(x, y, mx, my);
    SpreadWhereItVaries(x);
    if sxx <= 0.0 {
      return NoFit;
    }
    var slope := sxy / sxx;
    f := Fit(Coef(0.0, slope, my - slope * mx), if syy > 0.0 then sxy * sxy / (sxx * syy) else 1.0);
    LineIsBest(x, y, slope);
    LineMisfit(x, y, slope);
    FlatMisfit(x, y);
    DotSelf(Residuals(f.k, x, y));
    DotSelf(Shifted(y, my));
    SpreadWhereItVaries(y);
    if syy > 0.0 { ShareOfSpread(sxx, syy, sxy); }
  }

  // ----------------------------------------------------------------- the quadratic

  /** The column of u^2, of u, or of 1. */
  function Column(u: seq<real>, r: nat): (p: seq<real>)
    requires r < 3
    ensures |p| == |u|
  {
    if r == 0 then Squares(u) else if r == 1 then u else Ones(|u|)
  }

  function Entry(u: seq<real>, y: seq<real>, r: nat, c: nat): real
    requires |u| == |y| && r < 3 && c < 4
  {
    Dot(Column(u, r), if c == 3 then y else Column(u, c))
  }

  /** The normal equations in u, as three rows. */
  function NormalRows(u: seq<real>, y: seq<real>): (m: Matrix)
    requires |u| == |y|
  {
    var m := seq(3, r requires 0 <= r < 3 => seq(4, c requires 0 <= c < 4 => Entry(u, y, r, c)));
    assert |m| == 3 && |m[0]| == 4 && |m[1]| == 4 && |m[2]| == 4;
    m
  }

  /** One point's share of each entry: its own entry in the two columns, multiplied. */
  function Share(u: real, y: real, c: nat): real
    requires c < 4
  {
    if c == 0 then u * u else if c == 1 then u else if c == 2 then 1.0 else y
  }

  method AddPoint(a: array2<real>, u: real, y: real)
    requires a.Length0 == 3 && a.Length1 == 4
    modifies a
    ensures forall r, c :: 0 <= r < 3 && 0 <= c < 4 ==>
              a[r, c] == old(a[r, c]) + Product(Share(u, y, r), Share(u, y, c))
  {
    var p := [u * u, u, 1.0];
    for r := 0 to 3
      invariant forall i, k :: 0 <= i < 3 && 0 <= k < 4 ==>
                  a[i, k] == old(a[i, k]) + if i < r then Product(Share(u, y, i), Share(u, y, k)) else 0.0
    {
      for c := 0 to 3
        invariant forall i, k :: 0 <= i < 3 && 0 <= k < 4 ==>
                    a[i, k] == old(a[i, k])
                    + if i < r || (i == r && k < c) then Product(Share(u, y, i), Share(u, y, k)) else 0.0
      {
        a[r, c] := a[r, c] + Product(p[r], p[c]);
      }
      a[r, 3] := a[r, 3] + Product(p[r], y);
    }
  }

  lemma EntryGrows(u: seq<real>, y: seq<real>, i: nat, r: nat, c: nat)
    requires |u| == |y| && i < |u| && r < 3 && c < 4
    ensures Entry(u[..i + 1], y[..i + 1], r, c)
            == Entry(u[..i], y[..i], r, c) + Product(Share(u[i], y[i], r), Share(u[i], y[i], c))
  {
    var p, q := Column(u, r), if c == 3 then y else Column(u, c);
    DotGrows(p, q, i);
    ColumnFront(u, r, i);
    ColumnFront(u, r, i + 1);
    if c < 3 {
      ColumnFront(u, c, i);
      ColumnFront(u, c, i + 1);
    }
    assert p[i] == Share(u[i], y[i], r) && q[i] == Share(u[i], y[i], c);
    SameProducts(p[i], q[i], Share(u[i], y[i], r), Share(u[i], y[i], c));
  }

  lemma ColumnFront(u: seq<real>, r: nat, i: nat)
    requires r < 3 && i <= |u|
    ensures Column(u[..i], r) == Column(u, r)[..i]
  {
    forall k | 0 <= k < i ensures Column(u[..i], r)[k] == Column(u, r)[..i][k] {
      assert u[..i][k] == u[k];
    }
  }

  method NormalEquations(x: seq<real>, y: seq<real>, mx: real) returns (a: array2<real>)
    requires |x| == |y|
    ensures fresh(a) && a.Length0 == 3 && a.Length1 == 4
    ensures Rows(a) == NormalRows(Shifted(x, mx), y)
  {
    ghost var u := Shifted(x, mx);
    a := new real[3, 4]((_, _) => 0.0);
    forall r, c | 0 <= r < 3 && 0 <= c < 4 ensures Entry(u[..0], y[..0], r, c) == 0.0 {
      OpenDot(Column(u[..0], r), if c == 3 then y[..0] else Column(u[..0], c));
    }
    for i := 0 to |x|
      invariant fresh(a) && a.Length0 == 3 && a.Length1 == 4
      invariant forall r, c :: 0 <= r < 3 && 0 <= c < 4 ==> a[r, c] == Entry(u[..i], y[..i], r, c)
    {
      forall r, c | 0 <= r < 3 && 0 <= c < 4
        ensures Entry(u[..i + 1], y[..i + 1], r, c)
                == Entry(u[..i], y[..i], r, c) + Product(Share(u[i], y[i], r), Share(u[i], y[i], c))
      {
        EntryGrows(u, y, i, r, c);
      }
      AddPoint(a, x[i] - mx, y[i]);
    }
    assert u[..|x|] == u && y[..|x|] == y;
    SameRows(Rows(a), NormalRows(u, y));
  }

  /** What a row of the normal equations asks: nothing in common between the column and the residuals. */
  lemma OffNormal(u: seq<real>, y: seq<real>, r: nat, v: (real, real, real))
    requires |u| == |y| && r < 3
    ensures Off(NormalRows(u, y)[r], v) == 0.0 - Dot(Column(u, r), Residuals(Coef(v.0, v.1, v.2), u, y))
  {
    var p, k := Column(u, r), Coef(v.0, v.1, v.2);
    DotFitted(p, k, u);
    assert y == Plus(Residuals(k, u, y), Fitted(k, u));
    DotPlus(p, Residuals(k, u, y), Fitted(k, u));
    var row := NormalRows(u, y)[r];
    assert row == [Entry(u, y, r, 0), Entry(u, y, r, 1), Entry(u, y, r, 2), Entry(u, y, r, 3)];
  }

  lemma NormalRowsMean(u: seq<real>, y: seq<real>, v: (real, real, real))
    requires |u| == |y|
    ensures Solves(NormalRows(u, y), v) <==> Normal(Coef(v.0, v.1, v.2), u, y)
  {
    var e := Residuals(Coef(v.0, v.1, v.2), u, y);
    OffNormal(u, y, 0, v);
    OffNormal(u, y, 1, v);
    OffNormal(u, y, 2, v);
    DotSymmetric(e, Squares(u));
    DotSymmetric(e, u);
    DotSymmetric(e, Ones(|u|));
  }

  /** No other quadratic is as good. */
  ghost predicate Best(k: Coef, x: seq<real>, y: seq<real>)
    requires |x| == |y|
  {
    forall l: Coef :: Misfit(k, x, y) <= Misfit(l, x, y) && (Misfit(l, x, y) <= Misfit(k, x, y) ==> l == k)
  }

  lemma EliminationIsBest(u: seq<real>, y: seq<real>, v: (real, real, real))
    requires |u| == |y| && Eliminate(NormalRows(u, y), 0).Diagonal?
    requires var d := Eliminate(NormalRows(u, y), 0).m;
             d[0][0] != 0.0 && d[1][1] != 0.0 && d[2][2] != 0.0 && v == Quotients(d)
    ensures Best(Coef(v.0, v.1, v.2), u, y)
  {
    var k := Coef(v.0, v.1, v.2);
    EliminationSolves(NormalRows(u, y), v);
    NormalRowsMean(u, y, v);
    forall l: Coef
      ensures Misfit(k, u, y) <= Misfit(l, u, y) && (Misfit(l, u, y) <= Misfit(k, u, y) ==> l == k)
    {
      NormalIsBest(k, l, u, y);
      if Misfit(l, u, y) <= Misfit(k, u, y) {
        NormalIsOnlyBest(k, l, u, y);
        NormalRowsMean(u, y, (l.a, l.b, l.c));
        EliminationSolves(NormalRows(u, y), (l.a, l.b, l.c));
      }
    }
  }

  /** The best about m is, taken back, the best. */
  lemma BestRecentred(k: Coef, m: real, x: seq<real>, y: seq<real>)
    requires |x| == |y| && Best(k, Shifted(x, m), y)
    ensures Best(Recentred(k, m), x, y)
  {
    var c := Recentred(k, m);
    RecentredMisfit(k, m, x, y);
    forall l: Coef
      ensures Misfit(c, x, y) <= Misfit(l, x, y) && (Misfit(l, x, y) <= Misfit(c, x, y) ==> l == c)
    {
      var t := Recentred(l, 0.0 - m);
      RecentredBack(l, m);
      RecentredMisfit(t, m, x, y);
      assert Misfit(k, Shifted(x, m), y) <= Misfit(t, Shifted(x, m), y);
    }
  }

  lemma ShareOfTotal(res: real, tot: real)
    requires 0.0 <= res <= tot && tot > 0.0
    ensures var r2 := 1.0 - res / tot; 0.0 <= r2 <= 1.0 && res == tot * (1.0 - r2)
  {
    var q := res / tot;
    assert q * tot == res;
    if q > 1.0 { Positive(q - 1.0, tot); }
    if q < 0.0 { Positive(0.0 - q, tot); }
  }

  /** The squares of the residuals, and of what there is about the mean. */
  method Residue(k: Coef, x: seq<real>, y: seq<real>, my: real) returns (res: real, tot: real)
    requires |x| == |y|
    ensures res == Misfit(k, x, y) && tot == Dot(Shifted(y, my), Shifted(y, my))
  {
    ghost var e, w := Residuals(k, x, y), Shifted(y, my);
    res, tot := 0.0, 0.0;
    OpenDot(e[..0], e[..0]);
    OpenDot(w[..0], w[..0]);
    for i := 0 to |x|
      invariant res == Dot(e[..i], e[..i])
      invariant tot == Dot(w[..i], w[..i])
    {
      DotGrows(e, e, i);
      DotGrows(w, w, i);
      var d, t := y[i] - At(k, x[i]), y[i] - my;
      SameProducts(d, d, e[i], e[i]);
      SameProducts(t, t, w[i], w[i]);
      res := res + d * d;
      tot := tot + t * t;
    }
    assert e[..|x|] == e && w[..|x|] == w;
  }

  method Determination(k: Coef, x: seq<real>, y: seq<real>, my: real) returns (r2: real)
    requires |x| == |y| && x != [] && my == Mean(y) && Best(k, x, y)
    ensures Accounts(Fit(k, r2), x, y)
  {
    var res, tot := Residue(k, x, y, my);
    r2 := if tot > 0.0 then 1.0 - res / tot else 1.0;
    FlatMisfit(x, y);
    DotSelf(Residuals(k, x, y));
    DotSelf(Shifted(y, my));
    SpreadWhereItVaries(y);
    if tot > 0.0 { ShareOfTotal(res, tot); }
  }

  /** Read the solution off the diagonal, and take it back to x. */
  method Coefficients(m: array2<real>, mx: real, ghost x: seq<real>, ghost y: seq<real>) returns (k: Coef)
    requires m.Length0 == 3 && m.Length1 == 4 && |x| == |y|
    requires Eliminate(NormalRows(Shifted(x, mx), y), 0) == Diagonal(Rows(m))
    ensures Best(k, x, y)
  {
    ghost var u := Shifted(x, mx);
    EliminationSolves(NormalRows(u, y), (0.0, 0.0, 0.0));
    assert Rows(m)[0][0] == m[0, 0] && Rows(m)[1][1] == m[1, 1] && Rows(m)[2][2] == m[2, 2];
    assert Rows(m)[0][3] == m[0, 3] && Rows(m)[1][3] == m[1, 3] && Rows(m)[2][3] == m[2, 3];
    var a, b, c := m[0, 3] / m[0, 0], m[1, 3] / m[1, 1], m[2, 3] / m[2, 2];
    EliminationIsBest(u, y, Quotients(Rows(m)));
    BestRecentred(Coef(a, b, c), mx, x, y);
    k := Recentred(Coef(a, b, c), mx);
  }

  lemma BestIsOne(k: Coef, l: Coef, x: seq<real>, y: seq<real>)
    requires |x| == |y| && Best(k, x, y) && Residuals(k, x, y) == Residuals(l, x, y)
    ensures l == k
  {
    assert Misfit(l, x, y) <= Misfit(k, x, y);
  }

  /** With no more than two different x there is no one best quadratic, and the fit says so. */
  lemma TwoValuesFail(x: seq<real>, y: seq<real>, p: real, q: real)
    requires |x| == |y| && x != [] && forall i :: 0 <= i < |x| ==> x[i] == p || x[i] == q
    ensures Eliminate(NormalRows(Shifted(x, Mean(x)), y), 0).Singular?
  {
    var m := Mean(x);
    var u := Shifted(x, m);
    var d := Eliminate(NormalRows(u, y), 0);
    if d.Diagonal? {
      EliminationSolves(NormalRows(u, y), (0.0, 0.0, 0.0));
      var v := Quotients(d.m);
      EliminationIsBest(u, y, v);
      var s, t := p - m, q - m;
      var k := Coef(v.0, v.1, v.2);
      var l := Coef(v.0 + 1.0, v.1 - (s + t), v.2 + s * t);
      forall i | 0 <= i < |u| ensures Residuals(k, u, y)[i] == Residuals(l, u, y)[i] {
        TwoRoots(k, s, t, u[i]);
      }
      BestIsOne(k, l, u, y);
    }
  }

  lemma TwoRoots(k: Coef, s: real, t: real, u: real)
    requires u == s || u == t
    ensures At(Coef(k.a + 1.0, k.b - (s + t), k.c + s * t), u) == At(k, u)
  {
    var l := Coef(k.a + 1.0, k.b - (s + t), k.c + s * t);
    AtExpanded(l, u);
    AtExpanded(k, u);
    assert At(l, u) - At(k, u) == u * u - (s + t) * u + s * t;
  }

  // ------------------------------------------------------ when a quadratic fits

  predicate AreDifferent(a: real, b: real, c: real) {
    a != b && b != c && a != c
  }

  ghost predicate ThreeDifferent(x: seq<real>) {
    exists i, j, k :: 0 <= i < |x| && 0 <= j < |x| && 0 <= k < |x| && AreDifferent(x[i], x[j], x[k])
  }

  lemma Quotient(a: real, b: real, d: real)
    requires d != 0.0 && a * d == b * d
    ensures a == b
  {
  }

  lemma RootsApart(k: Coef, r: real, s: real)
    requires r != s && At(k, r) == 0.0 && At(k, s) == 0.0
    ensures k.a * (r + s) == 0.0 - k.b
  {
    AtExpanded(k, r);
    AtExpanded(k, s);
    assert k.a * (r * r) - k.a * (s * s) + k.b * r - k.b * s == 0.0;
    assert (k.a * (r + s)) * (r - s) == k.a * (r * r) - k.a * (s * s);
    Quotient(k.a * (r + s), 0.0 - k.b, r - s);
  }

  /** A quadratic with three roots is nought. */
  lemma ThreeRoots(k: Coef, r: real, s: real, t: real)
    requires AreDifferent(r, s, t) && At(k, r) == 0.0 && At(k, s) == 0.0 && At(k, t) == 0.0
    ensures k == Coef(0.0, 0.0, 0.0)
  {
    RootsApart(k, r, s);
    RootsApart(k, r, t);
    assert k.a * (s - t) == 0.0 * (s - t) by { assert k.a * (r + s) - k.a * (r + t) == k.a * (s - t); }
    Quotient(k.a, 0.0, s - t);
    AtExpanded(k, r);
  }

  /** A row of the normal equations against three coefficients, their right-hand sides apart. */
  lemma LinearNormal(u: seq<real>, y: seq<real>, r: nat, v: (real, real, real))
    requires |u| == |y| && r < 3
    ensures Linear(NormalRows(u, y)[r], v) == Dot(Column(u, r), Fitted(Coef(v.0, v.1, v.2), u))
  {
    DotFitted(Column(u, r), Coef(v.0, v.1, v.2), u);
    assert NormalRows(u, y)[r] == [Entry(u, y, r, 0), Entry(u, y, r, 1), Entry(u, y, r, 2), Entry(u, y, r, 3)];
  }

  /** What the normal equations take to nought is a quadratic that is nought at every point. */
  lemma NoughtAtThePoints(u: seq<real>, y: seq<real>, v: (real, real, real))
    requires |u| == |y| && Annihilates(NormalRows(u, y), v)
    ensures forall i :: 0 <= i < |u| ==> At(Coef(v.0, v.1, v.2), u[i]) == 0.0
  {
    var k := Coef(v.0, v.1, v.2);
    var d := Fitted(k, u);
    LinearNormal(u, y, 0, v);
    LinearNormal(u, y, 1, v);
    LinearNormal(u, y, 2, v);
    DotSymmetric(d, Squares(u));
    DotSymmetric(d, u);
    DotSymmetric(d, Ones(|u|));
    DotFitted(d, k, u);
    assert Column(u, 0) == Squares(u) && Column(u, 1) == u && Column(u, 2) == Ones(|u|);
    assert Dot(d, d) == v.0 * 0.0 + v.1 * 0.0 + v.2 * 0.0;
    DotSelfNought(d);
    forall i | 0 <= i < |u| ensures At(k, u[i]) == 0.0 {
      assert d[i] == 0.0;
    }
  }

  lemma ThreeAreRegular(x: seq<real>, y: seq<real>, m: real)
    requires |x| == |y| && ThreeDifferent(x)
    ensures Regular(NormalRows(Shifted(x, m), y))
  {
    var u := Shifted(x, m);
    var i, j, k :| 0 <= i < |x| && 0 <= j < |x| && 0 <= k < |x| && AreDifferent(x[i], x[j], x[k]);
    assert AreDifferent(u[i], u[j], u[k]);
    forall v | Annihilates(NormalRows(u, y), v) ensures v == (0.0, 0.0, 0.0) {
      NoughtAtThePoints(u, y, v);
      ThreeRoots(Coef(v.0, v.1, v.2), u[i], u[j], u[k]);
    }
  }

  /** With three different x no column come to is all noughts, so where the fit gives up it is on a pivot
      that is something, and less than what is taken for nought. */
  lemma ThreeGiveUpOnTiny(x: seq<real>, y: seq<real>)
    requires |x| == |y| && ThreeDifferent(x)
    requires Eliminate(NormalRows(Shifted(x, Mean(x)), y), 0).Singular?
    ensures 0.0 < GaveUpOn(NormalRows(Shifted(x, Mean(x)), y), 0) < 1e-300
  {
    ThreeAreRegular(x, y, Mean(x));
    GivesUpOnTiny(NormalRows(Shifted(x, Mean(x)), y), 0);
  }

  lemma NotThree(x: seq<real>) returns (p: real, q: real)
    requires x != [] && !ThreeDifferent(x)
    ensures forall i :: 0 <= i < |x| ==> x[i] == p || x[i] == q
  {
    p, q := x[0], x[0];
    if i :| 0 <= i < |x| && x[i] != p {
      q := x[i];
      forall j | 0 <= j < |x| ensures x[j] == p || x[j] == q {
        assert !AreDifferent(x[0], x[i], x[j]);
      }
    }
  }

  // ------------------------------------------------ told from the points alone

  lemma DotNotNegative(a: real, b: real, c: real, d: real, e: real)
    requires a > 0.0 && e >= 0.0 && e == a * (c * a - b * b) && d == c * a - b * b
    ensures d >= 0.0
  {
    if d < 0.0 { Positive(a, 0.0 - d); }
  }

  /** Of two columns, the square of what they have in common is no more than their squares multiplied. */
  lemma Cauchy(u: seq<real>, v: seq<real>)
    requires |u| == |v|
    ensures Dot(u, v) * Dot(u, v) <= Dot(u, u) * Dot(v, v)
  {
    var a, b, c := Dot(u, u), Dot(u, v), Dot(v, v);
    DotSelf(u);
    if a == 0.0 {
      DotSelfNought(u);
      DotSymmetric(u, v);
      DotNought(v, u);
    } else {
      LeftOver(u, v);
      DotSelf(Plus(Scaled(a, v), Scaled(0.0 - b, u)));
      DotNotNegative(a, b, c, c * a - b * b, a * (c * a - b * b));
    }
  }

  /** What is left of one column when the other is taken out of it. */
  lemma LeftOver(u: seq<real>, v: seq<real>)
    requires |u| == |v|
    ensures var a, b, c := Dot(u, u), Dot(u, v), Dot(v, v);
            var w := Plus(Scaled(a, v), Scaled(0.0 - b, u));
            Dot(w, w) == a * (c * a - b * b)
  {
    var a, b, c := Dot(u, u), Dot(u, v), Dot(v, v);
    var w := Plus(Scaled(a, v), Scaled(0.0 - b, u));
    DotSymmetric(u, v);
    DotPlus(w, Scaled(a, v), Scaled(0.0 - b, u));
    DotScaled(w, a, v);
    DotScaled(w, 0.0 - b, u);
    DotSymmetric(w, v);
    DotSymmetric(w, u);
    DotPlus(v, Scaled(a, v), Scaled(0.0 - b, u));
    DotScaled(v, a, v);
    DotScaled(v, 0.0 - b, u);
    DotPlus(u, Scaled(a, v), Scaled(0.0 - b, u));
    DotScaled(u, a, v);
    DotScaled(u, 0.0 - b, u);
    assert Dot(v, w) == a * c - b * b;
    assert Dot(u, w) == a * b - b * a;
  }

  /** The sums of the powers of u: of its squares, its cubes and its fourth powers. */
  function SumOfSquares(u: seq<real>): real {
    Dot(u, u)
  }

  function SumOfCubes(u: seq<real>): real {
    Dot(Squares(u), u)
  }

  function SumOfFourths(u: seq<real>): real {
    Dot(Squares(u), Squares(u))
  }

  /** The determinant of the normal equations about the mean, in n and those sums. */
  function Determinant(n: real, s2: real, s3: real, s4: real): real {
    DeterminantCovered(n, s2, s3, s4, 3)
  }

  /** Under covers, so that it is not multiplied out beside numbers as small as the pivots are held against. */
  function DeterminantCovered(n: real, s2: real, s3: real, s4: real, covers: nat): real
    decreases covers, n
  {
    if covers > 0 then DeterminantCovered(n, s2, s3, s4, covers - 1)
    else n * s2 * s4 - n * s3 * s3 - s2 * s2 * s2
  }

  lemma OpenDeterminant(n: real, s2: real, s3: real, s4: real)
    ensures Determinant(n, s2, s3, s4) == n * s2 * s4 - n * s3 * s3 - s2 * s2 * s2
  {
    assert DeterminantCovered(n, s2, s3, s4, 1) == DeterminantCovered(n, s2, s3, s4, 0);
    assert DeterminantCovered(n, s2, s3, s4, 2) == DeterminantCovered(n, s2, s3, s4, 1);
  }

  /** The larger minor of the first row, where that has the pivot. */
  function FirstMinor(s2: real, s3: real, s4: real): real {
    Larger(s2 * s4 - s3 * s3, Magnitude(s2 * s3))
  }

  /** Far enough apart for their number, in what the sums of powers about the mean come to. */
  predicate FarEnough(n: real, s2: real, s3: real, s4: real) {
    FarEnoughCovered(n, s2, s3, s4, 3)
  }

  /** Under covers, as the determinant is. */
  predicate FarEnoughCovered(n: real, s2: real, s3: real, s4: real, covers: nat)
    decreases covers, n
  {
    if covers > 0 then FarEnoughCovered(n, s2, s3, s4, covers - 1)
    else if s4 < s2 then
      s2 >= TINY && Determinant(n, s2, s3, s4) >= Product(TINY, s2 * s2)
    else
      && s4 >= TINY
      && FirstMinor(s2, s3, s4) >= Product(TINY, s4)
      && Determinant(n, s2, s3, s4) >= Product(TINY, FirstMinor(s2, s3, s4))
  }

  lemma OpenFarEnough(n: real, s2: real, s3: real, s4: real)
    ensures FarEnough(n, s2, s3, s4) <==>
              if s4 < s2 then
                s2 >= TINY && Determinant(n, s2, s3, s4) >= Product(TINY, s2 * s2)
              else
                && s4 >= TINY
                && FirstMinor(s2, s3, s4) >= Product(TINY, s4)
                && Determinant(n, s2, s3, s4) >= Product(TINY, FirstMinor(s2, s3, s4))
  {
    assert FarEnoughCovered(n, s2, s3, s4, 1) == FarEnoughCovered(n, s2, s3, s4, 0);
    assert FarEnoughCovered(n, s2, s3, s4, 2) == FarEnoughCovered(n, s2, s3, s4, 1);
  }

  predicate WellApart(x: seq<real>) {
    x != [] &&
    var u := Shifted(x, Mean(x));
    FarEnough(|x| as real, SumOfSquares(u), SumOfCubes(u), SumOfFourths(u))
  }

  /** The normal equations about the mean, entry by entry. */
  ghost predicate HasEntries(m: Matrix, n: real, s2: real, s3: real, s4: real) {
    && m[0][0] == s4 && m[0][1] == s3 && m[0][2] == s2
    && m[1][0] == s3 && m[1][1] == s2 && m[1][2] == 0.0
    && m[2][0] == s2 && m[2][1] == 0.0 && m[2][2] == n
  }

  lemma NormalEntries(u: seq<real>, y: seq<real>)
    requires |u| == |y| && Dot(Ones(|u|), u) == 0.0
    ensures HasEntries(NormalRows(u, y), |u| as real, SumOfSquares(u), SumOfCubes(u), SumOfFourths(u))
  {
    var m := NormalRows(u, y);
    SquaresAdd(u);
    DotOnes(|u|);
    DotSymmetric(u, Squares(u));
    DotSymmetric(Ones(|u|), Squares(u));
    DotSymmetric(Ones(|u|), u);
    assert m[0] == [Entry(u, y, 0, 0), Entry(u, y, 0, 1), Entry(u, y, 0, 2), Entry(u, y, 0, 3)];
    assert m[1] == [Entry(u, y, 1, 0), Entry(u, y, 1, 1), Entry(u, y, 1, 2), Entry(u, y, 1, 3)];
    assert m[2] == [Entry(u, y, 2, 0), Entry(u, y, 2, 1), Entry(u, y, 2, 2), Entry(u, y, 2, 3)];
  }

  /** What the sums of powers always obey. */
  ghost predicate Powers(n: real, s2: real, s3: real, s4: real) {
    n > 0.0 && s2 >= 0.0 && s4 >= 0.0 && Product(s3, s3) <= Product(s2, s4) && Determinant(n, s2, s3, s4) >= 0.0
  }

  lemma SumsArePowers(u: seq<real>)
    requires u != [] && Dot(Ones(|u|), u) == 0.0
    ensures Powers(|u| as real, SumOfSquares(u), SumOfCubes(u), SumOfFourths(u))
  {
    DotSelf(u);
    DotSelf(Squares(u));
    Cauchy(Squares(u), u);
    var n, s2, s3, s4 := |u| as real, SumOfSquares(u), SumOfCubes(u), SumOfFourths(u);
    var w := Centred(u);
    CentredSums(u);
    Cauchy(w, u);
    TimesNumber(n, s2, s3, s4, Dot(w, w));
  }

  /** The squares about their own mean. */
  function Centred(u: seq<real>): (w: seq<real>)
    requires u != []
    ensures |w| == |u|
  {
    Plus(Squares(u), Scaled(0.0 - SumOfSquares(u) / |u| as real, Ones(|u|)))
  }

  lemma TakenOff(v: seq<real>, q: seq<real>, k: real)
    requires |v| == |q|
    ensures Dot(v, Plus(q, Scaled(0.0 - k, Ones(|q|)))) == Dot(v, q) - Product(k, Dot(v, Ones(|q|)))
  {
    DotPlus(v, q, Scaled(0.0 - k, Ones(|q|)));
    DotScaled(v, 0.0 - k, Ones(|q|));
  }

  lemma CentredCubes(u: seq<real>)
    requires u != [] && Dot(Ones(|u|), u) == 0.0
    ensures Dot(Centred(u), u) == SumOfCubes(u)
  {
    var k := SumOfSquares(u) / |u| as real;
    DotSymmetric(Centred(u), u);
    DotSymmetric(u, Ones(|u|));
    DotSymmetric(u, Squares(u));
    TakenOff(u, Squares(u), k);
  }

  lemma CentredAddUp(u: seq<real>)
    requires u != []
    ensures Dot(Ones(|u|), Centred(u)) == 0.0
  {
    var k := SumOfSquares(u) / |u| as real;
    SquaresAdd(u);
    DotOnes(|u|);
    TakenOff(Ones(|u|), Squares(u), k);
    Divides(SumOfSquares(u), |u| as real);
  }

  lemma CentredSquares(u: seq<real>)
    requires u != []
    ensures var k := SumOfSquares(u) / |u| as real;
            Dot(Centred(u), Centred(u)) == SumOfFourths(u) - Product(k, SumOfSquares(u))
  {
    var k, w := SumOfSquares(u) / |u| as real, Centred(u);
    CentredAddUp(u);
    DotSymmetric(Ones(|u|), w);
    TakenOff(w, Squares(u), k);
    DotSymmetric(w, Squares(u));
    TakenOff(Squares(u), Squares(u), k);
    SquaresAdd(u);
    DotSymmetric(Squares(u), Ones(|u|));
    assert Product(k, 0.0) == 0.0;
  }

  lemma Spread(n: real, s2: real, s4: real, ww: real)
    requires n > 0.0 && ww == s4 - Product(s2 / n, s2)
    ensures n * ww == n * s4 - s2 * s2
  {
    var k := s2 / n;
    Divides(s2, n);
    assert n * (k * s2) == (k * n) * s2;
  }

  lemma CentredSums(u: seq<real>)
    requires u != [] && Dot(Ones(|u|), u) == 0.0
    ensures var w, n, s2 := Centred(u), |u| as real, SumOfSquares(u);
            Dot(w, u) == SumOfCubes(u) && n * Dot(w, w) == n * SumOfFourths(u) - s2 * s2
  {
    CentredCubes(u);
    CentredSquares(u);
    Spread(|u| as real, SumOfSquares(u), SumOfFourths(u), Dot(Centred(u), Centred(u)));
  }

  lemma TimesNumber(n: real, s2: real, s3: real, s4: real, ww: real)
    requires n > 0.0 && n * ww == n * s4 - s2 * s2 && s3 * s3 <= ww * s2
    ensures Determinant(n, s2, s3, s4) >= 0.0
  {
    Under(n, ww * s2 - s3 * s3);
    DeterminantOf(n, s2, s3, s4, ww);
  }

  lemma SquaresDiffer(a: real, b: real)
    ensures Product(a - b, a + b) == Product(a, a) - Product(b, b)
  {
  }

  lemma RootOrder(a: real, b: real)
    requires a >= 0.0 && b >= 0.0
    ensures Product(a, a) <= Product(b, b) ==> a <= b
    ensures Product(a, a) < Product(b, b) ==> a < b
  {
    SquaresDiffer(a, b);
    if a > b { TimesPositive(a - b, a + b); }
  }

  lemma SameSquare(a: real)
    ensures Product(Magnitude(a), Magnitude(a)) == Product(a, a)
  {
  }

  lemma ProductsDiffer(a: real, b: real, k: real)
    ensures Product(b - a, k) == Product(b, k) - Product(a, k)
  {
  }

  lemma TimesOrder(a: real, b: real, k: real)
    requires a <= b && k >= 0.0
    ensures Product(a, k) <= Product(b, k) && (a < b && k > 0.0 ==> Product(a, k) < Product(b, k))
  {
    ProductsDiffer(a, b, k);
    if a < b && k > 0.0 { TimesPositive(b - a, k); }
  }

  lemma NoMoreThanLarger(s2: real, s3: real, s4: real)
    requires s2 >= 0.0 && s4 >= 0.0 && Product(s3, s3) <= Product(s2, s4)
    ensures if s4 < s2 then Magnitude(s3) < s2 else Magnitude(s3) <= s4
  {
    SameSquare(s3);
    if s4 >= s2 {
      TimesOrder(s2, s4, s4);
      RootOrder(Magnitude(s3), s4);
    } else {
      TimesOrder(s4, s2, s2);
      assert Product(s2, s4) == Product(s4, s2);
      RootOrder(Magnitude(s3), s2);
    }
  }

  lemma WhichPivot(m: Matrix, n: real, s2: real, s3: real, s4: real)
    requires HasEntries(m, n, s2, s3, s4) && Powers(n, s2, s3, s4)
    ensures Pivot(m, 0) == if s4 < s2 then 2 else 0
  {
    NoMoreThanLarger(s2, s3, s4);
    assert Pivot(m, 0) == PivotFrom(m, 0, 0, 1);
    assert PivotFrom(m, 0, 0, 1) == PivotFrom(m, 0, if Magnitude(s3) > Magnitude(s4) then 1 else 0, 2);
  }

  lemma DetIs(m: Matrix, n: real, s2: real, s3: real, s4: real)
    requires HasEntries(m, n, s2, s3, s4)
    ensures Det(m) == Determinant(n, s2, s3, s4)
  {
    OpenDet(m);
    OpenDeterminant(n, s2, s3, s4);
  }

  lemma MinorOf(m: Matrix, r: nat, a: real, b: real, c: real, d: real)
    requires 0 < r < 3 && m[0][0] == a && m[0][1] == b && m[r][0] == c && m[r][1] == d
    ensures Minor(m, r) == a * d - c * b
    ensures b == 0.0 ==> Minor(m, r) == a * d
    ensures d == 0.0 ==> Magnitude(Minor(m, r)) == Magnitude(c * b)
  {
  }

  /** Where the fourth powers add up to no less than the squares, the first row has the pivot. */
  lemma MinorsAsTheyStand(m: Matrix, n: real, s2: real, s3: real, s4: real)
    requires HasEntries(m, n, s2, s3, s4) && Powers(n, s2, s3, s4) && s4 >= s2
    ensures PivotFirst(m)[0][0] == s4 && LargerMinor(PivotFirst(m)) == FirstMinor(s2, s3, s4)
  {
    WhichPivot(m, n, s2, s3, s4);
    assert PivotFirst(m) == m;
    MinorOf(m, 1, s4, s3, s3, s2);
    MinorOf(m, 2, s4, s3, s2, 0.0);
  }

  /** And otherwise the last. */
  lemma MinorsExchanged(m: Matrix, n: real, s2: real, s3: real, s4: real)
    requires HasEntries(m, n, s2, s3, s4) && Powers(n, s2, s3, s4) && s4 < s2
    ensures PivotFirst(m)[0][0] == s2 && LargerMinor(PivotFirst(m)) == s2 * s2
  {
    WhichPivot(m, n, s2, s3, s4);
    NoMoreThanLarger(s2, s3, s4);
    var x := PivotFirst(m);
    assert x[0] == m[2] && x[1] == m[1] && x[2] == m[0];
    MinorOf(x, 1, s2, 0.0, s3, s2);
    MinorOf(x, 2, s2, 0.0, s4, s3);
    LargerSquare(s2, s3);
  }

  lemma LargerSquare(a: real, b: real)
    requires a >= 0.0 && Magnitude(b) <= a
    ensures Larger(Magnitude(a * a), Magnitude(a * b)) == a * a
  {
    MagnitudeTimes(a, a);
    MagnitudeTimes(a, b);
    TimesOrder(Magnitude(b), a, a);
    assert Product(a, Magnitude(b)) == Product(Magnitude(b), a);
  }

  /** With the last row first, the second pivot is never the trouble. */
  lemma SquareEnough(a: real)
    requires a >= TINY
    ensures a * a >= Product(TINY, a)
  {
    Under(a, a - TINY);
    assert a * (a - TINY) == a * a - TINY * a;
  }

  /** What the elimination asks, of pivots and minors that are known. */
  lemma Asks(m: Matrix, first: real, second: real, d: real)
    requires PivotFirst(m)[0][0] == first && LargerMinor(PivotFirst(m)) == second && Det(m) == d
    requires first >= 0.0 && d >= 0.0
    ensures Eliminate(m, 0).Diagonal? <==>
              first >= TINY && second >= Product(TINY, first) && d >= Product(TINY, second)
  {
    SucceedsExactly(m);
  }

  lemma FarEnoughFirst(m: Matrix, n: real, s2: real, s3: real, s4: real)
    requires HasEntries(m, n, s2, s3, s4) && Powers(n, s2, s3, s4) && s4 >= s2
    ensures Eliminate(m, 0).Diagonal? <==> FarEnough(n, s2, s3, s4)
  {
    DetIs(m, n, s2, s3, s4);
    MinorsAsTheyStand(m, n, s2, s3, s4);
    OpenFarEnough(n, s2, s3, s4);
    Asks(m, s4, FirstMinor(s2, s3, s4), Determinant(n, s2, s3, s4));
  }

  lemma FarEnoughLast(m: Matrix, n: real, s2: real, s3: real, s4: real)
    requires HasEntries(m, n, s2, s3, s4) && Powers(n, s2, s3, s4) && s4 < s2
    ensures Eliminate(m, 0).Diagonal? <==> FarEnough(n, s2, s3, s4)
  {
    DetIs(m, n, s2, s3, s4);
    MinorsExchanged(m, n, s2, s3, s4);
    OpenFarEnough(n, s2, s3, s4);
    Asks(m, s2, s2 * s2, Determinant(n, s2, s3, s4));
    if s2 >= TINY { SquareEnough(s2); }
  }

  /** There is a quadratic exactly where the x are far enough apart, which is told from how many they are and the sums
      of their powers about the mean; y has nothing to do with it. */
  lemma FitsExactly(x: seq<real>, y: seq<real>)
    requires |x| == |y| && x != []
    ensures Eliminate(NormalRows(Shifted(x, Mean(x)), y), 0).Diagonal? <==> WellApart(x)
  {
    var u := Shifted(x, Mean(x));
    AboutTheMean(x);
    NormalEntries(u, y);
    SumsArePowers(u);
    var n, s2, s3, s4 := |u| as real, SumOfSquares(u), SumOfCubes(u), SumOfFourths(u);
    if s4 >= s2 {
      FarEnoughFirst(NormalRows(u, y), n, s2, s3, s4);
    } else {
      FarEnoughLast(NormalRows(u, y), n, s2, s3, s4);
    }
  }

  lemma DetOfAnnihilating(m: Matrix, v: (real, real, real))
    requires Annihilates(m, v) && v.0 == 1.0
    ensures Det(m) == 0.0
  {
    OpenDet(m);
    assert m[0][0] == 0.0 - (m[0][1] * v.1 + m[0][2] * v.2);
    assert m[1][0] == 0.0 - (m[1][1] * v.1 + m[1][2] * v.2);
    assert m[2][0] == 0.0 - (m[2][1] * v.1 + m[2][2] * v.2);
    Spanned(m[0][1], m[0][2], m[1][1], m[1][2], m[2][1], m[2][2], v.1, v.2);
  }

  lemma Spanned(b: real, c: real, e: real, f: real, h: real, i: real, s: real, t: real)
    ensures Det3(0.0 - (b * s + c * t), b, c, 0.0 - (e * s + f * t), e, f, 0.0 - (h * s + i * t), h, i) == 0.0
  {
  }

  /** With two values of x the quadratic through nought at both is nought everywhere. */
  lemma TwoValuesAnnihilate(u: seq<real>, y: seq<real>, s: real, t: real)
    requires |u| == |y| && forall i :: 0 <= i < |u| ==> u[i] == s || u[i] == t
    ensures Annihilates(NormalRows(u, y), (1.0, 0.0 - (s + t), s * t))
  {
    var v, k := (1.0, 0.0 - (s + t), s * t), Coef(1.0, 0.0 - (s + t), s * t);
    forall i | 0 <= i < |u| ensures Fitted(k, u)[i] == 0.0 {
      TwoRoots(Coef(0.0, 0.0, 0.0), s, t, u[i]);
      AtExpanded(Coef(0.0, 0.0, 0.0), u[i]);
    }
    LinearNormal(u, y, 0, v);
    LinearNormal(u, y, 1, v);
    LinearNormal(u, y, 2, v);
    DotNought(Squares(u), Fitted(k, u));
    DotNought(u, Fitted(k, u));
    DotNought(Ones(|u|), Fitted(k, u));
  }

  lemma NoughtTimes(a: real, b: real, c: real, n: real, d: real)
    requires n > 0.0 && n * (c * a - b * b) == 0.0 && d == a * (c * a - b * b)
    ensures d == 0.0
  {
    var e := c * a - b * b;
    if e > 0.0 { Positive(n, e); } else if e < 0.0 { Positive(n, 0.0 - e); }
    assert e == 0.0;
  }

  /** Where the determinant is nought, the squares about their mean are so many times u. */
  lemma NoughtDeterminant(u: seq<real>)
    requires u != [] && Dot(Ones(|u|), u) == 0.0
    requires Determinant(|u| as real, SumOfSquares(u), SumOfCubes(u), SumOfFourths(u)) == 0.0
    ensures forall i :: 0 <= i < |u| ==> SumOfSquares(u) * Centred(u)[i] - SumOfCubes(u) * u[i] == 0.0
  {
    var w := Centred(u);
    var d := Plus(Scaled(Dot(u, u), w), Scaled(0.0 - Dot(u, w), u));
    CentredSums(u);
    DotSymmetric(w, u);
    LeftOver(u, w);
    DeterminantOf(|u| as real, SumOfSquares(u), SumOfCubes(u), SumOfFourths(u), Dot(w, w));
    NoughtTimes(SumOfSquares(u), SumOfCubes(u), Dot(w, w), |u| as real, Dot(d, d));
    DotSelfNought(d);
    forall i | 0 <= i < |u| ensures SumOfSquares(u) * w[i] - SumOfCubes(u) * u[i] == 0.0 {
      assert d[i] == 0.0;
    }
  }

  lemma DeterminantOf(n: real, s2: real, s3: real, s4: real, ww: real)
    requires n * ww == n * s4 - s2 * s2
    ensures Determinant(n, s2, s3, s4) == n * (ww * s2 - s3 * s3)
  {
    OpenDeterminant(n, s2, s3, s4);
    assert n * (ww * s2 - s3 * s3) == (n * ww) * s2 - n * s3 * s3;
    assert (n * s4 - s2 * s2) * s2 == n * s2 * s4 - s2 * s2 * s2;
  }

  lemma RootOf(u: real, s2: real, s3: real, k: real)
    requires s2 * (u * u - k) - s3 * u == 0.0
    ensures At(Coef(s2, 0.0 - s3, 0.0 - s2 * k), u) == 0.0
  {
    AtExpanded(Coef(s2, 0.0 - s3, 0.0 - s2 * k), u);
  }

  function DeterminantAbout(u: seq<real>): real {
    Determinant(|u| as real, SumOfSquares(u), SumOfCubes(u), SumOfFourths(u))
  }

  /** A quadratic that is nought at every point where the determinant is. */
  function Through(u: seq<real>): Coef
    requires u != []
  {
    Coef(SumOfSquares(u), 0.0 - SumOfCubes(u), 0.0 - SumOfSquares(u) * (SumOfSquares(u) / |u| as real))
  }

  lemma ThroughAll(u: seq<real>, i: nat)
    requires u != [] && Dot(Ones(|u|), u) == 0.0 && DeterminantAbout(u) == 0.0 && i < |u|
    ensures At(Through(u), u[i]) == 0.0
  {
    NoughtDeterminant(u);
    assert Centred(u)[i] == u[i] * u[i] - SumOfSquares(u) / |u| as real;
    RootOf(u[i], SumOfSquares(u), SumOfCubes(u), SumOfSquares(u) / |u| as real);
  }

  lemma DifferentHaveDeterminant(u: seq<real>)
    requires u != [] && Dot(Ones(|u|), u) == 0.0 && ThreeDifferent(u)
    ensures DeterminantAbout(u) != 0.0
  {
    var i, j, l :| 0 <= i < |u| && 0 <= j < |u| && 0 <= l < |u| && AreDifferent(u[i], u[j], u[l]);
    if DeterminantAbout(u) == 0.0 {
      ThroughAll(u, i);
      ThroughAll(u, j);
      ThroughAll(u, l);
      ThreeRoots(Through(u), u[i], u[j], u[l]);
      DotSelfNought(u);
    }
  }

  lemma TwoHaveNone(u: seq<real>, p: real, q: real)
    requires u != [] && Dot(Ones(|u|), u) == 0.0 && forall i :: 0 <= i < |u| ==> u[i] == p || u[i] == q
    ensures DeterminantAbout(u) == 0.0
  {
    NormalEntries(u, u);
    TwoValuesAnnihilate(u, u, p, q);
    DetOfAnnihilating(NormalRows(u, u), (1.0, 0.0 - (p + q), p * q));
    DetIs(NormalRows(u, u), |u| as real, SumOfSquares(u), SumOfCubes(u), SumOfFourths(u));
  }

  lemma ShiftedDifferent(x: seq<real>, m: real)
    ensures ThreeDifferent(Shifted(x, m)) <==> ThreeDifferent(x)
  {
    var u := Shifted(x, m);
    if i, j, l :| 0 <= i < |x| && 0 <= j < |x| && 0 <= l < |x| && AreDifferent(x[i], x[j], x[l]) {
      assert AreDifferent(u[i], u[j], u[l]);
    }
    if i, j, l :| 0 <= i < |x| && 0 <= j < |x| && 0 <= l < |x| && AreDifferent(u[i], u[j], u[l]) {
      assert AreDifferent(x[i], x[j], x[l]);
    }
  }

  /** The determinant is positive exactly where three x are different, and nought otherwise. */
  lemma DeterminantPositiveExactly(x: seq<real>)
    requires x != []
    ensures var d := DeterminantAbout(Shifted(x, Mean(x))); d >= 0.0 && (d > 0.0 <==> ThreeDifferent(x))
  {
    var u := Shifted(x, Mean(x));
    AboutTheMean(x);
    SumsArePowers(u);
    ShiftedDifferent(x, Mean(x));
    if ThreeDifferent(u) {
      DifferentHaveDeterminant(u);
    } else {
      var p, q := NotThree(u);
      TwoHaveNone(u, p, q);
    }
  }

  // ------------------------------------------------------- very close together

  lemma {:induction false} NoMoreThanSum(u: seq<real>, i: nat)
    requires i < |u|
    ensures Product(u[i], u[i]) <= Dot(u, u)
  {
    OpenDot(u, u);
    var n := |u| - 1;
    DotSelf(u[..n]);
    SquaredSign(u[n]);
    if i < n { NoMoreThanSum(u[..n], i); }
  }

  lemma WithinOne(a: real)
    requires Product(a, a) < 1.0
    ensures -1.0 < a < 1.0
  {
    if a >= 1.0 { Grows(a - 1.0); } else if a <= -1.0 { Grows(0.0 - a - 1.0); }
  }

  lemma Grows(d: real)
    requires d >= 0.0
    ensures (1.0 + d) * (1.0 + d) >= 1.0
  {
    Square(d);
    assert (1.0 + d) * (1.0 + d) == 1.0 + 2.0 * d + d * d;
  }

  /** Of numbers less than one, the fourth power and the third are no greater than the square. */
  lemma PowersShrink(a: real)
    requires -1.0 < a < 1.0
    ensures 0.0 <= Product(Product(a, a), Product(a, a)) <= Product(a, a)
    ensures -Product(a, a) <= Product(Product(a, a), a) <= Product(a, a)
  {
    var q := Product(a, a);
    SquaredSign(a);
    SquaredSign(q);
    Shrinks(q, a);
    Shrinks(q, 0.0 - a);
    assert q <= 1.0 by { Shrinks(1.0 - a, 0.0 - a); assert q == 1.0 - (1.0 - a) * (1.0 + a); Under(1.0 - a, 1.0 + a); }
    Under(q, 1.0 - q);
    assert Product(q, q) == q - q * (1.0 - q);
  }

  lemma Under(q: real, d: real)
    requires q >= 0.0 && d >= 0.0
    ensures q * d >= 0.0
  {
  }

  lemma Shrinks(q: real, a: real)
    requires q >= 0.0 && a < 1.0
    ensures q * a <= q
  {
    Under(q, 1.0 - a);
    assert q * a == q - q * (1.0 - a);
  }

  lemma SquaresFront(u: seq<real>)
    requires u != []
    ensures Squares(u)[..|u| - 1] == Squares(u[..|u| - 1])
  {
    forall i | 0 <= i < |u| - 1 ensures Squares(u)[i] == Squares(u[..|u| - 1])[i] {
      assert u[..|u| - 1][i] == u[i];
    }
  }

  lemma {:induction false} SumsShrink(u: seq<real>)
    requires forall i :: 0 <= i < |u| ==> -1.0 < u[i] < 1.0
    ensures 0.0 <= Dot(Squares(u), Squares(u)) <= Dot(u, u)
    ensures -Dot(u, u) <= Dot(Squares(u), u) <= Dot(u, u)
  {
    OpenDot(u, u);
    OpenDot(Squares(u), u);
    OpenDot(Squares(u), Squares(u));
    if u != [] {
      var n := |u| - 1;
      SumsShrink(u[..n]);
      SquaresFront(u);
      PowersShrink(u[n]);
    }
  }

  /** With squares about the mean that add up to less than what is taken for nought, nothing fits, however
      many different x there are. */
  lemma VeryCloseFail(x: seq<real>, y: seq<real>)
    requires |x| == |y| && x != [] && Dot(Shifted(x, Mean(x)), Shifted(x, Mean(x))) < 1e-300
    ensures Eliminate(NormalRows(Shifted(x, Mean(x)), y), 0).Singular?
  {
    var u := Shifted(x, Mean(x));
    var m := NormalRows(u, y);
    forall i | 0 <= i < |u| ensures -1.0 < u[i] < 1.0 {
      NoMoreThanSum(u, i);
      WithinOne(u[i]);
    }
    SumsShrink(u);
    DotSymmetric(u, Squares(u));
    SquaresAdd(u);
    assert m[0][0] == Entry(u, y, 0, 0) && m[1][0] == Entry(u, y, 1, 0) && m[2][0] == Entry(u, y, 2, 0);
    assert Magnitude(m[Pivot(m, 0)][0]) < TINY;
  }

  lemma {:induction false} SquaresAdd(u: seq<real>)
    ensures Dot(Ones(|u|), Squares(u)) == Dot(u, u)
  {
    OpenDot(u, u);
    OpenDot(Ones(|u|), Squares(u));
    if u != [] {
      var n := |u| - 1;
      SquaresAdd(u[..n]);
      SquaresFront(u);
      assert Ones(|u|)[..n] == Ones(n);
    }
  }

  lemma SmallSquares(t: real)
    requires 0.0 < t <= 1e-160
    ensures Product(0.0 - t, 0.0 - t) + Product(0.0, 0.0) + Product(t, t) < TINY
  {
    var w := 1e-160 - t;
    Under(w, 1e-160 + t);
    assert Product(0.0 - t, 0.0 - t) == Product(t, t) == 1e-320 - w * (1e-160 + t);
    assert Product(0.0, 0.0) == 0.0;
  }

  /** Three different x, and no fit. */
  lemma ThreeYetNone(t: real, y: seq<real>)
    requires 0.0 < t <= 1e-160 && |y| == 3
    ensures var x := [0.0, t, 2.0 * t];
            ThreeDifferent(x) && Eliminate(NormalRows(Shifted(x, Mean(x)), y), 0).Singular?
  {
    var x := [0.0, t, 2.0 * t];
    assert AreDifferent(x[0], x[1], x[2]);
    SumOfThree(x, Ones(3));
    assert Mean(x) == t;
    var u := Shifted(x, t);
    SumOfThree(u, u);
    assert u[0] == 0.0 - t && u[1] == 0.0 && u[2] == t;
    SmallSquares(t);
    VeryCloseFail(x, y);
  }

  lemma SumOfThree(u: seq<real>, v: seq<real>)
    requires |u| == |v| == 3
    ensures Dot(u, v) == Product(u[0], v[0]) + Product(u[1], v[1]) + Product(u[2], v[2])
  {
    OpenDot(u, v);
    OpenDot(u[..2], v[..2]);
    OpenDot(u[..1], v[..1]);
    OpenDot(u[..0], v[..0]);
    assert u[..2][..1] == u[..1] && v[..2][..1] == v[..1];
    assert u[..1][..0] == u[..0] && v[..1][..0] == v[..0];
  }

  // --------------------------------------------------- some close, others far away

  lemma MinorFromDeterminant(n: real, s2: real, s3: real, s4: real)
    requires n > 0.0 && Determinant(n, s2, s3, s4) >= 0.0 && s2 * s2 * s2 >= n
    ensures FirstMinor(s2, s3, s4) >= 1.0
  {
    OpenDeterminant(n, s2, s3, s4);
    var q := s2 * s4 - s3 * s3;
    assert n * q == Determinant(n, s2, s3, s4) + s2 * s2 * s2;
    if q < 1.0 { Positive(n, 1.0 - q); }
  }

  lemma TimesTiny(q: real, d: real)
    requires q >= 1.0 && d < TINY
    ensures d < Product(TINY, q)
  {
    Under(TINY, q - 1.0);
    assert TINY * (q - 1.0) == TINY * q - TINY;
  }

  lemma AtLeastOne(a: real)
    requires a >= 1.0
    ensures a * a >= 1.0
  {
    Under(a - 1.0, a);
  }

  lemma NotFarEnough(n: real, s2: real, s3: real, s4: real)
    requires n > 0.0 && s2 >= 1.0 && s2 * s2 * s2 >= n && 0.0 <= Determinant(n, s2, s3, s4) < TINY
    ensures !FarEnough(n, s2, s3, s4)
  {
    OpenFarEnough(n, s2, s3, s4);
    var d := Determinant(n, s2, s3, s4);
    if s4 < s2 {
      AtLeastOne(s2);
      TimesTiny(s2 * s2, d);
    } else {
      MinorFromDeterminant(n, s2, s3, s4);
      TimesTiny(FirstMinor(s2, s3, s4), d);
    }
  }

  /** However far the x spread, a determinant below 1e-300 is too little. */
  lemma SmallDeterminantFails(x: seq<real>, y: seq<real>)
    requires |x| == |y| && x != []
    requires var u := Shifted(x, Mean(x));
             var s2 := SumOfSquares(u); s2 >= 1.0 && s2 * s2 * s2 >= |x| as real && DeterminantAbout(u) < 1e-300
    ensures Eliminate(NormalRows(Shifted(x, Mean(x)), y), 0).Singular?
  {
    var u := Shifted(x, Mean(x));
    AboutTheMean(x);
    SumsArePowers(u);
    NotFarEnough(|x| as real, SumOfSquares(u), SumOfCubes(u), SumOfFourths(u));
    FitsExactly(x, y);
  }

  lemma DetOfThree(a: real, b: real)
    ensures var c := 0.0 - a - b;
            var v := (a - b) * (b - c) * (c - a);
            Determinant(3.0, a * a + b * b + c * c, a * a * a + b * b * b + c * c * c,
                        a * a * (a * a) + b * b * (b * b) + c * c * (c * c)) == v * v
  {
    var c := 0.0 - a - b;
    OpenDeterminant(3.0, a * a + b * b + c * c, a * a * a + b * b * b + c * c * c,
                    a * a * (a * a) + b * b * (b * b) + c * c * (c * c));
  }

  lemma SumsOfThree(u: seq<real>, a: real, b: real, c: real)
    requires u == [a, b, c]
    ensures SumOfSquares(u) == a * a + b * b + c * c
    ensures SumOfCubes(u) == a * a * a + b * b * b + c * c * c
    ensures SumOfFourths(u) == a * a * (a * a) + b * b * (b * b) + c * c * (c * c)
  {
    SumOfThree(u, u);
    SumOfThree(Squares(u), u);
    SumOfThree(Squares(u), Squares(u));
  }

  /** The determinant of three points is what lies between them, multiplied and squared. */
  lemma DeterminantOfThree(a: real, b: real, c: real)
    requires a + b + c == 0.0
    ensures var v := (a - b) * (b - c) * (c - a); DeterminantAbout([a, b, c]) == v * v
  {
    SumsOfThree([a, b, c], a, b, c);
    assert c == 0.0 - a - b;
    DetOfThree(a, b);
  }

  lemma GapSquared(t: real, e: real, v: real, tiny: real)
    requires 0.0 < t <= e <= 1.0 && 81.0 * (e * e) < tiny && v == 3.0 * (t * (3.0 - t))
    ensures v * v < tiny
  {
    var w := t * (3.0 - t);
    assert 0.0 <= w <= 3.0 * t by { Under(t, t); Under(t, 3.0 - t); assert w == 3.0 * t - t * t; }
    var u := 9.0 * e;
    assert 0.0 <= v <= u;
    assert v * v <= u * u by { Under(u - v, u + v); assert (u - v) * (u + v) == u * u - v * v; }
  }

  lemma Gaps(a: real, b: real, c: real, t: real)
    requires b - a == t && c - b == 3.0 - t && c - a == 3.0
    ensures (a - b) * (b - c) * (c - a) == 3.0 * (t * (3.0 - t))
  {
    assert (a - b) * (b - c) == (b - a) * (c - b);
  }

  lemma ThreePoints(t: real)
    ensures var m := (3.0 + t) / 3.0;
            && Mean([0.0, t, 3.0]) == m
            && Shifted([0.0, t, 3.0], m) == [0.0 - m, t - m, 3.0 - m]
            && (0.0 - m) + (t - m) + (3.0 - m) == 0.0
  {
    SumOfThree([0.0, t, 3.0], Ones(3));
  }

  lemma CloseDeterminant(t: real, e: real, tiny: real)
    requires 0.0 < t <= e <= 1.0 && 81.0 * (e * e) < tiny
    ensures var x := [0.0, t, 3.0]; DeterminantAbout(Shifted(x, Mean(x))) < tiny
  {
    var m := (3.0 + t) / 3.0;
    var a, b, c := 0.0 - m, t - m, 3.0 - m;
    ThreePoints(t);
    DeterminantOfThree(a, b, c);
    Gaps(a, b, c, t);
    GapSquared(t, e, (a - b) * (b - c) * (c - a), tiny);
  }

  lemma WideSquares(a: real, b: real, c: real)
    requires a <= -1.0 && c >= 1.0
    ensures var s2 := a * a + b * b + c * c; s2 >= 2.0 && s2 * s2 * s2 >= 8.0
  {
    Square(b);
    AtLeastOne(c);
    AtLeastOne(0.0 - a);
    assert (0.0 - a) * (0.0 - a) == a * a;
    AtLeastEight(a * a + b * b + c * c);
  }

  lemma WideSums(t: real)
    requires 0.0 < t <= 1.0
    ensures var x := [0.0, t, 3.0];
            var s2 := SumOfSquares(Shifted(x, Mean(x))); s2 >= 2.0 && s2 * s2 * s2 >= 8.0
  {
    var m := (3.0 + t) / 3.0;
    ThreePoints(t);
    SumsOfThree([0.0 - m, t - m, 3.0 - m], 0.0 - m, t - m, 3.0 - m);
    WideSquares(0.0 - m, t - m, 3.0 - m);
  }

  lemma AtLeastEight(a: real)
    requires a >= 2.0
    ensures a * a * a >= 8.0
  {
    Under(a - 2.0, a);
    assert a * a >= 2.0 * a >= 4.0;
    Under(a * a - 4.0, a);
    assert a * a * a >= 4.0 * a;
  }

  /** Three different x whose squares about the mean add up to plenty, and no fit: two of them are very close. */
  lemma WideYetNone(t: real, y: seq<real>)
    requires 0.0 < t <= 1e-152 && |y| == 3
    ensures var x := [0.0, t, 3.0];
            && ThreeDifferent(x) && SumOfSquares(Shifted(x, Mean(x))) >= 2.0
            && Eliminate(NormalRows(Shifted(x, Mean(x)), y), 0).Singular?
  {
    var x := [0.0, t, 3.0];
    assert AreDifferent(x[0], x[1], x[2]);
    CloseDeterminant(t, 1e-152, TINY);
    WideSums(t);
    SmallDeterminantFails(x, y);
  }

  // ------------------------------------------------------------- and the fit itself

  /** Three x evenly spaced, one or more apart, are far enough apart, wherever they are. */
  lemma EvenThreeFit(c: real, h: real, y: seq<real>)
    requires h >= 1.0 && |y| == 3
    ensures WellApart([c - h, c, c + h])
    ensures Eliminate(NormalRows([0.0 - h, 0.0, h], y), 0).Diagonal?
  {
    var x, u := [c - h, c, c + h], [0.0 - h, 0.0, h];
    SumOfThree(x, Ones(3));
    assert Mean(x) == c && Shifted(x, c) == u;
    SumsOfThree(u, 0.0 - h, 0.0, h);
    EvenSums(h, SumOfSquares(u), SumOfCubes(u), SumOfFourths(u));
    EvenFarEnough(SumOfSquares(u), SumOfFourths(u));
    FitsExactly(x, y);
  }

  /** The fourth powers come to half of the square of the squares. Under covers, as the determinant is. */
  ghost predicate HalfSquare(p: real, q: real, covers: nat) {
    if covers > 0 then HalfSquare(p, q, covers - 1) else p >= 2.0 && q == p * p / 2.0
  }

  lemma OpenHalf(p: real, q: real)
    ensures HalfSquare(p, q, 3) <==> p >= 2.0 && q == p * p / 2.0
  {
    assert HalfSquare(p, q, 1) == HalfSquare(p, q, 0);
    assert HalfSquare(p, q, 2) == HalfSquare(p, q, 1);
  }

  lemma EvenSums(h: real, s2: real, s3: real, s4: real)
    requires h >= 1.0
    requires s2 == (0.0 - h) * (0.0 - h) + 0.0 * 0.0 + h * h
    requires s3 == (0.0 - h) * (0.0 - h) * (0.0 - h) + 0.0 * 0.0 * 0.0 + h * h * h
    requires s4 == (0.0 - h) * (0.0 - h) * ((0.0 - h) * (0.0 - h)) + 0.0 * 0.0 * (0.0 * 0.0) + h * h * (h * h)
    ensures s3 == 0.0 && HalfSquare(s2, s4, 3)
  {
    var w := h * h;
    assert w >= 1.0 by { Under(h - 1.0, h); assert (h - 1.0) * h == w - h; }
    assert s2 == 2.0 * w && s4 == 2.0 * (w * w);
    OpenHalf(s2, s4);
  }

  lemma EvenFarEnough(p: real, q: real)
    requires HalfSquare(p, q, 3)
    ensures FarEnough(3.0, p, 0.0, q)
  {
    var first := EvenMinor(p, q);
    TinyChain(p, q, first);
    OpenFarEnough(3.0, p, 0.0, q);
  }

  lemma EvenMinor(p: real, q: real) returns (first: real)
    requires HalfSquare(p, q, 3)
    ensures q >= p >= 2.0 && first >= q && FirstMinor(p, 0.0, q) == first && Determinant(3.0, p, 0.0, q) == first
  {
    OpenHalf(p, q);
    OpenDeterminant(3.0, p, 0.0, q);
    first := p * q;
    Under(p - 2.0, p);
    assert (p - 2.0) * p == p * p - 2.0 * p;
    Under(p - 1.0, q);
    assert (p - 1.0) * q == p * q - q;
    assert p * q == p * p * p / 2.0;
    assert p * 0.0 == 0.0;
  }

  lemma TinyChain(p: real, q: real, first: real)
    requires q >= p >= 2.0 && first >= q
    ensures q >= TINY && first >= Product(TINY, q) && first >= Product(TINY, first)
  {
    TinyTimes(q);
    TinyTimes(first);
  }

  lemma TinyTimes(w: real)
    requires w >= 0.0
    ensures Product(TINY, w) <= w
  {
    Under(1.0 - TINY, w);
    assert (1.0 - TINY) * w == w - TINY * w;
  }

  method FitQuadratic(x: seq<real>, y: seq<real>) returns (f: Fit)
    requires |x| == |y|
    ensures f.Fit? <==> |x| >= 3 && WellApart(x)
    ensures f.Fit? ==> Best(f.k, x, y) && Accounts(f, x, y)
  {
    if |x| < 3 {
      return NoFit;
    }
    FitsExactly(x, y);
    var mx := MeanOf(x);
    var my := MeanOf(y);
    var m := NormalEquations(x, y, mx);
    var ok := Solve(m);
    if !ok {
      return NoFit;
    }
    var k := Coefficients(m, mx, x, y);
    var r2 := Determination(k, x, y, my);
    f := Fit(k, r2);
  }
}
