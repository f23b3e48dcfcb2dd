/** Least squares by a line and by a quadratic, over the reals. */
module Regression {
  import opened Vectors

  /** a x^2 + b x + c. */
  datatype Coef = Coef(a: real, b: real, c: real)

  function At(k: Coef, x: real): real {
    (k.a * x + k.b) * x + k.c
  }

  function Fitted(k: Coef, x: seq<real>): (w: seq<real>)
    ensures |w| == |x|
  {
    seq(|x|, i requires 0 <= i < |x| => At(k, x[i]))
  }

  function Residuals(k: Coef, x: seq<real>, y: seq<real>): (w: seq<real>)
    requires |x| == |y|
    ensures |w| == |x|
  {
    seq(|x|, i requires 0 <= i < |x| => y[i] - At(k, x[i]))
  }

  /** The sum of the squared residuals. */
  function Misfit(k: Coef, x: seq<real>, y: seq<real>): real
    requires |x| == |y|
  {
    Dot(Residuals(k, x, y), Residuals(k, x, y))
  }

  function Less(k: Coef, l: Coef): Coef {
    Coef(k.a - l.a, k.b - l.b, k.c - l.c)
  }

  function Squares(x: seq<real>): (w: seq<real>)
    ensures |w| == |x|
  {
    seq(|x|, i requires 0 <= i < |x| => x[i] * x[i])
  }

  /** The normal equations: the residuals have nothing in common with 1, x and x^2. */
  ghost predicate Normal(k: Coef, x: seq<real>, y: seq<real>)
    requires |x| == |y|
  {
    var e := Residuals(k, x, y);
    Dot(e, Squares(x)) == 0.0 && Dot(e, x) == 0.0 && Dot(e, Ones(|x|)) == 0.0
  }

  /** The values of a quadratic as a sum of three columns. */
  lemma FittedParts(k: Coef, x: seq<real>)
    ensures Fitted(k, x) == Plus(Plus(Scaled(k.a, Squares(x)), Scaled(k.b, x)), Scaled(k.c, Ones(|x|)))
  {
    forall i | 0 <= i < |x|
      ensures Fitted(k, x)[i] == Plus(Plus(Scaled(k.a, Squares(x)), Scaled(k.b, x)), Scaled(k.c, Ones(|x|)))[i]
    {
      AtExpanded(k, x[i]);
    }
  }

  /** What has nothing in common with 1, x and x^2 has nothing in common with any quadratic. */
  lemma DotFitted(e: seq<real>, k: Coef, x: seq<real>)
    requires |e| == |x|
    ensures Dot(e, Fitted(k, x)) == k.a * Dot(e, Squares(x)) + k.b * Dot(e, x) + k.c * Dot(e, Ones(|x|))
  {
    FittedParts(k, x);
    DotWeighted(e, k.a, Squares(x), k.b, x, k.c, Ones(|x|));
  }

  lemma AtExpanded(k: Coef, x: real)
    ensures At(k, x) == k.a * (x * x) + k.b * x + k.c * 1.0
  {
  }

  lemma AtLess(k: Coef, l: Coef, x: real)
    ensures At(Less(k, l), x) == At(k, x) - At(l, x)
  {
    AtExpanded(Less(k, l), x);
    AtExpanded(k, x);
    AtExpanded(l, x);
  }

  /** A fit whose residuals have nothing in common with how it differs from another is the better of the two,
      by exactly the squares of the differences at the points. */
  lemma BetterBy(k: Coef, other: Coef, x: seq<real>, y: seq<real>)
    requires |x| == |y| && Dot(Residuals(k, x, y), Fitted(Less(k, other), x)) == 0.0
    ensures var d := Fitted(Less(k, other), x); Misfit(other, x, y) == Misfit(k, x, y) + Dot(d, d)
    ensures Misfit(k, x, y) <= Misfit(other, x, y)
  {
    var e, d := Residuals(k, x, y), Fitted(Less(k, other), x);
    Pythagoras(e, d);
    forall i | 0 <= i < |x| ensures Residuals(other, x, y)[i] == Plus(e, d)[i] {
      AtLess(k, other, x[i]);
    }
    assert Residuals(other, x, y) == Plus(e, d);
    DotSelf(d);
  }

  lemma NormalIsBest(k: Coef, other: Coef, x: seq<real>, y: seq<real>)
    requires |x| == |y| && Normal(k, x, y)
    ensures var d := Fitted(Less(k, other), x); Misfit(other, x, y) == Misfit(k, x, y) + Dot(d, d)
    ensures Misfit(k, x, y) <= Misfit(other, x, y)
  {
    DotFitted(Residuals(k, x, y), Less(k, other), x);
    BetterBy(k, other, x, y);
  }

  /** And any other that is no worse is the same at every point. */
  lemma NormalIsOnlyBest(k: Coef, other: Coef, x: seq<real>, y: seq<real>)
    requires |x| == |y| && Normal(k, x, y) && Misfit(other, x, y) <= Misfit(k, x, y)
    ensures Residuals(other, x, y) == Residuals(k, x, y)
  {
    var d := Fitted(Less(k, other), x);
    NormalIsBest(k, other, x, y);
    DotSelf(d);
    DotSelfNought(d);
    forall i | 0 <= i < |x| ensures Residuals(other, x, y)[i] == Residuals(k, x, y)[i] {
      assert d[i] == 0.0;
      AtLess(k, other, x[i]);
    }
  }

  // ---------------------------------------------------------- about the mean of x

  function Shifted(x: seq<real>, m: real): (u: seq<real>)
    ensures |u| == |x|
  {
    seq(|x|, i requires 0 <= i < |x| => x[i] - m)
  }

  /** The quadratic whose value at x is the other's at x - m. */
  function Recentred(k: Coef, m: real): Coef {
    Coef(k.a, k.b - 2.0 * k.a * m, k.c - k.b * m + k.a * m * m)
  }

  lemma RecentredAt(k: Coef, m: real, x: real)
    ensures At(Recentred(k, m), x) == At(k, x - m)
  {
    var u := x - m;
    AtExpanded(k, u);
    AtExpanded(Recentred(k, m), x);
    assert k.a * (u * u) == k.a * (x * x) - 2.0 * k.a * m * x + k.a * m * m;
  }

  lemma RecentredMisfit(k: Coef, m: real, x: seq<real>, y: seq<real>)
    requires |x| == |y|
    ensures Residuals(Recentred(k, m), x, y) == Residuals(k, Shifted(x, m), y)
    ensures Misfit(Recentred(k, m), x, y) == Misfit(k, Shifted(x, m), y)
  {
    forall i | 0 <= i < |x| ensures At(Recentred(k, m), x[i]) == At(k, Shifted(x, m)[i]) {
      RecentredAt(k, m, x[i]);
    }
  }

  /** Every quadratic is some quadratic about m. */
  lemma RecentredBack(k: Coef, m: real)
    ensures Recentred(Recentred(k, -m), m) == k
  {
    var l := Recentred(k, -m);
    assert l.b == k.b + 2.0 * k.a * m;
    assert l.c == k.c + k.b * m + k.a * m * m;
    assert l.b * m == k.b * m + 2.0 * k.a * m * m;
  }
}
