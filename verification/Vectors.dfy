/** Columns of numbers: sums of products, and what they obey. */
module Vectors {
  import opened Basics

  /** The sum of u[i] * v[i]. The covers keep the products out of sight of a proof that does not ask. */
  function Dot(u: seq<real>, v: seq<real>): real
    requires |u| == |v|
    decreases |u|, 4
  {
    DotCovered(u, v, 3)
  }

  /** The same under covers, which a proof takes off where it has to look. */
  function DotCovered(u: seq<real>, v: seq<real>, covers: nat): real
    requires |u| == |v|
    decreases |u|, covers, v
  {
    if covers > 0 then DotCovered(u, v, covers - 1)
    else if u == [] then 0.0
    else Dot(u[..|u| - 1], v[..|v| - 1]) + u[|u| - 1] * v[|v| - 1]
  }

  lemma OpenDot(u: seq<real>, v: seq<real>)
    requires |u| == |v|
    ensures Dot(u, v) == if u == [] then 0.0 else Dot(u[..|u| - 1], v[..|v| - 1]) + u[|u| - 1] * v[|v| - 1]
  {
    assert DotCovered(u, v, 1) == DotCovered(u, v, 0);
    assert DotCovered(u, v, 2) == DotCovered(u, v, 1);
  }

  function Plus(u: seq<real>, v: seq<real>): (w: seq<real>)
    requires |u| == |v|
    ensures |w| == |u|
  {
    seq(|u|, i requires 0 <= i < |u| => u[i] + v[i])
  }

  function Scaled(a: real, u: seq<real>): (w: seq<real>)
    ensures |w| == |u|
  {
    seq(|u|, i requires 0 <= i < |u| => a * u[i])
  }

  function Ones(n: nat): (w: seq<real>)
    ensures |w| == n
  {
    seq(n, _ => 1.0)
  }

  lemma {:induction false} DotSymmetric(u: seq<real>, v: seq<real>)
    requires |u| == |v|
    ensures Dot(u, v) == Dot(v, u)
  {
    OpenDot(u, v);
    OpenDot(v, u);
    if u != [] { DotSymmetric(u[..|u| - 1], v[..|v| - 1]); }
  }

  lemma Distribute(a: real, b: real, c: real)
    ensures a * (b + c) == a * b + a * c
  {
  }

  lemma Associate(a: real, b: real, c: real)
    ensures a * (b * c) == b * (a * c)
  {
  }

  lemma {:induction false} DotPlus(u: seq<real>, v: seq<real>, w: seq<real>)
    requires |u| == |v| == |w|
    ensures Dot(u, Plus(v, w)) == Dot(u, v) + Dot(u, w)
  {
    OpenDot(u, v);
    OpenDot(u, w);
    OpenDot(u, Plus(v, w));
    if u != [] {
      var n := |u| - 1;
      DotPlus(u[..n], v[..n], w[..n]);
      assert Plus(v, w)[..n] == Plus(v[..n], w[..n]);
      Distribute(u[n], v[n], w[n]);
    }
  }

  lemma ScaledFront(a: real, v: seq<real>)
    requires v != []
    ensures Scaled(a, v)[..|v| - 1] == Scaled(a, v[..|v| - 1])
  {
    forall i | 0 <= i < |v| - 1 ensures Scaled(a, v)[i] == Scaled(a, v[..|v| - 1])[i] {
      assert v[..|v| - 1][i] == v[i];
    }
  }

  lemma {:induction false} DotScaled(u: seq<real>, a: real, v: seq<real>)
    requires |u| == |v|
    ensures Dot(u, Scaled(a, v)) == a * Dot(u, v)
  {
    OpenDot(u, v);
    OpenDot(u, Scaled(a, v));
    if u != [] {
      var n := |u| - 1;
      DotScaled(u[..n], a, v[..n]);
      ScaledFront(a, v);
      Associate(u[n], a, v[n]);
      Distribute(a, Dot(u[..n], v[..n]), u[n] * v[n]);
    }
  }

  /** Three columns at once. */
  lemma DotPlusPlus(e: seq<real>, p: seq<real>, q: seq<real>, r: seq<real>)
    requires |e| == |p| == |q| == |r|
    ensures Dot(e, Plus(Plus(p, q), r)) == Dot(e, p) + Dot(e, q) + Dot(e, r)
  {
    DotPlus(e, Plus(p, q), r);
    DotPlus(e, p, q);
  }

  /** Three columns, each with a weight. */
  lemma DotWeighted(e: seq<real>, a: real, u: seq<real>, b: real, v: seq<real>, c: real, w: seq<real>)
    requires |e| == |u| == |v| == |w|
    ensures Dot(e, Plus(Plus(Scaled(a, u), Scaled(b, v)), Scaled(c, w)))
            == a * Dot(e, u) + b * Dot(e, v) + c * Dot(e, w)
  {
    DotPlusPlus(e, Scaled(a, u), Scaled(b, v), Scaled(c, w));
    DotScaled(e, a, u);
    DotScaled(e, b, v);
    DotScaled(e, c, w);
  }

  lemma Square(a: real)
    ensures a * a >= 0.0 && (a > 0.0 || a < 0.0 ==> a * a > 0.0)
  {
    if a > 0.0 {
      Positive(a, a);
    } else if a < 0.0 {
      Positive(0.0 - a, 0.0 - a);
    }
  }

  lemma Positive(a: real, b: real)
    requires a > 0.0 && b > 0.0
    ensures a * b > 0.0
  {
  }

  /** A sum of squares is never negative. */
  lemma {:induction false} DotSelf(u: seq<real>)
    ensures Dot(u, u) >= 0.0
  {
    OpenDot(u, u);
    if u != [] {
      DotSelf(u[..|u| - 1]);
      Square(u[|u| - 1]);
    }
  }

  lemma TimesPositive(a: real, b: real)
    requires a > 0.0 && b > 0.0
    ensures Product(a, b) > 0.0
  {
    Positive(a, b);
  }

  lemma SquaredSign(a: real)
    ensures Product(a, a) >= 0.0 && (a > 0.0 || a < 0.0 ==> Product(a, a) > 0.0)
  {
    Square(a);
    if a < 0.0 {
      TimesPositive(0.0 - a, 0.0 - a);
      assert Product(a, a) == Product(0.0 - a, 0.0 - a);
    } else if a > 0.0 {
      TimesPositive(a, a);
    }
  }

  lemma NoughtsAdd(a: real, z: real)
    requires a >= 0.0 && a + Product(z, z) == 0.0
    ensures a == 0.0 && z == 0.0
  {
    SquaredSign(z);
  }

  lemma SameProducts(a: real, b: real, c: real, d: real)
    requires a == c && b == d
    ensures a * b == c * d
  {
  }

  /** And nought only where everything in it is. */
  lemma {:induction false} DotSelfNought(u: seq<real>)
    requires Dot(u, u) == 0.0
    ensures forall i :: 0 <= i < |u| ==> u[i] == 0.0
  {
    OpenDot(u, u);
    if u != [] {
      var n := |u| - 1;
      DotSelf(u[..n]);
      NoughtsAdd(Dot(u[..n], u[..n]), u[n]);
      DotSelfNought(u[..n]);
      forall i | 0 <= i < |u| ensures u[i] == 0.0 {
        if i < n { assert u[i] == u[..n][i]; }
      }
    }
  }

  /** The square of a sum, with nothing in common between the parts. */
  lemma Pythagoras(e: seq<real>, d: seq<real>)
    requires |e| == |d| && Dot(e, d) == 0.0
    ensures Dot(Plus(e, d), Plus(e, d)) == Dot(e, e) + Dot(d, d)
  {
    var s := Plus(e, d);
    DotPlus(s, e, d);
    DotSymmetric(s, e);
    DotSymmetric(s, d);
    DotPlus(e, e, d);
    DotPlus(d, e, d);
    DotSymmetric(d, e);
  }

  lemma {:induction false} DotNought(u: seq<real>, v: seq<real>)
    requires |u| == |v| && forall i :: 0 <= i < |v| ==> v[i] == 0.0
    ensures Dot(u, v) == 0.0
  {
    OpenDot(u, v);
    if u != [] { DotNought(u[..|u| - 1], v[..|v| - 1]); }
  }

  /** One more term. */
  lemma DotGrows(u: seq<real>, v: seq<real>, i: nat)
    requires |u| == |v| && i < |u|
    ensures Dot(u[..i + 1], v[..i + 1]) == Dot(u[..i], v[..i]) + u[i] * v[i]
  {
    OpenDot(u[..i + 1], v[..i + 1]);
    assert u[..i + 1][..i] == u[..i] && v[..i + 1][..i] == v[..i];
  }

  lemma {:induction false} DotOnes(n: nat)
    ensures Dot(Ones(n), Ones(n)) == n as real
  {
    OpenDot(Ones(n), Ones(n));
    if n > 0 {
      DotOnes(n - 1);
      assert Ones(n)[..n - 1] == Ones(n - 1);
    }
  }
}
