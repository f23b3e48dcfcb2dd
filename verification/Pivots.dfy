/** The pivots an elimination comes to, told from the entries of the matrix: when it gives up, without doing it. */
module Pivots {
  import opened Basics
  import opened Elimination

  function Det3(a: real, b: real, c: real, d: real, e: real, f: real, g: real, h: real, i: real): real {
    a * (e * i - f * h) - b * (d * i - f * g) + c * (d * h - e * g)
  }

  /** The determinant, the right-hand sides aside. */
  function Det(m: Matrix): real {
    DetCovered(m, 3)
  }

  /** Under covers, so that it is not multiplied out where it is only compared. */
  function DetCovered(m: Matrix, covers: nat): real
    decreases covers, m
  {
    if covers > 0 then DetCovered(m, covers - 1)
    else Det3(m[0][0], m[0][1], m[0][2], m[1][0], m[1][1], m[1][2], m[2][0], m[2][1], m[2][2])
  }

  lemma OpenDet(m: Matrix)
    ensures Det(m) == Det3(m[0][0], m[0][1], m[0][2], m[1][0], m[1][1], m[1][2], m[2][0], m[2][1], m[2][2])
  {
    assert DetCovered(m, 1) == DetCovered(m, 0);
    assert DetCovered(m, 2) == DetCovered(m, 1);
  }

  /** Two rows and two columns of it. */
  function Minor(m: Matrix, r: nat): real
    requires 0 < r < 3
  {
    m[0][0] * m[r][1] - m[r][0] * m[0][1]
  }

  /** What is left of a matrix below and to the right of its first entry. */
  function Corner(y: Matrix): real {
    y[1][1] * y[2][2] - y[1][2] * y[2][1]
  }

  /** The larger of the minors that the first row is in, at the first two columns. */
  function LargerMinor(m: Matrix): real {
    Larger(Magnitude(Minor(m, 1)), Magnitude(Minor(m, 2)))
  }

  /** With the row of the first pivot put first. */
  function PivotFirst(m: Matrix): Matrix {
    Exchanged(m, 0, Pivot(m, 0))
  }

  // ------------------------------------------------------------ a little arithmetic

  lemma MagnitudeTimes(a: real, b: real)
    ensures Magnitude(a * b) == Product(Magnitude(a), Magnitude(b))
  {
    if a < 0.0 && b < 0.0 {
      assert a * b == (0.0 - a) * (0.0 - b);
    } else if a < 0.0 {
      assert a * b == 0.0 - (0.0 - a) * b;
    } else if b < 0.0 {
      assert a * b == 0.0 - a * (0.0 - b);
    }
  }

  lemma LargerTimes(a: real, b: real, k: real)
    requires k >= 0.0
    ensures Product(Larger(a, b), k) == Larger(Product(a, k), Product(b, k))
  {
    if a >= b { assert (a - b) * k >= 0.0; } else { assert (b - a) * k >= 0.0; }
  }

  /** Nothing is gained by multiplying both sides by something. */
  lemma AtLeast(a: real, b: real, k: real)
    requires k > 0.0
    ensures a >= b <==> Product(a, k) >= Product(b, k)
  {
    if a >= b { assert (a - b) * k >= 0.0; } else { assert (b - a) * k > 0.0; }
  }

  lemma DetOfReduced(a: real, b: real, c: real, e: real, f: real, h: real, i: real, s: real, t: real)
    ensures Det3(a, b, c, s * a, e, f, t * a, h, i) == a * ((e - s * b) * (i - t * c) - (f - s * c) * (h - t * b))
  {
  }

  lemma Divides(a: real, b: real)
    requires b != 0.0
    ensures a / b * b == a
  {
  }

  /** One entry of a row cleared by another. */
  lemma EntryTimes(a: real, b: real, c: real, d: real, e: real, minor: real)
    requires a != 0.0 && e == d - c / a * b && minor == a * d - c * b
    ensures Product(Magnitude(e), Magnitude(a)) == Magnitude(minor)
  {
    var s := c / a;
    Divides(c, a);
    assert e * a == minor by { assert (d - s * b) * a == a * d - s * a * b; }
    MagnitudeTimes(e, a);
  }

  lemma Regroup(a: real, b: real, c: real, d: real, bc: real, cd: real)
    requires Product(a, b) == d && Product(b, c) == bc && Product(c, d) == cd
    ensures Product(a, bc) == cd
  {
    assert a * (b * c) == c * (a * b);
  }

  // -------------------------------------------------------------- pivot by pivot

  lemma DetExchanged(m: Matrix, p: nat)
    requires p < 3
    ensures Magnitude(Det(Exchanged(m, 0, p))) == Magnitude(Det(m))
  {
    OpenDet(m);
    OpenDet(Exchanged(m, 0, p));
  }

  lemma LargestSecond(y: Matrix)
    ensures Magnitude(y[Pivot(y, 1)][1]) == Larger(Magnitude(y[1][1]), Magnitude(y[2][1]))
  {
  }

  lemma ClearedMinor(x: Matrix, r: nat)
    requires x[0][0] != 0.0 && 0 < r < 3
    ensures Product(Magnitude(Cleared(x, 0)[r][1]), Magnitude(x[0][0])) == Magnitude(Minor(x, r))
  {
    EntryTimes(x[0][0], x[0][1], x[r][0], x[r][1], Cleared(x, 0)[r][1], Minor(x, r));
  }

  /** The second pivot is the larger minor over the first. */
  lemma SecondPivot(x: Matrix)
    requires x[0][0] != 0.0
    ensures var y := Cleared(x, 0);
            Product(Magnitude(y[Pivot(y, 1)][1]), Magnitude(x[0][0])) == LargerMinor(x)
  {
    var y := Cleared(x, 0);
    LargestSecond(y);
    ClearedMinor(x, 1);
    ClearedMinor(x, 2);
    LargerTimes(Magnitude(y[1][1]), Magnitude(y[2][1]), Magnitude(x[0][0]));
  }

  lemma DetCleared(x: Matrix)
    requires x[0][0] != 0.0
    ensures Det(x) == x[0][0] * Corner(Cleared(x, 0))
  {
    OpenDet(x);
    var s, t := x[1][0] / x[0][0], x[2][0] / x[0][0];
    Divides(x[1][0], x[0][0]);
    Divides(x[2][0], x[0][0]);
    DetOfReduced(x[0][0], x[0][1], x[0][2], x[1][1], x[1][2], x[2][1], x[2][2], s, t);
    var y := Cleared(x, 0);
    assert y[1][1] == x[1][1] - s * x[0][1] && y[1][2] == x[1][2] - s * x[0][2];
    assert y[2][1] == x[2][1] - t * x[0][1] && y[2][2] == x[2][2] - t * x[0][2];
  }

  lemma DetMagnitude(x: Matrix)
    requires x[0][0] != 0.0
    ensures Magnitude(Det(x)) == Product(Magnitude(x[0][0]), Magnitude(Corner(Cleared(x, 0))))
  {
    DetCleared(x);
    MagnitudeTimes(x[0][0], Corner(Cleared(x, 0)));
  }

  lemma ClearedLast(w: Matrix)
    requires w[1][1] != 0.0
    ensures Product(Magnitude(Cleared(w, 1)[2][2]), Magnitude(w[1][1])) == Magnitude(Corner(w))
  {
    EntryTimes(w[1][1], w[1][2], w[2][1], w[2][2], Cleared(w, 1)[2][2], Corner(w));
  }

  lemma CornerExchanged(y: Matrix, p: nat)
    requires 1 <= p < 3
    ensures Magnitude(Corner(Exchanged(y, 1, p))) == Magnitude(Corner(y))
  {
  }

  /** And the third is the determinant over the larger minor. */
  lemma ThirdPivot(x: Matrix, y: Matrix, w: Matrix)
    requires x[0][0] != 0.0 && y == Cleared(x, 0) && w == Exchanged(y, 1, Pivot(y, 1)) && w[1][1] != 0.0
    ensures Product(Magnitude(Cleared(w, 1)[2][2]), LargerMinor(x)) == Magnitude(Det(x))
  {
    SecondPivot(x);
    ClearedLast(w);
    CornerExchanged(y, Pivot(y, 1));
    DetMagnitude(x);
    Regroup(Magnitude(Cleared(w, 1)[2][2]), Magnitude(w[1][1]), Magnitude(x[0][0]), Magnitude(Corner(y)),
            LargerMinor(x), Magnitude(Det(x)));
  }

  lemma MinorIsSomething(a: real, b: real)
    requires a >= TINY && b >= Product(TINY, a)
    ensures b > 0.0
  {
  }

  /** The last two columns. */
  lemma SucceedsAfterFirst(x: Matrix)
    requires Magnitude(x[0][0]) >= TINY
    ensures Eliminate(Cleared(x, 0), 1).Diagonal? <==>
              && LargerMinor(x) >= Product(TINY, Magnitude(x[0][0]))
              && Magnitude(Det(x)) >= Product(TINY, LargerMinor(x))
  {
    var y := Cleared(x, 0);
    var q := Pivot(y, 1);
    SecondPivot(x);
    AtLeast(Magnitude(y[q][1]), TINY, Magnitude(x[0][0]));
    if Magnitude(y[q][1]) >= TINY {
      var w := Exchanged(y, 1, q);
      SucceedsAfterSecond(x, y, w);
    }
  }

  lemma SucceedsAfterSecond(x: Matrix, y: Matrix, w: Matrix)
    requires Magnitude(x[0][0]) >= TINY && y == Cleared(x, 0)
    requires w == Exchanged(y, 1, Pivot(y, 1)) && Magnitude(w[1][1]) >= TINY
    requires LargerMinor(x) >= Product(TINY, Magnitude(x[0][0]))
    ensures Eliminate(Cleared(w, 1), 2).Diagonal? <==> Magnitude(Det(x)) >= Product(TINY, LargerMinor(x))
  {
    var z := Cleared(w, 1);
    ThirdPivot(x, y, w);
    MinorIsSomething(Magnitude(x[0][0]), LargerMinor(x));
    AtLeast(Magnitude(z[2][2]), TINY, LargerMinor(x));
    LastColumn(z);
  }

  lemma LastColumn(z: Matrix)
    ensures Eliminate(z, 2).Diagonal? <==> Magnitude(z[2][2]) >= TINY
  {
    assert Pivot(z, 2) == 2;
  }

  /** The elimination succeeds exactly where the largest entry of the first column, the larger minor of its row and
      the determinant are each large enough beside the one before. */
  lemma SucceedsExactly(m: Matrix)
    ensures var x := PivotFirst(m);
            Eliminate(m, 0).Diagonal? <==>
              && Magnitude(x[0][0]) >= TINY
              && LargerMinor(x) >= Product(TINY, Magnitude(x[0][0]))
              && Magnitude(Det(m)) >= Product(TINY, LargerMinor(x))
  {
    var x := PivotFirst(m);
    DetExchanged(m, Pivot(m, 0));
    assert x[0] == m[Pivot(m, 0)];
    if Magnitude(x[0][0]) >= TINY { SucceedsAfterFirst(x); }
  }
}
