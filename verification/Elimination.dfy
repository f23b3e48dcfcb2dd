/** Three equations in three unknowns, reduced in place by Gauss and Jordan's method with row exchanges. */
module Elimination {
  import opened Basics

  /** Below this a pivot is taken for nought. */
  const TINY: real := 1e-300

  /** Three rows, the right-hand side last in each. */
  type Matrix = m: seq<seq<real>> | |m| == 3 && |m[0]| == |m[1]| == |m[2]| == 4
    witness [[0.0, 0.0, 0.0, 0.0], [0.0, 0.0, 0.0, 0.0], [0.0, 0.0, 0.0, 0.0]]

  // --------------------------------------------------------------- what is done

  /** The row, from the given one on, with the largest entry in the column; the first of equals. */
  function PivotFrom(m: Matrix, col: nat, best: nat, r: nat): (p: nat)
    requires col < 3 && best < 3 && r <= 3
    ensures p < 3 && (p == best || r <= p)
    ensures Magnitude(m[best][col]) <= Magnitude(m[p][col])
    ensures forall i :: r <= i < 3 ==> Magnitude(m[i][col]) <= Magnitude(m[p][col])
    decreases 3 - r
  {
    if r == 3 then best
    else PivotFrom(m, col, if Magnitude(m[r][col]) > Magnitude(m[best][col]) then r else best, r + 1)
  }

  function Pivot(m: Matrix, col: nat): (p: nat)
    requires col < 3
    ensures col <= p < 3
  {
    PivotFrom(m, col, col, col + 1)
  }

  lemma {:induction false} FromIsFirst(m: Matrix, col: nat, best: nat, r: nat, i: nat)
    requires col < 3 && best < r <= 3 && PivotFrom(m, col, best, r) != best
    requires i == best || r <= i < PivotFrom(m, col, best, r)
    ensures Magnitude(m[i][col]) < Magnitude(m[PivotFrom(m, col, best, r)][col])
    decreases 3 - r
  {
    var next := if Magnitude(m[r][col]) > Magnitude(m[best][col]) then r else best;
    if PivotFrom(m, col, best, r) != next {
      FromIsFirst(m, col, next, r + 1, next);
    }
  }

  /** Of entries as large as each other the first is the pivot: those above it are smaller. */
  lemma PivotIsFirst(m: Matrix, col: nat, i: nat)
    requires col < 3 && col <= i < Pivot(m, col)
    ensures Magnitude(m[i][col]) < Magnitude(m[Pivot(m, col)][col])
  {
    FromIsFirst(m, col, col, col + 1, i);
  }

  function Exchanged(m: Matrix, i: nat, j: nat): (w: Matrix)
    requires i < 3 && j < 3
  {
    m[i := m[j]][j := m[i]]
  }

  /** A row less so many times the pivot row, from the column on. */
  function Reduced(row: seq<real>, pivot: seq<real>, col: nat): (w: seq<real>)
    requires |row| == |pivot| == 4 && col < 3 && pivot[col] != 0.0
    ensures |w| == 4
  {
    var f := row[col] / pivot[col];
    seq(4, c requires 0 <= c < 4 => if c < col then row[c] else row[c] - f * pivot[c])
  }

  function Cleared(m: Matrix, col: nat): (w: Matrix)
    requires col < 3 && m[col][col] != 0.0
  {
    var w := seq(3, r requires 0 <= r < 3 => if r == col then m[r] else Reduced(m[r], m[col], col));
    assert |w| == 3 && |w[0]| == 4 && |w[1]| == 4 && |w[2]| == 4;
    w
  }

  datatype Outcome = Singular | Diagonal(m: Matrix)

  function Eliminate(m: Matrix, col: nat): Outcome
    requires col <= 3
    decreases 3 - col
  {
    if col == 3 then Diagonal(m)
    else
      var p := Pivot(m, col);
      if Magnitude(m[p][col]) < TINY then Singular
      else Eliminate(Cleared(Exchanged(m, col, p), col), col + 1)
  }

  // ------------------------------------------------------- the same in an array

  ghost function Rows(a: array2<real>): Matrix
    requires a.Length0 == 3 && a.Length1 == 4
    reads a
  {
    var w := seq(3, r requires 0 <= r < 3 reads a => seq(4, c requires 0 <= c < 4 reads a => a[r, c]));
    assert |w| == 3 && |w[0]| == 4 && |w[1]| == 4 && |w[2]| == 4;
    w
  }

  method FindPivot(a: array2<real>, col: nat) returns (pivot: nat)
    requires a.Length0 == 3 && a.Length1 == 4 && col < 3
    ensures pivot == Pivot(Rows(a), col)
  {
    pivot := col;
    for r := col + 1 to 3
      invariant col <= pivot < 3
      invariant PivotFrom(Rows(a), col, pivot, r) == Pivot(Rows(a), col)
    {
      assert Rows(a)[r][col] == a[r, col] && Rows(a)[pivot][col] == a[pivot, col];
      pivot := if Magnitude(a[r, col]) > Magnitude(a[pivot, col]) then r else pivot;
    }
  }

  method Exchange(a: array2<real>, i: nat, j: nat)
    requires a.Length0 == 3 && a.Length1 == 4 && i < 3 && j < 3
    modifies a
    ensures Rows(a) == Exchanged(old(Rows(a)), i, j)
  {
    ghost var was := Rows(a);
    for c := 0 to 4
      invariant forall r, k :: 0 <= r < 3 && 0 <= k < 4 ==>
                  a[r, k] == if k < c then Exchanged(was, i, j)[r][k] else was[r][k]
    {
      var t := a[i, c];
      a[i, c] := a[j, c];
      a[j, c] := t;
    }
    SameRows(Rows(a), Exchanged(was, i, j));
  }

  lemma SameRows(m: Matrix, w: Matrix)
    requires forall r, k :: 0 <= r < 3 && 0 <= k < 4 ==> m[r][k] == w[r][k]
    ensures m == w
  {
    assert forall r :: 0 <= r < 3 ==> m[r] == w[r];
  }

  method Reduce(a: array2<real>, r: nat, col: nat)
    requires a.Length0 == 3 && a.Length1 == 4 && r < 3 && col < 3 && r != col && a[col, col] != 0.0
    modifies a
    ensures Rows(a) == old(Rows(a))[r := Reduced(old(Rows(a))[r], old(Rows(a))[col], col)]
  {
    ghost var was := Rows(a);
    var f := a[r, col] / a[col, col];
    for c := col to 4
      invariant forall i, k :: 0 <= i < 3 && 0 <= k < 4 ==>
                  a[i, k] == if i == r && col <= k < c then Reduced(was[r], was[col], col)[k] else was[i][k]
    {
      a[r, c] := a[r, c] - f * a[col, c];
    }
    SameRows(Rows(a), was[r := Reduced(was[r], was[col], col)]);
  }

  method Clear(a: array2<real>, col: nat)
    requires a.Length0 == 3 && a.Length1 == 4 && col < 3 && a[col, col] != 0.0
    modifies a
    ensures Rows(a) == Cleared(old(Rows(a)), col)
  {
    ghost var was := Rows(a);
    assert was[col][col] != 0.0;
    for r := 0 to 3
      invariant Rows(a)[col] == was[col]
      invariant forall i :: 0 <= i < 3 ==> Rows(a)[i] == if i < r then Cleared(was, col)[i] else was[i]
    {
      if r == col {
        continue;
      }
      assert a[col, col] == Rows(a)[col][col];
      Reduce(a, r, col);
    }
    assert Rows(a) == Cleared(was, col);
  }

  /** Reduce to a diagonal, or give up where a column has no pivot. */
  method Solve(a: array2<real>) returns (ok: bool)
    requires a.Length0 == 3 && a.Length1 == 4
    modifies a
    ensures ok <==> Eliminate(old(Rows(a)), 0).Diagonal?
    ensures ok ==> Rows(a) == Eliminate(old(Rows(a)), 0).m
  {
    for col := 0 to 3
      invariant Eliminate(Rows(a), col) == Eliminate(old(Rows(a)), 0)
    {
      var pivot := FindPivot(a, col);
      assert Rows(a)[pivot][col] == a[pivot, col];
      if Magnitude(a[pivot, col]) < TINY {
        return false;
      }
      Exchange(a, col, pivot);
      assert Rows(a)[col][col] == a[col, col];
      Clear(a, col);
    }
    return true;
  }

  // ----------------------------------------------------------- what it comes to

  /** How far the three unknowns are from meeting a row. */
  function Off(row: seq<real>, v: (real, real, real)): real
    requires |row| == 4
  {
    row[0] * v.0 + row[1] * v.1 + row[2] * v.2 - row[3]
  }

  predicate Solves(m: Matrix, v: (real, real, real)) {
    Off(m[0], v) == 0.0 && Off(m[1], v) == 0.0 && Off(m[2], v) == 0.0
  }

  /** The first cols columns are cleared but for the diagonal, which is not nought there. */
  predicate ClearTo(m: Matrix, cols: nat)
    requires cols <= 3
  {
    forall c :: 0 <= c < cols ==> m[c][c] != 0.0 && forall r :: 0 <= r < 3 && r != c ==> m[r][c] == 0.0
  }

  lemma OffReduced(row: seq<real>, pivot: seq<real>, col: nat, v: (real, real, real)) returns (f: real)
    requires |row| == |pivot| == 4 && col < 3 && pivot[col] != 0.0
    requires forall c :: 0 <= c < col ==> pivot[c] == 0.0
    ensures Off(Reduced(row, pivot, col), v) == Off(row, v) - f * Off(pivot, v)
  {
    f := row[col] / pivot[col];
  }

  lemma ClearedKeepsSolutions(m: Matrix, col: nat, v: (real, real, real))
    requires col < 3 && ClearTo(m, col) && m[col][col] != 0.0
    ensures Solves(Cleared(m, col), v) <==> Solves(m, v)
  {
    var w := Cleared(m, col);
    forall r | 0 <= r < 3 ensures Off(m[col], v) == 0.0 ==> Off(w[r], v) == Off(m[r], v) {
      if r != col { var f := OffReduced(m[r], m[col], col, v); }
    }
  }

  /** The pivot's column goes to nought, and the columns before it stay. */
  lemma ReducedEntry(row: seq<real>, pivot: seq<real>, col: nat, c: nat)
    requires |row| == |pivot| == 4 && col < 3 && pivot[col] != 0.0 && c <= col
    ensures Reduced(row, pivot, col)[c] == if c < col then row[c] else 0.0
  {
    if c == col { TakesAway(row[col], pivot[col]); }
  }

  lemma TakesAway(a: real, b: real)
    requires b != 0.0
    ensures a - a / b * b == 0.0
  {
  }

  lemma ClearedEntry(m: Matrix, col: nat, r: nat, c: nat)
    requires col < 3 && ClearTo(m, col) && m[col][col] != 0.0 && r < 3 && c <= col
    ensures r != c ==> Cleared(m, col)[r][c] == 0.0
    ensures r == c ==> Cleared(m, col)[r][c] != 0.0
  {
    if r != col { ReducedEntry(m[r], m[col], col, c); }
  }

  lemma ClearedIsClear(m: Matrix, col: nat)
    requires col < 3 && ClearTo(m, col) && m[col][col] != 0.0
    ensures ClearTo(Cleared(m, col), col + 1)
  {
    forall c, r: nat | 0 <= c < col + 1 && r < 3
      ensures if r == c then Cleared(m, col)[r][c] != 0.0 else Cleared(m, col)[r][c] == 0.0
    {
      ClearedEntry(m, col, r, c);
    }
  }

  lemma ExchangedKeeps(m: Matrix, col: nat, p: nat, v: (real, real, real))
    requires col <= p < 3 && ClearTo(m, col)
    ensures ClearTo(Exchanged(m, col, p), col)
    ensures Solves(Exchanged(m, col, p), v) <==> Solves(m, v)
  {
  }

  /** The elimination changes neither what solves the equations nor what is already cleared. */
  lemma {:induction false} EliminateKeepsSolutions(m: Matrix, col: nat, v: (real, real, real))
    requires col <= 3 && ClearTo(m, col) && Eliminate(m, col).Diagonal?
    ensures ClearTo(Eliminate(m, col).m, 3)
    ensures Solves(Eliminate(m, col).m, v) <==> Solves(m, v)
    decreases 3 - col
  {
    if col < 3 {
      var p := Pivot(m, col);
      var x := Exchanged(m, col, p);
      ExchangedKeeps(m, col, p, v);
      ClearedIsClear(x, col);
      ClearedKeepsSolutions(x, col, v);
      EliminateKeepsSolutions(Cleared(x, col), col + 1, v);
    }
  }

  /** What the last three divisions give. */
  function Quotients(m: Matrix): (real, real, real)
    requires m[0][0] != 0.0 && m[1][1] != 0.0 && m[2][2] != 0.0
  {
    (m[0][3] / m[0][0], m[1][3] / m[1][1], m[2][3] / m[2][2])
  }

  lemma Divided(a: real, b: real, x: real)
    requires a != 0.0
    ensures a * x - b == 0.0 <==> x == b / a
  {
  }

  lemma DiagonalSolution(m: Matrix, v: (real, real, real))
    requires ClearTo(m, 3)
    ensures m[0][0] != 0.0 && m[1][1] != 0.0 && m[2][2] != 0.0
    ensures Solves(m, v) <==> v == Quotients(m)
  {
    assert m[0][0] != 0.0 && m[1][1] != 0.0 && m[2][2] != 0.0;
    assert Off(m[0], v) == m[0][0] * v.0 - m[0][3];
    assert Off(m[1], v) == m[1][1] * v.1 - m[1][3];
    assert Off(m[2], v) == m[2][2] * v.2 - m[2][3];
    Divided(m[0][0], m[0][3], v.0);
    Divided(m[1][1], m[1][3], v.1);
    Divided(m[2][2], m[2][3], v.2);
  }

  /** Where the elimination succeeds it finds the one solution there is. */
  lemma EliminationSolves(m: Matrix, v: (real, real, real))
    requires Eliminate(m, 0).Diagonal?
    ensures var d := Eliminate(m, 0).m;
            d[0][0] != 0.0 && d[1][1] != 0.0 && d[2][2] != 0.0 && (Solves(m, v) <==> v == Quotients(d))
  {
    EliminateKeepsSolutions(m, 0, v);
    DiagonalSolution(Eliminate(m, 0).m, v);
  }

  // ---------------------------------------------------------- where it gives up

  /** The pivot it gives up on. */
  function GaveUpOn(m: Matrix, col: nat): real
    requires col <= 3 && Eliminate(m, col).Singular?
    decreases 3 - col
  {
    var p := Pivot(m, col);
    if Magnitude(m[p][col]) < TINY then Magnitude(m[p][col])
    else GaveUpOn(Cleared(Exchanged(m, col, p), col), col + 1)
  }

  /** A row without its right-hand side. */
  function Linear(row: seq<real>, v: (real, real, real)): real
    requires |row| == 4
  {
    row[0] * v.0 + row[1] * v.1 + row[2] * v.2
  }

  predicate Annihilates(m: Matrix, v: (real, real, real)) {
    Linear(m[0], v) == 0.0 && Linear(m[1], v) == 0.0 && Linear(m[2], v) == 0.0
  }

  /** Nothing but nought is taken to nought by all three rows. */
  ghost predicate Regular(m: Matrix) {
    forall v :: Annihilates(m, v) ==> v == (0.0, 0.0, 0.0)
  }

  lemma LinearReduced(row: seq<real>, pivot: seq<real>, col: nat, v: (real, real, real)) returns (f: real)
    requires |row| == |pivot| == 4 && col < 3 && pivot[col] != 0.0
    requires forall c :: 0 <= c < col ==> pivot[c] == 0.0
    ensures Linear(Reduced(row, pivot, col), v) == Linear(row, v) - f * Linear(pivot, v)
  {
    f := row[col] / pivot[col];
  }

  lemma ClearedAnnihilates(m: Matrix, col: nat, v: (real, real, real))
    requires col < 3 && ClearTo(m, col) && m[col][col] != 0.0
    requires Annihilates(Cleared(m, col), v)
    ensures Annihilates(m, v)
  {
    var w := Cleared(m, col);
    forall r | 0 <= r < 3 ensures Linear(m[r], v) == 0.0 {
      assert w[col] == m[col];
      if r != col {
        var f := LinearReduced(m[r], m[col], col, v);
        assert Linear(w[r], v) == 0.0 && Linear(m[col], v) == 0.0;
      }
    }
  }

  lemma ExchangedAnnihilates(m: Matrix, col: nat, p: nat, v: (real, real, real))
    requires col < 3 && p < 3 && Annihilates(Exchanged(m, col, p), v)
    ensures Annihilates(m, v)
  {
  }

  lemma StaysRegular(m: Matrix, col: nat, p: nat)
    requires col <= p < 3 && ClearTo(m, col) && Regular(m) && m[p][col] != 0.0
    ensures Regular(Cleared(Exchanged(m, col, p), col))
  {
    var x := Exchanged(m, col, p);
    ExchangedKeeps(m, col, p, (0.0, 0.0, 0.0));
    forall v | Annihilates(Cleared(x, col), v) ensures v == (0.0, 0.0, 0.0) {
      ClearedAnnihilates(x, col, v);
      ExchangedAnnihilates(m, col, p, v);
    }
  }

  /** What a column of noughts from the diagonal down would leave free. */
  function Loose(m: Matrix, col: nat): (real, real, real)
    requires col < 3 && ClearTo(m, col)
  {
    if col == 0 then (1.0, 0.0, 0.0)
    else if col == 1 then (0.0 - m[0][1] / m[0][0], 1.0, 0.0)
    else (0.0 - m[0][2] / m[0][0], 0.0 - m[1][2] / m[1][1], 1.0)
  }

  lemma Cancels(a: real, b: real)
    requires a != 0.0
    ensures a * (0.0 - b / a) + b == 0.0
  {
  }

  lemma LooseAnnihilates(m: Matrix, col: nat)
    requires col < 3 && ClearTo(m, col) && forall r :: col <= r < 3 ==> m[r][col] == 0.0
    ensures Annihilates(m, Loose(m, col))
  {
    var v := Loose(m, col);
    if col == 0 {
      assert forall r :: 0 <= r < 3 ==> Linear(m[r], v) == m[r][0];
    } else if col == 1 {
      Cancels(m[0][0], m[0][1]);
      assert m[1][0] == 0.0 && m[2][0] == 0.0;
    } else {
      Cancels(m[0][0], m[0][2]);
      Cancels(m[1][1], m[1][2]);
      assert m[1][0] == 0.0 && m[2][0] == 0.0 && m[0][1] == 0.0 && m[2][1] == 0.0;
    }
  }

  /** Where only nought is taken to nought, no column come to is noughts from the diagonal down. */
  lemma SomePivot(m: Matrix, col: nat)
    requires col < 3 && ClearTo(m, col) && Regular(m)
    ensures m[Pivot(m, col)][col] != 0.0
  {
    var p := Pivot(m, col);
    if m[p][col] == 0.0 {
      forall r | col <= r < 3 ensures m[r][col] == 0.0 {
        assert Magnitude(m[r][col]) <= Magnitude(m[p][col]);
      }
      LooseAnnihilates(m, col);
    }
  }

  /** So it gives up on no nought, but on what is taken for one. */
  lemma {:induction false} GivesUpOnTiny(m: Matrix, col: nat)
    requires col <= 3 && ClearTo(m, col) && Regular(m) && Eliminate(m, col).Singular?
    ensures 0.0 < GaveUpOn(m, col) < 1e-300
    decreases 3 - col
  {
    var p := Pivot(m, col);
    SomePivot(m, col);
    if Magnitude(m[p][col]) >= TINY {
      var x := Exchanged(m, col, p);
      ExchangedKeeps(m, col, p, (0.0, 0.0, 0.0));
      ClearedIsClear(x, col);
      StaysRegular(m, col, p);
      GivesUpOnTiny(Cleared(x, col), col + 1);
    }
  }
}
