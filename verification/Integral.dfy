/** The area under a curve, by halving pieces, the one with the largest error first. */
module Integral {
  import opened Basics

  const PIECES: nat := 128

  /** One stretch of the interval, its area, and how far out that may be. */
  datatype Piece = Piece(lo: real, hi: real, value: real, error: real)

  datatype Estimate = Failed | Estimate(value: real, error: real)

  /** What the fifteen points of a stretch give. */
  type Rule = (real, real) -> Estimate

  function Total(ps: seq<Piece>): real {
    if ps == [] then 0.0 else Total(ps[..|ps| - 1]) + ps[|ps| - 1].value
  }

  function Error(ps: seq<Piece>): real {
    if ps == [] then 0.0 else Error(ps[..|ps| - 1]) + ps[|ps| - 1].error
  }

  /** The piece with the largest error, the first of equals. */
  function Worst(ps: seq<Piece>): (w: nat)
    requires ps != []
    ensures w < |ps| && forall i :: 0 <= i < |ps| ==> ps[i].error <= ps[w].error
  {
    if |ps| == 1 then 0
    else
      var w := Worst(ps[..|ps| - 1]);
      assert ps[..|ps| - 1][w] == ps[w];
      assert forall i :: 0 <= i < |ps| - 1 ==> ps[..|ps| - 1][i] == ps[i];
      if ps[|ps| - 1].error > ps[w].error then |ps| - 1 else w
  }

  predicate SmallEnough(total: real, error: real) {
    error <= Larger(1e-12, 1e-10 * Magnitude(total))
  }

  datatype Outcome = Gone | Pieces(ps: seq<Piece>)

  function Middle(p: Piece): real {
    0.5 * (p.lo + p.hi)
  }

  /** One piece halved: its left half in its place, its right half at the end. */
  function Halved(rule: Rule, ps: seq<Piece>, w: nat): Outcome
    requires w < |ps|
  {
    var p := ps[w];
    match rule(p.lo, Middle(p))
    case Failed => Gone
    case Estimate(v1, e1) =>
      match rule(Middle(p), p.hi)
      case Failed => Gone
      case Estimate(v2, e2) =>
        Pieces(ps[w := Piece(p.lo, Middle(p), v1, e1)] + [Piece(Middle(p), p.hi, v2, e2)])
  }

  function Refined(rule: Rule, ps: seq<Piece>): Outcome
    requires 1 <= |ps| <= PIECES
    decreases PIECES - |ps|
  {
    if SmallEnough(Total(ps), Error(ps)) || |ps| == PIECES then Pieces(ps)
    else
      match Halved(rule, ps, Worst(ps))
      case Gone => Gone
      case Pieces(more) => Refined(rule, more)
  }

  // -------------------------------------------------------------------- a tiling

  /** The pieces in this order go from a to b with nothing between them and nothing twice. */
  predicate Orders(ps: seq<Piece>, order: seq<nat>, a: real, b: real) {
    && |order| == |ps| && ps != []
    && (forall j :: 0 <= j < |order| ==> order[j] < |ps|)
    && (forall i, j :: 0 <= i < j < |order| ==> order[i] != order[j])
    && (forall i :: 0 <= i < |ps| ==> i in order)
    && ps[order[0]].lo == a && ps[order[|order| - 1]].hi == b
    && forall j :: 0 <= j < |order| - 1 ==> ps[order[j]].hi == ps[order[j + 1]].lo
  }

  ghost predicate Tiles(ps: seq<Piece>, a: real, b: real) {
    exists order :: Orders(ps, order, a, b)
  }

  predicate Honest(rule: Rule, ps: seq<Piece>) {
    forall i :: 0 <= i < |ps| ==> rule(ps[i].lo, ps[i].hi) == Estimate(ps[i].value, ps[i].error)
  }

  lemma HalvedTiles(rule: Rule, ps: seq<Piece>, w: nat, a: real, b: real)
    requires w < |ps| && Honest(rule, ps) && Tiles(ps, a, b) && Halved(rule, ps, w).Pieces?
    ensures var more := Halved(rule, ps, w).ps; |more| == |ps| + 1 && Honest(rule, more) && Tiles(more, a, b)
  {
    var more, n := Halved(rule, ps, w).ps, |ps|;
    var order :| Orders(ps, order, a, b);
    assert w in order;
    var j :| 0 <= j < |order| && order[j] == w;
    var longer := order[..j + 1] + [n] + order[j + 1..];
    PutIn(order, j, n, longer);
    InOrder(ps, order, a, b, more, j, longer);
    assert Orders(more, longer, a, b);
  }

  /** An order of one more, with the newcomer after the j-th. */
  lemma PutIn(order: seq<nat>, j: nat, n: nat, longer: seq<nat>)
    requires j < |order| == n && longer == order[..j + 1] + [n] + order[j + 1..]
    requires forall k :: 0 <= k < |order| ==> order[k] < n
    requires forall i, k :: 0 <= i < k < |order| ==> order[i] != order[k]
    requires forall i :: 0 <= i < n ==> i in order
    ensures |longer| == n + 1 && forall k :: 0 <= k < |longer| ==> longer[k] < n + 1
    ensures forall i, k :: 0 <= i < k < |longer| ==> longer[i] != longer[k]
    ensures forall i :: 0 <= i < n + 1 ==> i in longer
  {
    forall i | 0 <= i < n + 1 ensures i in longer {
      if i == n {
        assert longer[j + 1] == n;
      } else {
        assert i in order;
        var k :| 0 <= k < |order| && order[k] == i;
        assert longer[if k <= j then k else k + 1] == i;
      }
    }
  }

  lemma InOrder(ps: seq<Piece>, order: seq<nat>, a: real, b: real, more: seq<Piece>, j: nat, longer: seq<nat>)
    requires Orders(ps, order, a, b) && j < |order| && |more| == |ps| + 1
    requires longer == order[..j + 1] + [|ps|] + order[j + 1..]
    requires forall i :: 0 <= i < |ps| && i != order[j] ==> more[i] == ps[i]
    requires more[order[j]].lo == ps[order[j]].lo && more[order[j]].hi == more[|ps|].lo
    requires more[|ps|].hi == ps[order[j]].hi
    ensures more[longer[0]].lo == a && more[longer[|longer| - 1]].hi == b
    ensures forall k :: 0 <= k < |longer| - 1 ==> more[longer[k]].hi == more[longer[k + 1]].lo
  {
    forall k | 0 <= k < |longer| - 1 ensures more[longer[k]].hi == more[longer[k + 1]].lo {
      if k < j {
        assert longer[k] == order[k] && longer[k + 1] == order[k + 1];
      } else if k > j + 1 {
        assert longer[k] == order[k - 1] && longer[k + 1] == order[k];
      } else if k == j + 1 {
        assert longer[k] == |ps| && longer[k + 1] == order[k];
      }
    }
    assert longer[0] == order[0];
    if j + 1 < |order| { assert longer[|longer| - 1] == order[|order| - 1]; }
  }

  /** However the rule behaves, the pieces at the end tile the interval, each with what the rule gives for it, and
      there are no more of them than there is room for. */
  lemma {:induction false} RefinedTiles(rule: Rule, ps: seq<Piece>, a: real, b: real)
    requires 1 <= |ps| <= PIECES && Honest(rule, ps) && Tiles(ps, a, b) && Refined(rule, ps).Pieces?
    ensures var all := Refined(rule, ps).ps;
            && Tiles(all, a, b) && Honest(rule, all) && |ps| <= |all| <= PIECES
            && (SmallEnough(Total(all), Error(all)) || |all| == PIECES)
    decreases PIECES - |ps|
  {
    if !(SmallEnough(Total(ps), Error(ps)) || |ps| == PIECES) {
      HalvedTiles(rule, ps, Worst(ps), a, b);
      RefinedTiles(rule, Halved(rule, ps, Worst(ps)).ps, a, b);
    }
  }

  // --------------------------------------------------------------------- exactness

  /** The rule gives the difference of an antiderivative wherever it gives anything. */
  ghost predicate Exact(rule: Rule, primitive: real -> real) {
    forall lo, hi :: rule(lo, hi).Estimate? ==> rule(lo, hi).value == primitive(hi) - primitive(lo)
  }

  lemma {:induction false} TotalUpdated(ps: seq<Piece>, w: nat, p: Piece)
    requires w < |ps|
    ensures Total(ps[w := p]) == Total(ps) - ps[w].value + p.value
  {
    var n := |ps| - 1;
    if w < n {
      assert ps[w := p][..n] == ps[..n][w := p];
      TotalUpdated(ps[..n], w, p);
    } else {
      assert ps[w := p][..n] == ps[..n];
    }
  }

  lemma TotalMore(ps: seq<Piece>, p: Piece)
    ensures Total(ps + [p]) == Total(ps) + p.value
  {
    assert (ps + [p])[..|ps|] == ps;
  }

  lemma {:induction false} RefinedExact(rule: Rule, ps: seq<Piece>, primitive: real -> real)
    requires 1 <= |ps| <= PIECES && Honest(rule, ps) && Exact(rule, primitive) && Refined(rule, ps).Pieces?
    ensures Total(Refined(rule, ps).ps) == Total(ps)
    decreases PIECES - |ps|
  {
    if !(SmallEnough(Total(ps), Error(ps)) || |ps| == PIECES) {
      var w := Worst(ps);
      var p, more := ps[w], Halved(rule, ps, w).ps;
      var left := more[w];
      assert rule(p.lo, p.hi).value == primitive(p.hi) - primitive(p.lo);
      TotalUpdated(ps, w, left);
      TotalMore(ps[w := left], more[|ps|]);
      RefinedExact(rule, more, primitive);
    }
  }

  /** Where the rule is exact, so is the area. */
  lemma AreaExact(rule: Rule, a: real, b: real, primitive: real -> real)
    requires Exact(rule, primitive) && Area(rule, a, b).Pieces?
    ensures Total(Area(rule, a, b).ps) == primitive(b) - primitive(a)
  {
    if a != b {
      var e := rule(a, b);
      var ps := [Piece(a, b, e.value, e.error)];
      RefinedExact(rule, ps, primitive);
      TotalMore([], ps[0]);
      assert [] + ps == ps;
    }
  }

  /** The pieces the area is the sum of; none for an empty interval. */
  function Area(rule: Rule, a: real, b: real): Outcome {
    if a == b then Pieces([])
    else
      match rule(a, b)
      case Failed => Gone
      case Estimate(v, e) => Refined(rule, [Piece(a, b, v, e)])
  }

  lemma AreaTiles(rule: Rule, a: real, b: real)
    requires a != b && Area(rule, a, b).Pieces?
    ensures var all := Area(rule, a, b).ps;
            && Tiles(all, a, b) && Honest(rule, all) && 1 <= |all| <= 128
            && (Error(all) <= Larger(1e-12, 1e-10 * Magnitude(Total(all))) || |all| == 128)
  {
    var e := rule(a, b);
    var ps := [Piece(a, b, e.value, e.error)];
    assert Orders(ps, [0], a, b);
    RefinedTiles(rule, ps, a, b);
  }

  // --------------------------------------------------------------------- in arrays

  /** The four arrays, and how much of them is in use. */
  class Table {
    var lo: array<real>
    var hi: array<real>
    var val: array<real>
    var err: array<real>
    var count: nat

    ghost predicate Valid()
      reads this
    {
      && lo.Length == hi.Length == val.Length == err.Length == PIECES && count <= PIECES
      && lo != hi && lo != val && lo != err && hi != val && hi != err && val != err
    }

    ghost function Held(): (ps: seq<Piece>)
      requires Valid()
      reads this, lo, hi, val, err
      ensures |ps| == count
    {
      seq(count, i requires 0 <= i < count && Valid() reads this, lo, hi, val, err =>
        Piece(lo[i], hi[i], val[i], err[i]))
    }

    constructor ()
      ensures Valid() && count == 0 && fresh(lo) && fresh(hi) && fresh(val) && fresh(err)
    {
      lo, hi := new real[PIECES](_ => 0.0), new real[PIECES](_ => 0.0);
      val, err := new real[PIECES](_ => 0.0), new real[PIECES](_ => 0.0);
      count := 0;
    }

    method Set(i: nat, p: Piece)
      requires Valid() && i < count
      modifies lo, hi, val, err
      ensures Held() == old(Held())[i := p]
    {
      lo[i], hi[i], val[i], err[i] := p.lo, p.hi, p.value, p.error;
    }

    method Append(p: Piece)
      requires Valid() && count < PIECES
      modifies `count, lo, hi, val, err
      ensures Valid() && Held() == old(Held()) + [p]
    {
      lo[count], hi[count], val[count], err[count] := p.lo, p.hi, p.value, p.error;
      count := count + 1;
    }

    method Sums() returns (total: real, error: real, worst: nat)
      requires Valid() && count > 0
      ensures total == Total(Held()) && error == Error(Held()) && worst == Worst(Held())
    {
      total, error, worst := 0.0, 0.0, 0;
      ghost var ps := Held();
      for i := 0 to count
        invariant total == Total(ps[..i]) && error == Error(ps[..i]) && worst < count
        invariant if i > 0 then worst == Worst(ps[..i]) else worst == 0
      {
        assert ps[..i + 1][..i] == ps[..i];
        assert ps[i] == Piece(lo[i], hi[i], val[i], err[i]) && ps[worst].error == err[worst];
        total, error := total + val[i], error + err[i];
        worst := if err[i] > err[worst] then i else worst;
      }
      assert ps[..count] == ps;
    }

    /** Halve a piece in place. False where the rule fails. */
    method Halve(rule: Rule, w: nat) returns (ok: bool)
      requires Valid() && w < count < PIECES
      modifies `count, lo, hi, val, err
      ensures Valid() && lo == old(lo) && hi == old(hi) && val == old(val) && err == old(err)
      ensures ok <==> Halved(rule, old(Held()), w).Pieces?
      ensures ok ==> Held() == Halved(rule, old(Held()), w).ps
    {
      var p := Piece(lo[w], hi[w], val[w], err[w]);
      assert p == Held()[w];
      var first := rule(p.lo, Middle(p));
      if first.Failed? {
        return false;
      }
      var second := rule(Middle(p), p.hi);
      if second.Failed? {
        return false;
      }
      Append(Piece(Middle(p), p.hi, second.value, second.error));
      Set(w, Piece(p.lo, Middle(p), first.value, first.error));
      return true;
    }
  }

  method NumIntegral(rule: Rule, a: real, b: real) returns (area: Estimate)
    ensures area.Failed? <==> Area(rule, a, b).Gone?
    ensures area.Estimate? ==> area.value == Total(Area(rule, a, b).ps)
  {
    if a == b {
      return Estimate(0.0, 0.0);
    }
    var whole := rule(a, b);
    if whole.Failed? {
      return Failed;
    }
    var t := new Table();
    t.Append(Piece(a, b, whole.value, whole.error));
    ghost var ps := [Piece(a, b, whole.value, whole.error)];
    assert t.Held() == ps;
    var done := false;
    ghost var whatItIs := Area(rule, a, b);
    area := Failed;
    while !done
      invariant fresh(t) && fresh(t.lo) && fresh(t.hi) && fresh(t.val) && fresh(t.err)
      invariant t.Valid() && (!done ==> 1 <= t.count)
      invariant t.Held() == ps
      invariant if done then Says(area, whatItIs) else Refined(rule, ps) == whatItIs
      decreases !done, PIECES - t.count
    {
      done, area, ps := Round(t, rule, ps, whatItIs);
    }
  }

  predicate Says(area: Estimate, o: Outcome) {
    if area.Failed? then o.Gone? else o.Pieces? && area.value == Total(o.ps)
  }

  /** Either it is good enough, or the worst piece is halved. */
  method Round(t: Table, rule: Rule, ghost ps: seq<Piece>, ghost o: Outcome)
    returns (done: bool, area: Estimate, ghost more: seq<Piece>)
    requires t.Valid() && 1 <= t.count && t.Held() == ps && Refined(rule, ps) == o
    modifies t`count, t.lo, t.hi, t.val, t.err
    ensures t.Valid() && t.lo == old(t.lo) && t.hi == old(t.hi) && t.val == old(t.val) && t.err == old(t.err)
    ensures done ==> Says(area, o)
    ensures t.Held() == more
    ensures !done ==> |more| > |ps| && Refined(rule, more) == o
  {
    var total, error, worst := t.Sums();
    if SmallEnough(total, error) || t.count == PIECES {
      return true, Estimate(total, error), ps;
    }
    var ok := t.Halve(rule, worst);
    more := t.Held();
    assert o == if ok then Refined(rule, more) else Gone;
    return !ok, Failed, more;
  }
}
