/** Runs of frames and ticks, some of which never reach the glass: which rows are wrong, and for how long. */
module Losses {
  import opened Panel

  /** What the glass shows, and what the driver takes it to show. */
  datatype State = State(glass: Glass, shown: Glass)

  datatype Event = Frame(frame: Panel.Frame, arrives: bool) | Tick(arrives: bool)

  function After(s: State, e: Event): State {
    match e
    case Frame(f, arrives) => State(if arrives then Onto(s.glass, s.shown, f) else s.glass, Picture(f))
    case Tick(_) => s
  }

  function Run(s: State, h: seq<Event>): State {
    if h == [] then s else After(Run(s, h[..|h| - 1]), h[|h| - 1])
  }

  /** A whole run on the driver itself. */
  method Drive(driver: Driver, h: seq<Event>)
    requires driver.Valid()
    modifies driver
    ensures driver.Valid()
    ensures State(driver.glass, driver.shown) == Run(old(State(driver.glass, driver.shown)), h)
  {
    ghost var s := State(driver.glass, driver.shown);
    for i := 0 to |h|
      invariant driver.Valid() && State(driver.glass, driver.shown) == Run(s, h[..i])
    {
      assert h[..i + 1][..i] == h[..i];
      if h[i].Frame? {
        driver.Present(h[i].frame, h[i].arrives);
      } else {
        driver.VcomTick(h[i].arrives);
      }
    }
    assert h[..|h|] == h;
  }

  /** The i-th event of a run is a frame that has a row other than the one before had it. */
  predicate Changes(s: State, h: seq<Event>, i: nat, y: nat)
    requires i < |h| && y < HEIGHT
  {
    h[i].Frame? && Row(h[i].frame, y) != Run(s, h[..i]).shown[y]
  }

  lemma FrontChanges(s: State, h: seq<Event>, y: nat)
    requires h != [] && y < HEIGHT
    ensures forall i :: 0 <= i < |h| - 1 ==> (Changes(s, h[..|h| - 1], i, y) <==> Changes(s, h, i, y))
  {
    assert forall i :: 0 <= i < |h| - 1 ==> h[..|h| - 1][..i] == h[..i];
  }

  /** A row of the glass is as it was in the last frame to change it that arrived, whatever was lost since. */
  lemma {:induction false} LastToArrive(s: State, h: seq<Event>, y: nat, j: int)
    requires y < HEIGHT && -1 <= j < |h|
    requires j >= 0 ==> Changes(s, h, j, y) && h[j].arrives
    requires forall i :: j < i < |h| && Changes(s, h, i, y) ==> !h[i].arrives
    ensures Run(s, h).glass[y] == if j < 0 then s.glass[y] else Row(h[j].frame, y)
    decreases |h|
  {
    if h != [] {
      var m := |h| - 1;
      var front := h[..m];
      FrontChanges(s, h, y);
      if j < m {
        LastToArrive(s, front, y, j);
      }
    }
  }

  lemma {:induction false} LastToChange(s: State, h: seq<Event>, y: nat, j: int)
    requires y < HEIGHT && -1 <= j < |h|
    requires j >= 0 ==> Changes(s, h, j, y)
    requires forall i :: j < i < |h| ==> !Changes(s, h, i, y)
    ensures Run(s, h).shown[y] == if j < 0 then s.shown[y] else Row(h[j].frame, y)
    decreases |h|
  {
    if h != [] {
      var m := |h| - 1;
      var front := h[..m];
      FrontChanges(s, h, y);
      if j < m {
        forall i | j < i < m ensures !Changes(s, front, i, y) { assert !Changes(s, h, i, y); }
        LastToChange(s, front, y, j);
        assert !Changes(s, h, m, y);
      }
    }
  }

  lemma SomeLast(s: State, h: seq<Event>, y: nat) returns (j: int)
    requires y < HEIGHT
    ensures -1 <= j < |h| && (j >= 0 ==> Changes(s, h, j, y))
    ensures forall i :: j < i < |h| ==> !Changes(s, h, i, y)
  {
    j := |h| - 1;
    while j >= 0 && !Changes(s, h, j, y)
      invariant -1 <= j < |h|
      invariant forall i :: j < i < |h| ==> !Changes(s, h, i, y)
    {
      j := j - 1;
    }
  }

  /** Every frame that has anything to send arrives. */
  predicate AllArrive(s: State, h: seq<Event>) {
    forall i, y :: 0 <= i < |h| && 0 <= y < HEIGHT && Changes(s, h, i, y) ==> h[i].arrives
  }

  /** However the frames and ticks come, a glass that shows what the driver takes it to goes on doing so while they
      arrive. */
  lemma GoesOnShowing(s: State, h: seq<Event>)
    requires s.glass == s.shown && AllArrive(s, h)
    ensures Run(s, h).glass == Run(s, h).shown
  {
    forall y | 0 <= y < HEIGHT ensures Run(s, h).glass[y] == Run(s, h).shown[y] {
      var j := SomeLast(s, h, y);
      LastToArrive(s, h, y, j);
      LastToChange(s, h, y, j);
    }
  }

  /** A frame that was lost is never sent again. After it, however many arrive, a row is right exactly where some frame
      since has changed it, or it was already as the lost one had it. */
  lemma LostRowExactly(s: State, lost: Panel.Frame, h: seq<Event>, y: nat)
    requires s.glass == s.shown && y < HEIGHT
    requires var t := After(s, Frame(lost, false)); AllArrive(t, h)
    ensures var t := After(s, Frame(lost, false));
            Run(t, h).glass[y] == Run(t, h).shown[y] <==>
              Row(lost, y) == s.shown[y] || exists i :: 0 <= i < |h| && Changes(t, h, i, y)
  {
    var t := After(s, Frame(lost, false));
    var j := SomeLast(t, h, y);
    LastToArrive(t, h, y, j);
    LastToChange(t, h, y, j);
    if j >= 0 { assert Changes(t, h, j, y); }
  }

  /** So the same frame again, any number of times, leaves the glass as it was. */
  lemma {:induction false} SameAgain(s: State, lost: Panel.Frame, n: nat)
    ensures Run(After(s, Frame(lost, false)), seq(n, _ => Frame(lost, true))).glass == s.glass
    ensures Run(After(s, Frame(lost, false)), seq(n, _ => Frame(lost, true))).shown == Picture(lost)
  {
    var t := After(s, Frame(lost, false));
    var h := seq(n, _ => Frame(lost, true));
    if n > 0 {
      assert h[..n - 1] == seq(n - 1, _ => Frame(lost, true));
      SameAgain(s, lost, n - 1);
      assert Onto(s.glass, Picture(lost), lost) == s.glass;
    }
  }
}
