/** The memory display: lines sent by difference, as bytes, to a glass that keeps what it was last sent. */
module Panel {
  import opened Basics
  import opened Bits

  const WIDTH: nat := 400
  const HEIGHT: nat := 240
  const LINE_BYTES: nat := 50
  const LINE_FRAME: nat := LINE_BYTES + 2
  const TX_MAX: nat := 1 + HEIGHT * LINE_FRAME + 1
  const INK_BELOW: nat := 128

  type Line = l: seq<Byte> | |l| == LINE_BYTES witness seq(LINE_BYTES, _ => seq(8, _ => false))

  type Glass = g: seq<Line> | |g| == HEIGHT witness seq(HEIGHT, _ => seq(LINE_BYTES, _ => seq(8, _ => false)))

  /** A frame of grey, row after row. */
  type Frame = f: seq<int> | |f| == HEIGHT * WIDTH witness seq(HEIGHT * WIDTH, _ => 0)

  function Address(y: nat): (b: Byte)
    requires y < HEIGHT
    ensures Number(b) == y + 1
  {
    assert Power(2, 4) == 16 && Power(2, 8) == 256;
    NumberOfBits(y + 1, 8);
    BitsOf(y + 1, 8)
  }

  function Nought(): (b: Byte)
    ensures Number(b) == 0
  {
    assert Power(2, 8) > 0;
    NumberOfBits(0, 8);
    BitsOf(0, 8)
  }

  /** The bits of a command: write, the alternating bit, clear. */
  function Command(write: bool, vcom: bool, clear: bool): (b: Byte) {
    [write, vcom, clear, false, false, false, false, false]
  }

  // -------------------------------------------------------------------- the glass

  function White(): (g: Glass) {
    seq(HEIGHT, _ => seq(LINE_BYTES, _ => seq(8, _ => true)))
  }

  /** Lines, each with its address before it and a trailer after, until an address of nought. */
  function Received(g: Glass, bytes: seq<Byte>): (h: Glass)
    decreases |bytes|
  {
    if |bytes| < LINE_FRAME || !(1 <= Number(bytes[0]) <= HEIGHT) then g
    else Received(g[Number(bytes[0]) - 1 := bytes[1..1 + LINE_BYTES]], bytes[LINE_FRAME..])
  }

  /** What a transmission does to the glass. */
  function Shows(g: Glass, bytes: seq<Byte>): (h: Glass) {
    if bytes == [] then g
    else if bytes[0][2] then White()
    else if bytes[0][0] then Received(g, bytes[1..])
    else g
  }

  // --------------------------------------------------------------------- the frame

  /** A row as the bits of its bytes: paper where the grey is not below the threshold. Covered over, as only comparing
      rows matters once there are rows. */
  function Row(f: Frame, y: nat): (l: Line)
    requires y < HEIGHT
  {
    RowCovered(f, y, 3)
  }

  /** The same under covers, which a proof takes off where it has to look. */
  function RowCovered(f: Frame, y: nat, covers: nat): (l: Line)
    requires y < HEIGHT
    decreases covers, y
  {
    if covers > 0 then RowCovered(f, y, covers - 1)
    else
      RowBound(y);
      seq(LINE_BYTES, k requires 0 <= k < LINE_BYTES =>
        seq(8, b requires 0 <= b < 8 => f[y * WIDTH + 8 * k + b] >= INK_BELOW))
  }

  /** What a bit of a row says: the pixel there is not ink. */
  lemma RowBit(f: Frame, y: nat, k: nat, b: nat)
    requires y < HEIGHT && k < LINE_BYTES && b < 8
    ensures y * WIDTH + 8 * k + b < HEIGHT * WIDTH
    ensures Row(f, y)[k][b] <==> f[y * WIDTH + 8 * k + b] >= INK_BELOW
  {
    RowBound(y);
    assert RowCovered(f, y, 1) == RowCovered(f, y, 0);
    assert RowCovered(f, y, 2) == RowCovered(f, y, 1);
  }

  lemma RowBound(y: nat)
    requires y < HEIGHT
    ensures y * WIDTH + WIDTH <= HEIGHT * WIDTH
  {
  }

  /** What the glass should show of a frame. */
  function Picture(f: Frame): (g: Glass) {
    seq(HEIGHT, y requires 0 <= y < HEIGHT => Row(f, y))
  }

  // ------------------------------------------------------------------- the encoding

  datatype Record = Record(y: nat, line: Line)

  predicate OnGlass(r: seq<Record>) {
    forall i :: 0 <= i < |r| ==> r[i].y < HEIGHT
  }

  function Encoded(r: seq<Record>): (b: seq<Byte>)
    requires OnGlass(r)
    ensures |b| == |r| * LINE_FRAME
  {
    if r == [] then []
    else Encoded(r[..|r| - 1]) + [Address(r[|r| - 1].y)] + r[|r| - 1].line + [Nought()]
  }

  function Applied(g: Glass, r: seq<Record>): (h: Glass)
    requires OnGlass(r)
  {
    if r == [] then g else Applied(g, r[..|r| - 1])[r[|r| - 1].y := r[|r| - 1].line]
  }

  /** The glass takes each line as it was meant. */
  lemma {:induction false} ReceivedIsApplied(g: Glass, r: seq<Record>, rest: seq<Byte>)
    requires OnGlass(r)
    ensures Received(g, Encoded(r) + rest) == Received(Applied(g, r), rest)
    decreases |r|
  {
    if r == [] {
      assert [] + rest == rest;
    } else {
      var front, last := r[..|r| - 1], r[|r| - 1];
      var one := [Address(last.y)] + last.line + [Nought()];
      ReceivedIsApplied(g, front, one + rest);
      OneReceived(Applied(g, front), last, rest);
      Together(Encoded(front), [Address(last.y)], last.line, [Nought()], rest);
    }
  }

  lemma Together(a: seq<Byte>, b: seq<Byte>, c: seq<Byte>, d: seq<Byte>, e: seq<Byte>)
    ensures a + b + c + d + e == a + (b + c + d + e)
  {
  }

  lemma OneReceived(g: Glass, r: Record, rest: seq<Byte>)
    requires r.y < HEIGHT
    ensures Received(g, [Address(r.y)] + r.line + [Nought()] + rest) == Received(g[r.y := r.line], rest)
  {
    var bytes := [Address(r.y)] + r.line + [Nought()] + rest;
    assert bytes[0] == Address(r.y) && bytes[1..1 + LINE_BYTES] == r.line && bytes[LINE_FRAME..] == rest;
  }

  /** The rows that differ, of the first so many; covered over. */
  function Differing(shown: Glass, f: Frame, n: nat): (r: seq<Record>)
    requires n <= HEIGHT
    ensures OnGlass(r) && |r| <= n
    decreases n, 4
  {
    DifferingCovered(shown, f, n, 3)
  }

  /** The same under covers, which a proof takes off where it has to look. */
  function DifferingCovered(shown: Glass, f: Frame, n: nat, covers: nat): (r: seq<Record>)
    requires n <= HEIGHT
    ensures OnGlass(r) && |r| <= n
    decreases n, covers, shown
  {
    if covers > 0 then DifferingCovered(shown, f, n, covers - 1)
    else if n == 0 then []
    else Differing(shown, f, n - 1) + if Row(f, n - 1) == shown[n - 1] then [] else [Record(n - 1, Row(f, n - 1))]
  }

  lemma OpenDiffering(shown: Glass, f: Frame, n: nat)
    requires n <= HEIGHT
    ensures Differing(shown, f, n)
            == if n == 0 then []
               else Differing(shown, f, n - 1)
                    + if Row(f, n - 1) == shown[n - 1] then [] else [Record(n - 1, Row(f, n - 1))]
  {
    assert DifferingCovered(shown, f, n, 1) == DifferingCovered(shown, f, n, 0);
    assert DifferingCovered(shown, f, n, 2) == DifferingCovered(shown, f, n, 1);
  }

  /** The glass when the rows of a frame that differ from those held have been sent to it. */
  function Onto(g: Glass, shown: Glass, f: Frame): (h: Glass)
    ensures forall y :: 0 <= y < HEIGHT ==> h[y] == if Row(f, y) == shown[y] then g[y] else Row(f, y)
  {
    seq(HEIGHT, y requires 0 <= y < HEIGHT => if Row(f, y) == shown[y] then g[y] else Row(f, y))
  }

  /** So many of its rows sent, and what was there before below. */
  function PartOnto(g: Glass, shown: Glass, f: Frame, n: nat): (h: Glass)
    requires n <= HEIGHT
  {
    Onto(g, shown, f)[..n] + g[n..]
  }

  lemma PartMore(g: Glass, shown: Glass, f: Frame, n: nat)
    requires n < HEIGHT
    ensures PartOnto(g, shown, f, n + 1)
            == if Row(f, n) == shown[n] then PartOnto(g, shown, f, n) else PartOnto(g, shown, f, n)[n := Row(f, n)]
    ensures PartOnto(g, shown, f, n)[n] == g[n]
  {
    var a, b := PartOnto(g, shown, f, n + 1), PartOnto(g, shown, f, n);
    var c := if Row(f, n) == shown[n] then b else b[n := Row(f, n)];
    assert forall i :: 0 <= i < HEIGHT ==> a[i] == c[i];
  }

  /** Where the glass shows what is held, it comes to show the frame. */
  lemma OntoItself(shown: Glass, f: Frame)
    ensures Onto(shown, shown, f) == Picture(f)
  {
  }

  lemma {:induction false} DifferingMakes(g: Glass, shown: Glass, f: Frame, n: nat)
    requires n <= HEIGHT
    ensures Applied(g, Differing(shown, f, n)) == PartOnto(g, shown, f, n)
  {
    OpenDiffering(shown, f, n);
    if n == 0 {
    } else {
      DifferingMakes(g, shown, f, n - 1);
      PartMore(g, shown, f, n - 1);
      var was, r := Differing(shown, f, n - 1), Record(n - 1, Row(f, n - 1));
      if r.line == shown[n - 1] {
        assert was + [] == was;
      } else {
        AppliedMore(g, was, r);
      }
    }
  }

  lemma AppliedMore(g: Glass, r: seq<Record>, one: Record)
    requires OnGlass(r) && one.y < HEIGHT
    ensures Applied(g, r + [one]) == Applied(g, r)[one.y := one.line]
  {
    assert (r + [one])[..|r|] == r;
  }

  lemma EncodedMore(r: seq<Record>, one: Record)
    requires OnGlass(r) && one.y < HEIGHT
    ensures Encoded(r + [one]) == Encoded(r) + [Address(one.y)] + one.line + [Nought()]
  {
    assert (r + [one])[..|r|] == r;
  }

  lemma ShowsLines(g: Glass, r: seq<Record>, vcom: bool)
    requires OnGlass(r)
    ensures Shows(g, [Command(true, vcom, false)] + Encoded(r) + [Nought()]) == Applied(g, r)
  {
    var bytes := [Command(true, vcom, false)] + Encoded(r) + [Nought()];
    assert bytes[0] == Command(true, vcom, false) && bytes[1..] == Encoded(r) + [Nought()];
    ReceivedIsApplied(g, r, [Nought()]);
  }

  /** A transmission of the rows that differ. */
  lemma TransmissionShows(g: Glass, shown: Glass, f: Frame, vcom: bool)
    ensures var r := Differing(shown, f, HEIGHT);
            Shows(g, [Command(true, vcom, false)] + Encoded(r) + [Nought()]) == Onto(g, shown, f)
  {
    ShowsLines(g, Differing(shown, f, HEIGHT), vcom);
    DifferingMakes(g, shown, f, HEIGHT);
    WholeFrame(g, shown, f);
  }

  lemma WholeFrame(g: Glass, shown: Glass, f: Frame)
    ensures PartOnto(g, shown, f, HEIGHT) == Onto(g, shown, f)
  {
  }

  // -------------------------------------------------------------------- the driver

  class Driver {
    var shown: Glass
    var vcom: bool
    /** What the glass shows, after everything that has arrived. */
    ghost var glass: Glass
    /** How long the longest transmission was. */
    ghost var longest: nat

    ghost predicate Valid()
      reads this
    {
      longest <= TX_MAX
    }

    /** A transmission that fails is only logged; nothing of it reaches the glass. */
    method Send(bytes: seq<Byte>, arrives: bool)
      requires Valid() && |bytes| <= TX_MAX
      modifies `glass, `longest
      ensures Valid() && glass == if arrives then Shows(old(glass), bytes) else old(glass)
    {
      if arrives {
        glass := Shows(glass, bytes);
      }
      longest := if |bytes| > longest then |bytes| else longest;
    }

    /** Start from a known glass, whatever it showed. */
    constructor (ghost before: Glass, arrives: bool)
      ensures Valid() && shown == White() && glass == if arrives then shown else before
    {
      vcom := false;
      glass := before;
      longest := 0;
      shown := White();
      new;
      Send([Command(false, false, true), Nought()], arrives);
    }

    method VcomTick(arrives: bool)
      requires Valid()
      modifies `vcom, `glass, `longest
      ensures Valid() && vcom == !old(vcom) && glass == old(glass)
    {
      vcom := !vcom;
      Send([Command(false, vcom, false), Nought()], arrives);
    }

    /** One row of the frame, a bit cleared for each pixel of ink. */
    method Threshold(gray: Frame, y: nat) returns (line: Line)
      requires y < HEIGHT
      ensures line == Row(gray, y)
    {
      line := seq(LINE_BYTES, _ => seq(8, _ => true));
      RowBound(y);
      for x := 0 to WIDTH
        invariant forall k, b :: 0 <= k < LINE_BYTES && 0 <= b < 8 ==>
                    line[k][b] == if 8 * k + b < x then Row(gray, y)[k][b] else true
      {
        RowBit(gray, y, x / 8, x % 8);
        if gray[y * WIDTH + x] < INK_BELOW {
          line := line[x / 8 := line[x / 8][x % 8 := false]];
        }
      }
      SameLine(line, Row(gray, y));
    }

    /** Show a frame: exactly the rows that differ from those held are sent, and nothing where none does. They are held
        whether or not what was sent arrives. */
    method Present(gray: Frame, arrives: bool)
      requires Valid()
      modifies `shown, `glass, `longest
      ensures Valid() && shown == Picture(gray)
      ensures glass == if arrives then Onto(old(glass), old(shown), gray) else old(glass)
    {
      ghost var was := shown;
      OpenDiffering(was, gray, 0);
      var tx: seq<Byte> := [Command(true, vcom, false)];
      for y := 0 to HEIGHT
        invariant shown == PartOnto(was, was, gray, y) && glass == old(glass) && Valid()
        invariant tx == [Command(true, vcom, false)] + Encoded(Differing(was, gray, y))
      {
        var line := Threshold(gray, y);
        tx := AddLine(tx, y, line, was, gray);
      }
      WholeFrame(was, was, gray);
      OntoItself(was, gray);
      SendLines(tx, was, gray, arrives);
    }

    method SendLines(tx: seq<Byte>, ghost was: Glass, ghost gray: Frame, arrives: bool)
      requires Valid() && tx == [Command(true, vcom, false)] + Encoded(Differing(was, gray, HEIGHT))
      modifies `glass, `longest
      ensures Valid() && glass == if arrives then Onto(old(glass), was, gray) else old(glass)
    {
      if |tx| > 1 {
        Fits(was, gray);
        TransmissionShows(glass, was, gray, vcom);
        Send(tx + [Nought()], arrives);
      } else {
        NothingDiffers(glass, was, gray);
      }
    }

    method AddLine(tx: seq<Byte>, y: nat, line: Line, ghost was: Glass, ghost gray: Frame) returns (now: seq<Byte>)
      requires y < HEIGHT && line == Row(gray, y) && shown == PartOnto(was, was, gray, y)
      requires tx == [Command(true, vcom, false)] + Encoded(Differing(was, gray, y))
      modifies `shown
      ensures shown == PartOnto(was, was, gray, y + 1)
      ensures now == [Command(true, vcom, false)] + Encoded(Differing(was, gray, y + 1))
    {
      OneMoreRow(was, gray, y);
      if line == shown[y] {
        return tx;
      }
      shown := shown[y := line];
      now := tx + [Address(y)] + line + [Nought()];
      OneMoreLine([Command(true, vcom, false)], Encoded(Differing(was, gray, y)), y, line);
    }
  }

  lemma OneMoreRow(was: Glass, f: Frame, y: nat)
    requires y < HEIGHT
    ensures PartOnto(was, was, f, y)[y] == was[y]
    ensures PartOnto(was, was, f, y + 1)
            == if Row(f, y) == was[y] then PartOnto(was, was, f, y) else PartOnto(was, was, f, y)[y := Row(f, y)]
    ensures var b := Differing(was, f, y);
            Encoded(Differing(was, f, y + 1))
            == if Row(f, y) == was[y] then Encoded(b) else Encoded(b) + [Address(y)] + Row(f, y) + [Nought()]
  {
    var b := Differing(was, f, y);
    OpenDiffering(was, f, y + 1);
    PartMore(was, was, f, y);
    if Row(f, y) == was[y] {
      assert b + [] == b;
    } else {
      EncodedMore(b, Record(y, Row(f, y)));
    }
  }

  lemma OneMoreLine(a: seq<Byte>, b: seq<Byte>, y: nat, line: Line)
    requires y < HEIGHT
    ensures a + b + [Address(y)] + line + [Nought()] == a + (b + [Address(y)] + line + [Nought()])
  {
  }

  lemma SameLine(a: Line, b: Line)
    requires forall k, i :: 0 <= k < LINE_BYTES && 0 <= i < 8 ==> a[k][i] == b[k][i]
    ensures a == b
  {
    assert forall k :: 0 <= k < LINE_BYTES ==> a[k] == b[k];
  }

  lemma Fits(shown: Glass, f: Frame)
    ensures |Encoded(Differing(shown, f, HEIGHT))| + 2 <= TX_MAX
  {
  }

  lemma NothingDiffers(g: Glass, shown: Glass, f: Frame)
    requires |Encoded(Differing(shown, f, HEIGHT))| == 0
    ensures Onto(g, shown, f) == g
  {
    DifferingMakes(g, shown, f, HEIGHT);
    assert Differing(shown, f, HEIGHT) == [];
    WholeFrame(g, shown, f);
  }
}
