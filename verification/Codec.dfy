/** A value as the bytes of a record in the store, and back. */
module Codec {
  import opened Basics

  type Byte = b: int | 0 <= b < 256

  /** A 64-bit pattern. */
  type Word = w: int | 0 <= w < 0x1_0000_0000_0000_0000

  type Int64 = i: int | -0x8000_0000_0000_0000 <= i < 0x8000_0000_0000_0000

  const HEADER: nat := 16
  const STRING_MAX: nat := 240
  const VERSION: Byte := 1

  /** Doubles are their bit patterns, texts their bytes. */
  datatype Value =
    | Empty
    | Int(i: Int64)
    | Float(f: Word)
    | Text(s: seq<Byte>)
    | Complex(re: Word, im: Word)
    | D128(s: seq<Byte>)

  // ------------------------------------------------------------ eight bytes, low first

  /** Moved down a byte at a time, as a shift by eight does. */
  function Shifted(v: nat, i: nat): nat {
    if i == 0 then v else Shifted(v, i - 1) / 256
  }

  function Little(v: nat, n: nat): (b: seq<Byte>)
    ensures |b| == n
  {
    if n == 0 then [] else [v % 256] + Little(v / 256, n - 1)
  }

  function Number(b: seq<Byte>): nat {
    if b == [] then 0 else b[0] + 256 * Number(b[1..])
  }

  lemma {:induction false} ShiftedOnce(v: nat, i: nat)
    ensures Shifted(v / 256, i) == Shifted(v, i + 1)
  {
    if i > 0 { ShiftedOnce(v, i - 1); }
  }

  lemma {:induction false} LittleAt(v: nat, n: nat, i: nat)
    requires i < n
    ensures Little(v, n)[i] == Shifted(v, i) % 256
  {
    if i > 0 {
      LittleAt(v / 256, n - 1, i - 1);
      ShiftedOnce(v, i - 1);
    }
  }

  /** What is put and got is what it was, so long as it fits. */
  lemma {:induction false} NumberOfLittle(v: nat, n: nat)
    requires v < Power(256, n)
    ensures Number(Little(v, n)) == v
  {
    if n > 0 {
      assert v / 256 < Power(256, n - 1);
      NumberOfLittle(v / 256, n - 1);
      assert Little(v, n)[1..] == Little(v / 256, n - 1);
    }
  }

  /** And the other way about. */
  lemma {:induction false} LittleOfNumber(b: seq<Byte>)
    ensures Little(Number(b), |b|) == b && Number(b) < Power(256, |b|)
  {
    if b != [] {
      LittleOfNumber(b[1..]);
      assert Number(b) / 256 == Number(b[1..]) && Number(b) % 256 == b[0];
    }
  }

  lemma {:induction false} NumberGrows(b: seq<Byte>, x: Byte)
    ensures Number(b + [x]) == Number(b) + Times(x, Power(256, |b|))
  {
    if b == [] {
      assert [x][1..] == [];
    } else {
      assert (b + [x])[1..] == b[1..] + [x];
      NumberGrows(b[1..], x);
    }
  }

  lemma PowerOfEight()
    ensures Power(256, 8) == 0x1_0000_0000_0000_0000
  {
    assert Power(256, 4) == 0x1_0000_0000;
  }

  lemma WordBack(w: Word)
    ensures Number(Little(w, 8)) == w
  {
    PowerOfEight();
    NumberOfLittle(w, 8);
  }

  method PutU64(out: array<Byte>, at: nat, value: Word)
    requires at + 8 <= out.Length
    modifies out
    ensures out[..] == old(out[..at]) + Little(value, 8) + old(out[at + 8..])
  {
    for i := 0 to 8
      invariant out[..at] == old(out[..at]) && out[at + 8..] == old(out[at + 8..])
      invariant forall k :: 0 <= k < i ==> out[at + k] == Shifted(value, k) % 256
    {
      out[at + i] := Shifted(value, i) % 256;
    }
    forall k | 0 <= k < 8 ensures out[at + k] == Little(value, 8)[k] { LittleAt(value, 8, k); }
    assert out[at..at + 8] == Little(value, 8);
    assert out[..] == out[..at] + out[at..at + 8] + out[at + 8..];
  }

  /** The bytes so far are below the next, so putting it in by "or" is adding it. */
  method GetU64(b: seq<Byte>, at: nat) returns (value: Word)
    requires at + 8 <= |b|
    ensures value == Number(b[at..at + 8])
  {
    var sum: nat := 0;
    for i := 0 to 8
      invariant sum == Number(b[at..at + i])
    {
      NumberGrows(b[at..at + i], b[at + i]);
      assert b[at..at + i + 1] == b[at..at + i] + [b[at + i]];
      sum := sum + Times(b[at + i], Power(256, i));
    }
    LittleOfNumber(b[at..at + 8]);
    PowerOfEight();
    value := sum;
  }

  // ------------------------------------------------------------------- the record

  function TypeOf(v: Value): Byte {
    match v
    case Empty => 0
    case Int(_) => 1
    case Float(_) => 2
    case Text(_) => 3
    case Complex(_, _) => 4
    case D128(_) => 5
  }

  /** Two's complement. */
  function Unsigned(i: Int64): Word {
    if i < 0 then i + 0x1_0000_0000_0000_0000 else i
  }

  function Signed(w: Word): Int64 {
    if w < 0x8000_0000_0000_0000 then w else w - 0x1_0000_0000_0000_0000
  }

  /** A C string: what comes before the first nought, and no more than the buffer holds. */
  function Clipped(s: seq<Byte>): (t: seq<Byte>)
    ensures |t| < STRING_MAX && |t| <= |s|
  {
    var t := BeforeNought(s);
    if |t| < STRING_MAX then t else t[..STRING_MAX - 1]
  }

  function BeforeNought(s: seq<Byte>): (t: seq<Byte>)
    ensures |t| <= |s| && t == s[..|t|] && 0 !in t
  {
    if s == [] || s[0] == 0 then [] else [s[0]] + BeforeNought(s[1..])
  }

  function Payload(v: Value): Word {
    match v
    case Empty => 0
    case Int(i) => Unsigned(i)
    case Float(f) => f
    case Complex(re, _) => re
    case Text(s) => |Clipped(s)|
    case D128(s) => |Clipped(s)|
  }

  function Tail(v: Value): (b: seq<Byte>)
    ensures |b| < STRING_MAX
  {
    match v
    case Complex(_, im) => Little(im, 8)
    case Text(s) => Clipped(s)
    case D128(s) => Clipped(s)
    case _ => []
  }

  const MAGIC: seq<Byte> := [81, 68, 83]

  function Head(v: Value): (b: seq<Byte>)
    ensures |b| == 8
  {
    MAGIC + [VERSION, TypeOf(v), 0, 0, 0]
  }

  function Record(v: Value): (b: seq<Byte>)
    ensures HEADER <= |b| < HEADER + STRING_MAX
  {
    Head(v) + Little(Payload(v), 8) + Tail(v)
  }

  /** The value a record holds; none where it is damaged or not one. */
  function Decoded(b: seq<Byte>): Option<Value> {
    if |b| < HEADER || b[..3] != MAGIC || b[3] != VERSION then None
    else
      var payload := WordIn(b, 8);
      if b[4] == 0 then Some(Empty)
      else if b[4] == 1 then Some(Int(Signed(payload)))
      else if b[4] == 2 then Some(Float(payload))
      else if b[4] == 4 then if |b| < HEADER + 8 then None else Some(Complex(payload, WordIn(b, HEADER)))
      else if b[4] == 3 || b[4] == 5 then
        if payload >= STRING_MAX || |b| < HEADER + payload then None
        else
          var s := BeforeNought(b[HEADER..HEADER + payload]);
          Some(if b[4] == 3 then Text(s) else D128(s))
      else None
  }

  function WordIn(b: seq<Byte>, at: nat): (w: Word)
    requires at + 8 <= |b|
  {
    LittleOfNumber(b[at..at + 8]);
    PowerOfEight();
    Number(b[at..at + 8])
  }

  /** What comes back of a value: all of it, but for what a text has beyond a nought or its buffer. */
  function Kept(v: Value): Value {
    match v
    case Text(s) => Text(Clipped(s))
    case D128(s) => D128(Clipped(s))
    case _ => v
  }

  lemma {:induction false} NoNought(s: seq<Byte>)
    requires 0 !in s
    ensures BeforeNought(s) == s
  {
    if s != [] { NoNought(s[1..]); }
  }

  lemma RecordParts(v: Value)
    ensures var b := Record(v);
            && b[..3] == MAGIC && b[3] == VERSION && b[4] == TypeOf(v)
            && b[8..16] == Little(Payload(v), 8) && b[HEADER..] == Tail(v)
  {
    var b := Record(v);
    assert b[..8] == Head(v);
    assert b[..3] == Head(v)[..3];
  }

  lemma PayloadBack(v: Value)
    ensures WordIn(Record(v), 8) == Payload(v)
  {
    RecordParts(v);
    WordBack(Payload(v));
  }

  lemma ImaginaryBack(v: Value)
    requires v.Complex?
    ensures |Record(v)| >= HEADER + 8 && WordIn(Record(v), HEADER) == v.im
  {
    RecordParts(v);
    assert Record(v)[HEADER..HEADER + 8] == Tail(v);
    WordBack(v.im);
  }

  lemma TextBack(v: Value)
    requires v.Text? || v.D128?
    ensures Payload(v) < STRING_MAX && |Record(v)| == HEADER + Payload(v)
    ensures BeforeNought(Record(v)[HEADER..HEADER + Payload(v)]) == Tail(v)
  {
    RecordParts(v);
    assert Record(v)[HEADER..HEADER + Payload(v)] == Tail(v);
    NoNought(Tail(v));
  }

  lemma RoundTrip(v: Value)
    ensures Decoded(Record(v)) == Some(Kept(v))
  {
    RecordParts(v);
    PayloadBack(v);
    if v.Complex? {
      ImaginaryBack(v);
    } else if v.Text? || v.D128? {
      TextBack(v);
    }
  }

  /** Nothing is lost exactly where the text is a C string that fits. */
  lemma KeptWhole(v: Value)
    ensures Kept(v) == v <==> (v.Text? || v.D128? ==> 0 !in v.s && |v.s| < STRING_MAX)
  {
    if v.Text? || v.D128? {
      if 0 !in v.s { NoNought(v.s); }
    }
  }

  /** A record cut short anywhere is no record. */
  lemma CutShort(v: Value, k: nat)
    requires k < |Record(v)|
    ensures Decoded(Record(v)[..k]).None?
  {
    if k >= HEADER { FrontOfRecord(v, k); }
  }

  lemma FrontOfRecord(v: Value, k: nat)
    requires HEADER <= k < |Record(v)|
    ensures var b := Record(v)[..k]; b[4] == TypeOf(v) && WordIn(b, 8) == Payload(v)
  {
    var b := Record(v);
    RecordParts(v);
    WordBack(Payload(v));
    assert b[..k][8..16] == b[8..16];
  }

  // ---------------------------------------------------------------------- in buffers

  method Encode(v: Value, out: array<Byte>) returns (len: nat)
    requires out.Length >= HEADER + STRING_MAX
    modifies out
    ensures len == |Record(v)| && out[..len] == Record(v)
  {
    Header(v, out);
    var s := Tail(v);
    if v.Complex? {
      PutU64(out, HEADER, v.im);
    } else {
      for i := 0 to |s|
        invariant out[..HEADER] == Head(v) + Little(Payload(v), 8) && out[HEADER..HEADER + i] == s[..i]
      {
        out[HEADER + i] := s[i];
        assert out[HEADER..HEADER + i + 1] == out[HEADER..HEADER + i] + [s[i]];
      }
    }
    len := HEADER + |s|;
    assert out[HEADER..len] == s;
    assert out[..len] == out[..HEADER] + out[HEADER..len];
  }

  /** The first sixteen bytes, cleared and then filled in. */
  method Header(v: Value, out: array<Byte>)
    requires out.Length >= HEADER + STRING_MAX
    modifies out
    ensures out[..HEADER] == Head(v) + Little(Payload(v), 8)
  {
    for i := 0 to HEADER
      invariant forall k :: 0 <= k < i ==> out[k] == 0
    {
      out[i] := 0;
    }
    out[0], out[1], out[2] := MAGIC[0], MAGIC[1], MAGIC[2];
    out[3] := VERSION;
    out[4] := TypeOf(v);
    assert out[..8] == Head(v);
    PutU64(out, 8, Payload(v));
    assert out[..HEADER] == out[..8] + Little(Payload(v), 8);
  }

  method Decode(b: seq<Byte>) returns (v: Option<Value>)
    ensures v == Decoded(b)
  {
    if |b| < HEADER || b[..3] != MAGIC || b[3] != VERSION {
      return None;
    }
    var payload := GetU64(b, 8);
    match b[4] {
      case 0 => return Some(Empty);
      case 1 => return Some(Int(Signed(payload)));
      case 2 => return Some(Float(payload));
      case 4 =>
        if |b| < HEADER + 8 {
          return None;
        }
        var im := GetU64(b, HEADER);
        return Some(Complex(payload, im));
      case _ =>
        if b[4] != 3 && b[4] != 5 {
          return None;
        }
        if payload >= STRING_MAX || |b| < HEADER + payload {
          return None;
        }
        var s := BeforeNought(b[HEADER..HEADER + payload]);
        return Some(if b[4] == 3 then Text(s) else D128(s));
    }
  }
}
