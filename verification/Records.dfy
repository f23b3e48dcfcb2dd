/** What a record is, byte by byte, and which bytes are none. */
module Records {
  import opened Basics
  import opened Codec

  function At(b: seq<Byte>, i: nat): nat
    requires i < |b|
  {
    b[i]
  }

  /** Eight bytes, the low one first. */
  ghost predicate Eight(b: seq<Byte>, v: nat) {
    && |b| == 8
    && v == At(b, 0) + 0x100 * At(b, 1) + 0x1_0000 * At(b, 2) + 0x100_0000 * At(b, 3) + 0x1_0000_0000 * At(b, 4)
            + 0x100_0000_0000 * At(b, 5) + 0x1_0000_0000_0000 * At(b, 6) + 0x100_0000_0000_0000 * At(b, 7)
  }

  lemma NumberOfEight(b: seq<Byte>, v: nat)
    requires Eight(b, v)
    ensures Number(b) == v
  {
    assert b == [b[0], b[1], b[2], b[3], b[4], b[5], b[6], b[7]];
    LastFour(b[4], b[5], b[6], b[7]);
    FirstOf(b[0], b[1..]);
    FirstOf(b[1], b[2..]);
    FirstOf(b[2], b[3..]);
    FirstOf(b[3], b[4..]);
    assert b[0..1] + b[1..] == b && [b[0]] == b[0..1];
    assert [b[1]] + b[2..] == b[1..] && [b[2]] + b[3..] == b[2..] && [b[3]] + b[4..] == b[3..];
    assert b[4..] == [b[4], b[5], b[6], b[7]];
  }

  lemma FirstOf(x: Byte, b: seq<Byte>)
    ensures Number([x] + b) == x + 256 * Number(b)
  {
    assert ([x] + b)[1..] == b;
  }

  lemma LastFour(w: Byte, x: Byte, y: Byte, z: Byte)
    ensures Number([w, x, y, z]) == w + 0x100 * x + 0x1_0000 * y + 0x100_0000 * z
  {
    var none: seq<Byte> := [];
    FirstOf(z, none);
    FirstOf(y, [z]);
    FirstOf(x, [y, z]);
    FirstOf(w, [x, y, z]);
    assert [z] + none == [z] && [y] + [z] == [y, z] && [x] + [y, z] == [x, y, z] && [w] + [x, y, z] == [w, x, y, z];
  }

  lemma LittleIs(b: seq<Byte>, v: nat)
    requires Eight(b, v)
    ensures Little(v, 8) == b
  {
    NumberOfEight(b, v);
    LittleOfNumber(b);
  }

  /** QDS, one for the version, the kind of value, three noughts, eight bytes, and what is left over. */
  ghost predicate IsRecord(b: seq<Byte>, kind: Byte, payload: nat, tail: seq<Byte>) {
    && |b| == 16 + |tail| && b[..8] == [81, 68, 83, 1, kind, 0, 0, 0] && Eight(b[8..16], payload) && b[16..] == tail
  }

  lemma Written(v: Value, b: seq<Byte>, kind: Byte, payload: nat, tail: seq<Byte>)
    requires TypeOf(v) == kind && Payload(v) == payload && Tail(v) == tail && IsRecord(b, kind, payload, tail)
    ensures Record(v) == b
  {
    LittleIs(b[8..16], payload);
    HeadIs(v, kind, b[..8]);
    Whole(b, Head(v), Little(payload, 8), tail);
  }

  lemma HeadIs(v: Value, kind: Byte, h: seq<Byte>)
    requires TypeOf(v) == kind && h == [81, 68, 83, 1, kind, 0, 0, 0]
    ensures Head(v) == h
  {
  }

  lemma Whole(b: seq<Byte>, head: seq<Byte>, word: seq<Byte>, tail: seq<Byte>)
    requires |b| >= 16 && b[..8] == head && b[8..16] == word && b[16..] == tail
    ensures b == head + word + tail
  {
  }

  /** A whole number is its two's complement, and a double its bits. */
  lemma NumbersAre(b: seq<Byte>, i: Int64, f: Word)
    ensures IsRecord(b, 1, if i < 0 then 0x1_0000_0000_0000_0000 + i else i, []) ==> Record(Int(i)) == b
    ensures IsRecord(b, 2, f, []) ==> Record(Float(f)) == b
    ensures IsRecord(b, 0, 0, []) ==> Record(Empty) == b
  {
    if IsRecord(b, 1, if i < 0 then 0x1_0000_0000_0000_0000 + i else i, []) {
      Written(Int(i), b, 1, Unsigned(i), []);
    }
    if IsRecord(b, 2, f, []) { Written(Float(f), b, 2, f, []); }
    if IsRecord(b, 0, 0, []) { Written(Empty, b, 0, 0, []); }
  }

  /** A complex number has its imaginary part behind. */
  lemma ComplexIs(b: seq<Byte>, re: Word, im: Word, tail: seq<Byte>)
    requires IsRecord(b, 4, re, tail) && Eight(tail, im)
    ensures Record(Complex(re, im)) == b
  {
    LittleIs(tail, im);
    Written(Complex(re, im), b, 4, re, tail);
  }

  /** A text has its length and then itself, as far as it is a C string, or as the buffer holds. */
  lemma TextIs(b: seq<Byte>, s: seq<Byte>, rest: seq<Byte>)
    requires 0 !in s && |s| < 240 && (rest != [] ==> rest[0] == 0 || |s| == 239)
    ensures IsRecord(b, 3, |s|, s) ==> Record(Text(s + rest)) == b
    ensures IsRecord(b, 5, |s|, s) ==> Record(D128(s + rest)) == b
  {
    ClippedTo(s, rest);
    if IsRecord(b, 3, |s|, s) { Written(Text(s + rest), b, 3, |s|, s); }
    if IsRecord(b, 5, |s|, s) { Written(D128(s + rest), b, 5, |s|, s); }
  }

  lemma {:induction false} BeforeBoth(s: seq<Byte>, rest: seq<Byte>)
    requires 0 !in s
    ensures BeforeNought(s + rest) == s + BeforeNought(rest)
  {
    if s == [] {
      assert s + rest == rest;
    } else {
      assert (s + rest)[1..] == s[1..] + rest;
      BeforeBoth(s[1..], rest);
    }
  }

  lemma ClippedTo(s: seq<Byte>, rest: seq<Byte>)
    requires 0 !in s && |s| < 240 && (rest != [] ==> rest[0] == 0 || |s| == 239)
    ensures Clipped(s + rest) == s
  {
    BeforeBoth(s, rest);
    assert (s + BeforeNought(rest))[..|s|] == s;
  }

  /** What is not long enough for a head, or has not that head, or is of no kind there is, is no record. */
  lemma NoRecord(b: seq<Byte>)
    requires |b| < 16 || b[..4] != [81, 68, 83, 1] || b[4] > 5
    ensures Decoded(b).None?
  {
    if |b| >= 16 && b[..3] == [81, 68, 83] && b[3] == 1 { assert b[..4] == [81, 68, 83, 1]; }
  }

  /** Nor is a text said to be longer than its buffer, or than what there is. */
  lemma TooLong(b: seq<Byte>, n: nat)
    requires |b| >= 16 && (b[4] == 3 || b[4] == 5) && Eight(b[8..16], n) && (n >= 240 || |b| < 16 + n)
    ensures Decoded(b).None?
  {
    NumberOfEight(b[8..16], n);
  }

  /** What comes after a record is not looked at. */
  lemma AfterRecord(v: Value, more: seq<Byte>)
    ensures Decoded(Record(v) + more) == Decoded(Record(v))
  {
    var b, c := Record(v), Record(v) + more;
    RecordParts(v);
    WordBack(Payload(v));
    assert c[..3] == b[..3] && c[8..16] == b[8..16];
    if v.Complex? {
      assert c[16..24] == b[16..24];
    } else if v.Text? || v.D128? {
      TextBack(v);
      assert c[16..16 + Payload(v)] == b[16..16 + Payload(v)];
    }
  }
}
