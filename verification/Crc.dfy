/** The checksum of an upload, a bit at a time, against the table form of section 8 of RFC 1952. A register and a byte
    are their bits here, the low end first. */
module Crc {
  import opened Basics
  import opened Bits

  type Word = w: seq<bool> | |w| == 32 witness seq(32, _ => false)

  /** 0xEDB88320. */
  function Polynomial(): (p: Word) {
    [false, false, false, false, false, true, false, false, true, true, false, false, false, false, false, true,
     false, false, false, true, true, true, false, true, true, false, true, true, false, true, true, true]
  }

  function Xor(a: Word, b: Word): (c: Word) {
    seq(32, i requires 0 <= i < 32 => a[i] != b[i])
  }

  function And(a: Word, b: Word): (c: Word) {
    seq(32, i requires 0 <= i < 32 => a[i] && b[i])
  }

  function Not(a: Word): (c: Word) {
    seq(32, i requires 0 <= i < 32 => !a[i])
  }

  /** A byte in the low end, nought above it. */
  function Wide(b: Byte): (c: Word) {
    b + seq(24, _ => false)
  }

  /** Moved down by so many bits. */
  function Down(a: Word, n: nat): (c: Word)
    requires n <= 32
  {
    a[n..] + seq(n, _ => false)
  }

  /** Nought less the low bit: all ones, or none. */
  function Minus(bit: bool): (c: Word) {
    seq(32, _ => bit)
  }

  /** One bit taken off the low end. */
  function Bit(c: Word): (d: Word) {
    Xor(Down(c, 1), And(Polynomial(), Minus(c[0])))
  }

  function TookBits(c: Word, n: nat): (d: Word) {
    if n == 0 then c else Bit(TookBits(c, n - 1))
  }

  /** One byte taken in, the register not inverted. */
  function Took(c: Word, b: Byte): (d: Word) {
    TookBits(Xor(c, Wide(b)), 8)
  }

  function TookAll(c: Word, bytes: seq<Byte>): (d: Word) {
    if bytes == [] then c else Took(TookAll(c, bytes[..|bytes| - 1]), bytes[|bytes| - 1])
  }

  /** The checksum, from the checksum so far. */
  function Checksum(crc: Word, bytes: seq<Byte>): (d: Word) {
    Not(TookAll(Not(crc), bytes))
  }

  method Crc32(from: Word, buf: seq<Byte>) returns (crc: Word)
    ensures crc == Checksum(from, buf)
  {
    crc := Not(from);
    for i := 0 to |buf|
      invariant crc == TookAll(Not(from), buf[..i])
    {
      assert buf[..i + 1][..i] == buf[..i];
      ghost var was := crc;
      crc := Xor(crc, Wide(buf[i]));
      for bit := 0 to 8
        invariant crc == TookBits(Xor(was, Wide(buf[i])), bit)
      {
        crc := Xor(Down(crc, 1), And(Polynomial(), Minus(crc[0])));
      }
    }
    assert buf[..|buf|] == buf;
    crc := Not(crc);
  }

  // ------------------------------------------------------------------- in chunks

  lemma {:induction false} TookBoth(c: Word, a: seq<Byte>, b: seq<Byte>)
    ensures TookAll(c, a + b) == TookAll(TookAll(c, a), b)
  {
    if b == [] {
      assert a + b == a;
    } else {
      assert (a + b)[..|a + b| - 1] == a + b[..|b| - 1];
      TookBoth(c, a, b[..|b| - 1]);
    }
  }

  lemma NotNot(c: Word)
    ensures Not(Not(c)) == c
  {
  }

  /** A checksum taken in pieces is the checksum of the whole. */
  lemma InPieces(crc: Word, a: seq<Byte>, b: seq<Byte>)
    ensures Checksum(Checksum(crc, a), b) == Checksum(crc, a + b)
  {
    NotNot(TookAll(Not(crc), a));
    TookBoth(Not(crc), a, b);
  }

  // ------------------------------------------------------------------ by the table

  /** The table's entry for a byte: so many times halved, with the polynomial put in where a bit fell off. */
  function Entry(n: Word, k: nat): (d: Word) {
    if k == 0 then n
    else
      var c := Entry(n, k - 1);
      if c[0] then Xor(Polynomial(), Down(c, 1)) else Down(c, 1)
  }

  /** The low eight bits, and the others. */
  function Low(c: Word): (d: Word) {
    c[..8] + seq(24, _ => false)
  }

  function High(c: Word): (d: Word) {
    seq(8, _ => false) + c[8..]
  }

  function ByTable(c: Word, b: Byte): (d: Word) {
    Xor(Entry(Low(Xor(c, Wide(b))), 8), Down(c, 8))
  }

  function AllByTable(c: Word, bytes: seq<Byte>): (d: Word) {
    if bytes == [] then c else ByTable(AllByTable(c, bytes[..|bytes| - 1]), bytes[|bytes| - 1])
  }

  lemma BitIs(c: Word)
    ensures Bit(c) == if c[0] then Xor(Polynomial(), Down(c, 1)) else Down(c, 1)
  {
  }

  lemma {:induction false} EntryIsBits(n: Word, k: nat)
    ensures Entry(n, k) == TookBits(n, k)
  {
    if k > 0 {
      EntryIsBits(n, k - 1);
      BitIs(TookBits(n, k - 1));
    }
  }

  lemma BitSplits(x: Word, y: Word)
    ensures Bit(Xor(x, y)) == Xor(Bit(x), Bit(y))
  {
  }

  lemma {:induction false} BitsSplit(x: Word, y: Word, k: nat)
    ensures TookBits(Xor(x, y), k) == Xor(TookBits(x, k), TookBits(y, k))
  {
    if k > 0 {
      BitsSplit(x, y, k - 1);
      BitSplits(TookBits(x, k - 1), TookBits(y, k - 1));
    }
  }

  /** With the low bits clear, as many only move the rest down. */
  lemma {:induction false} ClearBits(h: Word, k: nat)
    requires k <= 32 && forall i :: 0 <= i < k ==> !h[i]
    ensures TookBits(h, k) == Down(h, k)
  {
    if k > 0 {
      ClearBits(h, k - 1);
      BitIs(Down(h, k - 1));
      assert Down(Down(h, k - 1), 1) == Down(h, k);
    } else {
      assert Down(h, 0) == h;
    }
  }

  lemma TookByTable(c: Word, b: Byte)
    ensures Took(c, b) == ByTable(c, b)
  {
    var x := Xor(c, Wide(b));
    assert x == Xor(Low(x), High(x));
    BitsSplit(Low(x), High(x), 8);
    EntryIsBits(Low(x), 8);
    ClearBits(High(x), 8);
    assert Down(High(x), 8) == Down(c, 8);
  }

  /** The two ways of taking the checksum agree. */
  lemma {:induction false} SameByTable(c: Word, bytes: seq<Byte>)
    ensures TookAll(c, bytes) == AllByTable(c, bytes)
  {
    if bytes != [] {
      SameByTable(c, bytes[..|bytes| - 1]);
      TookByTable(TookAll(c, bytes[..|bytes| - 1]), bytes[|bytes| - 1]);
    }
  }

  /** Eight bits from a place on, as a number. */
  function Octet(b: seq<bool>, k: nat): nat
    requires k + 8 <= |b|
  {
    Value(b[k]) + 2 * Value(b[k + 1]) + 4 * Value(b[k + 2]) + 8 * Value(b[k + 3])
    + 16 * Value(b[k + 4]) + 32 * Value(b[k + 5]) + 64 * Value(b[k + 6]) + 128 * Value(b[k + 7])
  }

  function Value(bit: bool): nat {
    if bit then 1 else 0
  }

  lemma NumberFrom(b: seq<bool>, k: nat)
    requires k < |b|
    ensures Number(b[k..]) == Value(b[k]) + 2 * Number(b[k + 1..])
  {
    OpenNumber(b[k..]);
    assert b[k..][1..] == b[k + 1..];
  }

  lemma Eight(p: seq<bool>, k: nat)
    requires k + 8 <= |p|
    ensures Number(p[k..k + 8]) == Octet(p, k)
  {
    var b := p[k..k + 8];
    NumberFrom(b, 0);
    NumberFrom(b, 1);
    NumberFrom(b, 2);
    NumberFrom(b, 3);
    NumberFrom(b, 4);
    NumberFrom(b, 5);
    NumberFrom(b, 6);
    NumberFrom(b, 7);
    OpenNumber([]);
    assert b[0..] == b && b[8..] == [];
  }

  lemma {:induction false} NumberBoth(a: seq<bool>, b: seq<bool>)
    ensures Number(a + b) == Number(a) + Times(Power(2, |a|), Number(b))
  {
    OpenNumber(a);
    OpenNumber(a + b);
    if a == [] {
      assert a + b == b;
    } else {
      assert (a + b)[1..] == a[1..] + b;
      NumberBoth(a[1..], b);
      TimesTwo(Power(2, |a| - 1), Number(b));
    }
  }

  lemma ByteBefore(a: seq<bool>, b: seq<bool>)
    requires |a| == 8
    ensures Number(a + b) == Number(a) + 256 * Number(b)
  {
    NumberBoth(a, b);
    assert Power(2, 4) == 16 && Power(2, 8) == 256;
  }

  lemma TimesTwo(a: nat, b: nat)
    ensures Times(2 * a, b) == 2 * Times(a, b)
  {
  }

  lemma FirstOctet()
    ensures Octet(Polynomial(), 0) == 0x20
  {
    var p := Polynomial();
    assert !p[0] && !p[1] && !p[2] && !p[3] && !p[4] && p[5] && !p[6] && !p[7];
  }

  lemma SecondOctet()
    ensures Octet(Polynomial(), 8) == 0x83
  {
    var p := Polynomial();
    assert p[8] && p[9] && !p[10] && !p[11] && !p[12] && !p[13] && !p[14] && p[15];
  }

  lemma ThirdOctet()
    ensures Octet(Polynomial(), 16) == 0xB8
  {
    var p := Polynomial();
    assert !p[16] && !p[17] && !p[18] && p[19] && p[20] && p[21] && !p[22] && p[23];
  }

  lemma FourthOctet()
    ensures Octet(Polynomial(), 24) == 0xED
  {
    var p := Polynomial();
    assert p[24] && !p[25] && p[26] && p[27] && !p[28] && p[29] && p[30] && p[31];
  }

  lemma InBytes(a: Byte, b: Byte, c: Byte, d: Byte)
    ensures Number(a + (b + (c + d))) == Number(a) + 0x100 * Number(b) + 0x1_0000 * Number(c) + 0x100_0000 * Number(d)
  {
    ByteBefore(c, d);
    ByteBefore(b, c + d);
    ByteBefore(a, b + (c + d));
  }

  lemma FourBytes(p: Word)
    ensures p == p[0..8] + (p[8..16] + (p[16..24] + p[24..32]))
  {
  }

  lemma OctetsOf(p: Word)
    ensures Number(p) == Octet(p, 0) + 0x100 * Octet(p, 8) + 0x1_0000 * Octet(p, 16) + 0x100_0000 * Octet(p, 24)
  {
    InBytes(p[0..8], p[8..16], p[16..24], p[24..32]);
    FourBytes(p);
    Eight(p, 0);
    Eight(p, 8);
    Eight(p, 16);
    Eight(p, 24);
  }

  /** The bits are those of the polynomial the standard gives. */
  lemma PolynomialIs()
    ensures Number(Polynomial()) == 0xEDB88320
  {
    OctetsOf(Polynomial());
    FirstOctet();
    SecondOctet();
    ThirdOctet();
    FourthOctet();
  }

  // ----------------------------------------------------------------- what it detects

  /** The top bit of the polynomial says whether a bit fell off, so none is lost. */
  lemma BitOneToOne(x: Word, y: Word)
    requires Bit(x) == Bit(y)
    ensures x == y
  {
    assert Bit(x)[31] == x[0] && Bit(y)[31] == y[0];
    forall i | 0 < i < 32 ensures x[i] == y[i] {
      assert Bit(x)[i - 1] == (x[i] != (Polynomial()[i - 1] && x[0]));
      assert Bit(y)[i - 1] == (y[i] != (Polynomial()[i - 1] && y[0]));
    }
  }

  lemma {:induction false} BitsOneToOne(x: Word, y: Word, k: nat)
    requires TookBits(x, k) == TookBits(y, k)
    ensures x == y
  {
    if k > 0 {
      BitOneToOne(TookBits(x, k - 1), TookBits(y, k - 1));
      BitsOneToOne(x, y, k - 1);
    }
  }

  lemma Unmixed(c: Word, d: Word, a: Word, b: Word)
    requires Xor(c, a) == Xor(d, b)
    ensures (a == b ==> c == d) && (c == d ==> a == b)
  {
    forall i | 0 <= i < 32 ensures (c[i] != a[i]) == (d[i] != b[i]) {
      assert Xor(c, a)[i] == Xor(d, b)[i];
    }
  }

  lemma {:induction false} TookAllOneToOne(c: Word, d: Word, bytes: seq<Byte>)
    requires TookAll(c, bytes) == TookAll(d, bytes)
    ensures c == d
  {
    if bytes != [] {
      var front, b := bytes[..|bytes| - 1], bytes[|bytes| - 1];
      BitsOneToOne(Xor(TookAll(c, front), Wide(b)), Xor(TookAll(d, front), Wide(b)), 8);
      Unmixed(TookAll(c, front), TookAll(d, front), Wide(b), Wide(b));
      TookAllOneToOne(c, d, front);
    }
  }

  /** Two files of which only one byte differs have different checksums. */
  lemma OneByteWrong(crc: Word, a: seq<Byte>, x: Byte, y: Byte, b: seq<Byte>)
    requires Checksum(crc, a + [x] + b) == Checksum(crc, a + [y] + b)
    ensures x == y
  {
    var from := Not(crc);
    var c := TookAll(from, a);
    NotNot(TookAll(from, a + [x] + b));
    NotNot(TookAll(from, a + [y] + b));
    TookBoth(from, a + [x], b);
    TookBoth(from, a + [y], b);
    assert (a + [x])[..|a|] == a && (a + [y])[..|a|] == a;
    TookAllOneToOne(Took(c, x), Took(c, y), b);
    BitsOneToOne(Xor(c, Wide(x)), Xor(c, Wide(y)), 8);
    Unmixed(c, c, Wide(x), Wide(y));
    assert x == Wide(x)[..8] && y == Wide(y)[..8];
  }

  // ------------------------------------------------------------------- known answers

  /** A bit taken off the low end moves every other down, and where it was one flips those that the polynomial has. */
  lemma BitByPlace(c: Word, i: nat)
    requires i < 32
    ensures Bit(c)[i] <==> (i < 31 && c[i + 1]) != (c[0] && Polynomial()[i])
  {
  }

  /** The register is inverted first and last, and between the two is what the table makes of it. */
  lemma ChecksumByTable(from: Word, turned: Word, bytes: seq<Byte>, i: nat)
    requires i < 32 && forall k :: 0 <= k < 32 ==> turned[k] == !from[k]
    ensures Checksum(from, bytes)[i] == !AllByTable(turned, bytes)[i]
  {
    assert Not(from) == turned;
    SameByTable(turned, bytes);
  }

  /** The checksum of one byte of ones is 0xFF000000: its low twenty-four bits are nought and its high eight are not. */
  lemma OnesByte(nought: Word, ones: Byte, i: nat)
    requires (forall k :: 0 <= k < 32 ==> !nought[k]) && (forall k :: 0 <= k < 8 ==> ones[k]) && i < 32
    ensures Checksum(nought, [ones])[i] <==> i >= 24
  {
    var was, bytes: seq<Byte> := Not(nought), [ones];
    var c := Xor(was, Wide(ones));
    assert bytes[..0] == [] && TookAll(was, bytes) == Took(was, ones);
    assert forall k :: 0 <= k < 32 ==> (c[k] <==> k >= 8);
    ClearBits(c, 8);
    assert Checksum(nought, bytes) == Not(Down(c, 8));
  }

  /** And of no bytes at all it is what it was. */
  lemma NoBytes(crc: Word)
    ensures Checksum(crc, []) == crc
  {
    NotNot(crc);
  }
}
