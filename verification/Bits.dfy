/** Bits, the low end first, and the numbers they are. */
module Bits {
  import opened Basics

  type Byte = b: seq<bool> | |b| == 8 witness seq(8, _ => false)

  /** The number some bits are. */
  function Number(bits: seq<bool>): nat {
    NumberCovered(bits, 3)
  }

  /** Under covers, so that a proof with no need of the bits does not add them up. */
  function NumberCovered(bits: seq<bool>, covers: nat): nat
    decreases |bits|, covers
  {
    if covers > 0 then NumberCovered(bits, covers - 1)
    else if bits == [] then 0
    else (if bits[0] then 1 else 0) + 2 * NumberCovered(bits[1..], 3)
  }

  lemma OpenNumber(bits: seq<bool>)
    ensures Number(bits) == if bits == [] then 0 else (if bits[0] then 1 else 0) + 2 * Number(bits[1..])
  {
    assert NumberCovered(bits, 1) == NumberCovered(bits, 0);
    assert NumberCovered(bits, 2) == NumberCovered(bits, 1);
  }

  function BitsOf(n: nat, k: nat): (b: seq<bool>)
    ensures |b| == k
  {
    if k == 0 then [] else [n % 2 == 1] + BitsOf(n / 2, k - 1)
  }

  lemma {:induction false} NumberOfBits(n: nat, k: nat)
    requires n < Power(2, k)
    ensures Number(BitsOf(n, k)) == n
  {
    OpenNumber(BitsOf(n, k));
    if k > 0 {
      NumberOfBits(n / 2, k - 1);
      assert BitsOf(n, k)[1..] == BitsOf(n / 2, k - 1);
    }
  }
}
