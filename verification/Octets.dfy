/** Octets, addresses, and single bits of an octet: `|= NUM_BIT8[i]`, `&= ~NUM_BIT8[i]`, `& NUM_BIT8[i]`. */
module Octets {
  newtype byte = b: int | 0 <= b < 256

  /** A six-octet MAC address. */
  type Mac = m: seq<byte> | |m| == 6 witness [0, 0, 0, 0, 0, 0]

  const ZERO_MAC: Mac := [0, 0, 0, 0, 0, 0]

  predicate BitOf(b: nat, i: nat) {
    if i == 0 then b % 2 == 1 else BitOf(b / 2, i - 1)
  }

  /** The number with bit i as given and every other bit as in b. */
  function WithBit(b: nat, i: nat, on: bool): (r: nat)
    ensures BitOf(r, i) == on
    ensures forall j: nat | j != i :: BitOf(r, j) == BitOf(b, j)
  {
    if i == 0 then 2 * (b / 2) + (if on then 1 else 0)
    else 2 * WithBit(b / 2, i - 1, on) + b % 2
  }

  /** Setting one of the low n bits of a number below 2^n leaves it below 2^n. */
  lemma {:induction false} WithBitFits(b: nat, i: nat, on: bool, n: nat)
    requires i < n <= 8 && b < Pow2(n)
    ensures WithBit(b, i, on) < Pow2(n)
  {
    if i > 0 {
      WithBitFits(b / 2, i - 1, on, n - 1);
    }
  }

  function Pow2(n: nat): nat {
    if n == 0 then 1 else 2 * Pow2(n - 1)
  }

  predicate Bit(b: byte, i: nat) {
    BitOf(b as nat, i)
  }

  function SetBit(b: byte, i: nat): (r: byte)
    requires i < 8
    ensures Bit(r, i) && forall j: nat | j != i :: Bit(r, j) == Bit(b, j)
  {
    Pow8(); WithBitFits(b as nat, i, true, 8);
    WithBit(b as nat, i, true) as byte
  }

  function ClearBit(b: byte, i: nat): (r: byte)
    requires i < 8
    ensures !Bit(r, i) && forall j: nat | j != i :: Bit(r, j) == Bit(b, j)
  {
    Pow8(); WithBitFits(b as nat, i, false, 8);
    WithBit(b as nat, i, false) as byte
  }

  lemma Pow8()
    ensures Pow2(8) == 256
  {
    assert Pow2(4) == 16;
  }

  /** A non-zero number below 2^n has one of its low n bits set. */
  lemma {:induction false} SomeBit(b: nat, n: nat) returns (i: nat)
    requires 0 < b < Pow2(n)
    ensures i < n && BitOf(b, i)
  {
    if b % 2 == 1 {
      i := 0;
    } else {
      i := SomeBit(b / 2, n - 1);
      i := i + 1;
    }
  }

  lemma {:induction false} NoBit(i: nat)
    ensures !BitOf(0, i)
  {
    if i > 0 {
      NoBit(i - 1);
    }
  }

  /** A byte is zero exactly when none of its bits is set. */
  lemma ZeroByte(b: byte)
    ensures b == 0 <==> forall i: nat | i < 8 :: !Bit(b, i)
  {
    if b == 0 {
      forall i: nat | i < 8 ensures !Bit(b, i) {
        NoBit(i);
      }
    } else {
      Pow8();
      var i := SomeBit(b as nat, 8);
      assert Bit(b, i);
    }
  }
}
