/** Bytes and the numbers below 256, bit by bit. */
module Bytes {
  type byte = bv8

  function FromBits(b7: bool, b6: bool, b5: bool, b4: bool, b3: bool, b2: bool, b1: bool, b0: bool): byte {
    (if b7 then 0x80 else 0) | (if b6 then 0x40 else 0) | (if b5 then 0x20 else 0) | (if b4 then 0x10 else 0) |
    (if b3 then 0x08 else 0) | (if b2 then 0x04 else 0) | (if b1 then 0x02 else 0) | (if b0 then 0x01 else 0)
  }

  lemma BitsKept(b7: bool, b6: bool, b5: bool, b4: bool, b3: bool, b2: bool, b1: bool, b0: bool)
    ensures
      var b := FromBits(b7, b6, b5, b4, b3, b2, b1, b0);
      && (b & 0x80 != 0 <==> b7) && (b & 0x40 != 0 <==> b6) && (b & 0x20 != 0 <==> b5) && (b & 0x10 != 0 <==> b4)
      && (b & 0x08 != 0 <==> b3) && (b & 0x04 != 0 <==> b2) && (b & 0x02 != 0 <==> b1) && (b & 0x01 != 0 <==> b0)
  {
  }

  function Odd(n: nat): bool {
    n % 2 == 1
  }

  function ToByte(n: nat): byte
    requires n < 256
  {
    var n1 := n / 2;
    var n2 := n1 / 2;
    var n3 := n2 / 2;
    var n4 := n3 / 2;
    var n5 := n4 / 2;
    var n6 := n5 / 2;
    FromBits(Odd(n6 / 2), Odd(n6), Odd(n5), Odd(n4), Odd(n3), Odd(n2), Odd(n1), Odd(n))
  }

  function ToNat(b: byte): (n: nat)
    ensures n < 256
  {
    (if b & 0x80 != 0 then 128 else 0) + (if b & 0x40 != 0 then 64 else 0) +
    (if b & 0x20 != 0 then 32 else 0) + (if b & 0x10 != 0 then 16 else 0) +
    (if b & 0x08 != 0 then 8 else 0) + (if b & 0x04 != 0 then 4 else 0) +
    (if b & 0x02 != 0 then 2 else 0) + (if b & 0x01 != 0 then 1 else 0)
  }

  function Weight(b: bool, w: nat): nat {
    if b then w else 0
  }

  lemma FromBitsToNat(b7: bool, b6: bool, b5: bool, b4: bool, b3: bool, b2: bool, b1: bool, b0: bool)
    ensures ToNat(FromBits(b7, b6, b5, b4, b3, b2, b1, b0)) ==
      Weight(b7, 128) + Weight(b6, 64) + Weight(b5, 32) + Weight(b4, 16) +
      Weight(b3, 8) + Weight(b2, 4) + Weight(b1, 2) + Weight(b0, 1)
  {
    BitsKept(b7, b6, b5, b4, b3, b2, b1, b0);
  }

  lemma Halves(n: nat)
    ensures n == 2 * (n / 2) + Weight(Odd(n), 1)
  {
  }

  /** A number below 16 is the sum of its four bits. */
  lemma NibbleSum(n: nat, n1: nat, n2: nat, n3: nat)
    requires n < 16 && n1 == n / 2 && n2 == n1 / 2 && n3 == n2 / 2
    ensures n == Weight(Odd(n3), 8) + Weight(Odd(n2), 4) + Weight(Odd(n1), 2) + Weight(Odd(n), 1)
  {
    Halves(n);
    Halves(n1);
    Halves(n2);
    Halves(n3);
  }

  /** A number is sixteen times its high part and the sum of its low four bits. */
  lemma LowNibble(n: nat, n1: nat, n2: nat, n3: nat, n4: nat)
    requires n1 == n / 2 && n2 == n1 / 2 && n3 == n2 / 2 && n4 == n3 / 2
    ensures n == 16 * n4 + Weight(Odd(n3), 8) + Weight(Odd(n2), 4) + Weight(Odd(n1), 2) + Weight(Odd(n), 1)
  {
    Halves(n);
    Halves(n1);
    Halves(n2);
    Halves(n3);
  }

  lemma ByteSum(n: nat, n1: nat, n2: nat, n3: nat, n4: nat, n5: nat, n6: nat, n7: nat)
    requires n < 256 && n1 == n / 2 && n2 == n1 / 2 && n3 == n2 / 2
    requires n4 == n3 / 2 && n5 == n4 / 2 && n6 == n5 / 2 && n7 == n6 / 2
    ensures n == Weight(Odd(n7), 128) + Weight(Odd(n6), 64) + Weight(Odd(n5), 32) + Weight(Odd(n4), 16)
              + Weight(Odd(n3), 8) + Weight(Odd(n2), 4) + Weight(Odd(n1), 2) + Weight(Odd(n), 1)
  {
    LowNibble(n, n1, n2, n3, n4);
    NibbleSum(n4, n5, n6, n7);
  }

  lemma ByteRoundTrip(n: nat)
    requires n < 256
    ensures ToNat(ToByte(n)) == n
  {
    var n1 := n / 2;
    var n2 := n1 / 2;
    var n3 := n2 / 2;
    var n4 := n3 / 2;
    var n5 := n4 / 2;
    var n6 := n5 / 2;
    ByteSum(n, n1, n2, n3, n4, n5, n6, n6 / 2);
    FromBitsToNat(Odd(n6 / 2), Odd(n6), Odd(n5), Odd(n4), Odd(n3), Odd(n2), Odd(n1), Odd(n));
  }
}
