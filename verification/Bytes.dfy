/** Bytes as bit patterns, as numbers and as parts of little-endian words. */
module Bytes {
  type byte = bv8

  function Zeros(n: nat): (z: seq<byte>)
    ensures |z| == n && forall i :: 0 <= i < n ==> z[i] == 0
  {
    seq(n, _ => 0)
  }

  // ---- bits ----------------------------------------------------------------------------------------

  function Mask(k: nat): byte
    requires k < 8
  {
    if k == 0 then 1 else if k == 1 then 2 else if k == 2 then 4 else if k == 3 then 8
    else if k == 4 then 16 else if k == 5 then 32 else if k == 6 then 64 else 128
  }

  predicate Bit(b: byte, k: nat)
    requires k < 8
  {
    b & Mask(k) != 0
  }

  lemma OrBit(b: byte, k: nat, j: nat)
    requires k < 8 && j < 8
    ensures Bit(b | Mask(k), j) <==> j == k || Bit(b, j)
  {
  }

  // ---- numbers -------------------------------------------------------------------------------------

  /** The byte with these bits, lowest first. */
  function OfBits(c0: bool, c1: bool, c2: bool, c3: bool, c4: bool, c5: bool, c6: bool, c7: bool): byte {
    (if c0 then 1 else 0) | (if c1 then 2 else 0) | (if c2 then 4 else 0) | (if c3 then 8 else 0)
    | (if c4 then 16 else 0) | (if c5 then 32 else 0) | (if c6 then 64 else 0) | (if c7 then 128 else 0)
  }

  predicate Odd(x: nat) {
    x % 2 == 1
  }

  /** The number whose lowest bit is c and whose other bits are those of r. */
  function Twice(r: nat, c: bool): nat {
    2 * r + if c then 1 else 0
  }

  /** The byte that holds the number x. */
  function Byte(x: nat): byte
    requires x < 256
  {
    var x1 := x / 2; var x2 := x1 / 2; var x3 := x2 / 2; var x4 := x3 / 2; var x5 := x4 / 2; var x6 := x5 / 2;
    OfBits(Odd(x), Odd(x1), Odd(x2), Odd(x3), Odd(x4), Odd(x5), Odd(x6), Odd(x6 / 2))
  }

  function OfOnes(c0: bool, c1: bool, c2: bool, c3: bool, c4: bool, c5: bool, c6: bool, c7: bool): (x: nat)
    ensures x < 256
  {
    Twice(Twice(Twice(Twice(Twice(Twice(Twice(Twice(0, c7), c6), c5), c4), c3), c2), c1), c0)
  }

  /** The number a byte holds. */
  function Val(b: byte): (x: nat)
    ensures x < 256
  {
    OfOnes(Bit(b, 0), Bit(b, 1), Bit(b, 2), Bit(b, 3), Bit(b, 4), Bit(b, 5), Bit(b, 6), Bit(b, 7))
  }

  lemma BitsOf(c0: bool, c1: bool, c2: bool, c3: bool, c4: bool, c5: bool, c6: bool, c7: bool)
    ensures var b := OfBits(c0, c1, c2, c3, c4, c5, c6, c7);
      && (Bit(b, 0) <==> c0) && (Bit(b, 1) <==> c1) && (Bit(b, 2) <==> c2) && (Bit(b, 3) <==> c3)
      && (Bit(b, 4) <==> c4) && (Bit(b, 5) <==> c5) && (Bit(b, 6) <==> c6) && (Bit(b, 7) <==> c7)
  {
  }

  lemma BitsBack(b: byte)
    ensures b == OfBits(Bit(b, 0), Bit(b, 1), Bit(b, 2), Bit(b, 3), Bit(b, 4), Bit(b, 5), Bit(b, 6), Bit(b, 7))
  {
  }

  lemma Halve(x: nat)
    ensures Twice(x / 2, Odd(x)) == x
  {
  }

  lemma Unhalve(r: nat, c: bool)
    ensures Twice(r, c) / 2 == r && (Odd(Twice(r, c)) <==> c)
  {
  }

  lemma ValByte(x: nat)
    requires x < 256
    ensures Val(Byte(x)) == x
  {
    hide OfBits, Odd, Twice, Bit;
    var x1 := x / 2; var x2 := x1 / 2; var x3 := x2 / 2; var x4 := x3 / 2; var x5 := x4 / 2; var x6 := x5 / 2;
    BitsOf(Odd(x), Odd(x1), Odd(x2), Odd(x3), Odd(x4), Odd(x5), Odd(x6), Odd(x6 / 2));
    Halve(x); Halve(x1); Halve(x2); Halve(x3); Halve(x4); Halve(x5); Halve(x6); Halve(x6 / 2);
  }

  lemma DigitsBack(c0: bool, c1: bool, c2: bool, c3: bool, c4: bool, c5: bool, c6: bool, c7: bool)
    ensures Byte(OfOnes(c0, c1, c2, c3, c4, c5, c6, c7)) == OfBits(c0, c1, c2, c3, c4, c5, c6, c7)
  {
    hide OfBits, Odd, Twice;
    var x7 := Twice(0, c7); var x6 := Twice(x7, c6); var x5 := Twice(x6, c5); var x4 := Twice(x5, c4);
    var x3 := Twice(x4, c3); var x2 := Twice(x3, c2); var x1 := Twice(x2, c1);
    Unhalve(0, c7); Unhalve(x7, c6); Unhalve(x6, c5); Unhalve(x5, c4);
    Unhalve(x4, c3); Unhalve(x3, c2); Unhalve(x2, c1); Unhalve(x1, c0);
  }

  lemma ByteVal(b: byte)
    ensures Byte(Val(b)) == b
  {
    hide OfBits, OfOnes, Byte, Bit;
    DigitsBack(Bit(b, 0), Bit(b, 1), Bit(b, 2), Bit(b, 3), Bit(b, 4), Bit(b, 5), Bit(b, 6), Bit(b, 7));
    BitsBack(b);
  }

  // ---- words ---------------------------------------------------------------------------------------

  /** The eight bytes of a word as memory holds them, lowest first. */
  function WordBytes(w: bv64): (s: seq<byte>)
    ensures |s| == 8
  {
    [(w & 0xFF) as bv8, ((w >> 8) & 0xFF) as bv8, ((w >> 16) & 0xFF) as bv8, ((w >> 24) & 0xFF) as bv8,
     ((w >> 32) & 0xFF) as bv8, ((w >> 40) & 0xFF) as bv8, ((w >> 48) & 0xFF) as bv8, ((w >> 56) & 0xFF) as bv8]
  }

  /** An 8-byte load (little-endian). */
  function Load(s: seq<byte>): bv64
    requires |s| == 8
  {
    LoadBits(s[0], s[1], s[2], s[3], s[4], s[5], s[6], s[7])
  }

  function LoadBits(b0: byte, b1: byte, b2: byte, b3: byte, b4: byte, b5: byte, b6: byte, b7: byte): bv64 {
    (b0 as bv64) | ((b1 as bv64) << 8) | ((b2 as bv64) << 16) | ((b3 as bv64) << 24)
    | ((b4 as bv64) << 32) | ((b5 as bv64) << 40) | ((b6 as bv64) << 48) | ((b7 as bv64) << 56)
  }

  lemma LoadBytes(s: seq<byte>)
    requires |s| == 8
    ensures WordBytes(Load(s)) == s
  {
    LoadBitsBytes(s[0], s[1], s[2], s[3], s[4], s[5], s[6], s[7]);
  }

  lemma LoadBitsBytes(b0: byte, b1: byte, b2: byte, b3: byte, b4: byte, b5: byte, b6: byte, b7: byte)
    ensures WordBytes(LoadBits(b0, b1, b2, b3, b4, b5, b6, b7)) == [b0, b1, b2, b3, b4, b5, b6, b7]
  {
  }
}
