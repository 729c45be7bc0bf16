/** The streaming MD5 of tools/md5_util.hpp against sections 3.1 to 3.5 of RFC 1321. */
module Md5 {
  import opened Bytes
  import opened Text

  type word = bv32

  const U64 := 0x1_0000_0000_0000_0000

  /** The sine table of section 3.4, a row for each round. */
  const SINES0: seq<word> := [
    0xd76aa478, 0xe8c7b756, 0x242070db, 0xc1bdceee, 0xf57c0faf, 0x4787c62a, 0xa8304613, 0xfd469501,
    0x698098d8, 0x8b44f7af, 0xffff5bb1, 0x895cd7be, 0x6b901122, 0xfd987193, 0xa679438e, 0x49b40821]
  const SINES1: seq<word> := [
    0xf61e2562, 0xc040b340, 0x265e5a51, 0xe9b6c7aa, 0xd62f105d, 0x02441453, 0xd8a1e681, 0xe7d3fbc8,
    0x21e1cde6, 0xc33707d6, 0xf4d50d87, 0x455a14ed, 0xa9e3e905, 0xfcefa3f8, 0x676f02d9, 0x8d2a4c8a]
  const SINES2: seq<word> := [
    0xfffa3942, 0x8771f681, 0x6d9d6122, 0xfde5380c, 0xa4beea44, 0x4bdecfa9, 0xf6bb4b60, 0xbebfbc70,
    0x289b7ec6, 0xeaa127fa, 0xd4ef3085, 0x04881d05, 0xd9d4d039, 0xe6db99e5, 0x1fa27cf8, 0xc4ac5665]
  const SINES3: seq<word> := [
    0xf4292244, 0x432aff97, 0xab9423a7, 0xfc93a039, 0x655b59c3, 0x8f0ccc92, 0xffeff47d, 0x85845dd1,
    0x6fa87e4f, 0xfe2ce6e0, 0xa3014314, 0x4e0811a1, 0xf7537e82, 0xbd3af235, 0x2ad7d2bb, 0xeb86d391]
  const K: seq<word> := SINES0 + SINES1 + SINES2 + SINES3

  // ---- RFC 1321 ------------------------------------------------------------------------------------

  /** Section 3.1: how many zero bytes follow 0x80, the fewest that leave room for the length. */
  ghost predicate ZeroCount(len: nat, z: nat) {
    z < 64 && (len + 1 + z) % 64 == 56
  }

  /** Section 3.2: the length in bits, low-order byte first, low-order 64 bits only. */
  function LittleEndian(n: nat, k: nat): (s: seq<byte>)
    ensures |s| == k
  {
    if k == 0 then [] else [Byte(n % 256)] + LittleEndian(n / 256, k - 1)
  }

  ghost function PaddedMessage(data: seq<byte>, z: nat): seq<byte> {
    data + [0x80] + Zeros(z) + LittleEndian(8 * |data| % U64, 8)
  }

  /** Section 3.4: word i of block n, low-order byte first. */
  function WordAt(p: seq<byte>, at: nat): word
    requires at + 4 <= |p|
  {
    WordSum(p[at], p[at + 1], p[at + 2], p[at + 3])
  }

  function WordSum(b0: byte, b1: byte, b2: byte, b3: byte): word {
    (b0 as bv32) + (b1 as bv32) * 0x100 + (b2 as bv32) * 0x10000 + (b3 as bv32) * 0x1000000
  }

  ghost function BlockAt(p: seq<byte>, off: nat): (x: seq<word>)
    requires off + 64 <= |p|
    ensures |x| == 16
  {
    seq(16, i requires 0 <= i < 16 => WordAt(p, off + 4 * i))
  }

  function F(x: word, y: word, z: word): word { (x & y) | (!x & z) }

  function G(x: word, y: word, z: word): word { (x & z) | (y & !z) }

  function H(x: word, y: word, z: word): word { x ^ y ^ z }

  function I(x: word, y: word, z: word): word { y ^ (x | !z) }

  function Aux(round: nat, x: word, y: word, z: word): word
    requires round < 4
  {
    if round == 0 then F(x, y, z) else if round == 1 then G(x, y, z) else if round == 2 then H(x, y, z) else I(x, y, z)
  }

  /** The word each operation of a round takes, as section 3.4 lists them. */
  const ORDER: seq<seq<nat>> := [
    [0, 1, 2, 3, 4, 5, 6, 7, 8, 9, 10, 11, 12, 13, 14, 15],
    [1, 6, 11, 0, 5, 10, 15, 4, 9, 14, 3, 8, 13, 2, 7, 12],
    [5, 8, 11, 14, 1, 4, 7, 10, 13, 0, 3, 6, 9, 12, 15, 2],
    [0, 7, 14, 5, 12, 3, 10, 1, 8, 15, 6, 13, 4, 11, 2, 9]]

  const SHIFTS: seq<seq<bv6>> := [[7, 12, 17, 22], [5, 9, 14, 20], [4, 11, 16, 23], [6, 10, 15, 21]]

  /** X <<< s. */
  function Rotl(x: word, c: bv6): word
    requires c <= 32
  {
    (x << c) | (x >> (32 - c))
  }

  lemma RotlRotates(x: word)
    ensures Rotl(x, 7) == x.RotateLeft(7) && Rotl(x, 12) == x.RotateLeft(12) && Rotl(x, 17) == x.RotateLeft(17)
    ensures Rotl(x, 22) == x.RotateLeft(22) && Rotl(x, 5) == x.RotateLeft(5) && Rotl(x, 9) == x.RotateLeft(9)
    ensures Rotl(x, 14) == x.RotateLeft(14) && Rotl(x, 20) == x.RotateLeft(20) && Rotl(x, 4) == x.RotateLeft(4)
    ensures Rotl(x, 11) == x.RotateLeft(11) && Rotl(x, 16) == x.RotateLeft(16) && Rotl(x, 23) == x.RotateLeft(23)
    ensures Rotl(x, 6) == x.RotateLeft(6) && Rotl(x, 10) == x.RotateLeft(10) && Rotl(x, 15) == x.RotateLeft(15)
    ensures Rotl(x, 21) == x.RotateLeft(21)
  {
  }

  function OrderAt(round: nat, j: nat): (g: nat)
    requires round < 4 && j < 16
    ensures g < 16
  {
    ORDER[round][j]
  }

  function WordOf(i: nat): (g: nat)
    requires i < 64
    ensures g < 16
  {
    OrderAt(i / 16, i % 16)
  }

  function Sine(i: nat): word
    requires i < 64
  {
    K[i]
  }

  /** Four shifts a round, in turn. */
  function ShiftOf(i: nat): (s: bv6)
    requires i < 64
    ensures 4 <= s <= 23
  {
    SHIFTS[i / 16][i % 4]
  }

  /** Which register plays part `part` (a, b, c or d) in operation i: ABCD, DABC, CDAB, BCDA, and again. */
  function Register(i: nat, part: nat): (r: nat)
    requires i <= 64 && part < 4
    ensures r < 4
  {
    (64 - i + part) % 4
  }

  /** b + ((a + f + X[k] + T[i]) <<< s). */
  function NewA(a: word, b: word, f: word, x: word, t: word, s: bv6): word
    requires s <= 32
  {
    b + Rotl(a + f + x + t, s)
  }

  /** Operation i sets a. */
  function Operation(r: seq<word>, x: seq<word>, i: nat): (t: seq<word>)
    requires |r| == 4 && |x| == 16 && i < 64
    ensures |t| == 4
  {
    var a, b, c, d := r[Register(i, 0)], r[Register(i, 1)], r[Register(i, 2)], r[Register(i, 3)];
    r[Register(i, 0) := NewA(a, b, Aux(i / 16, b, c, d), x[WordOf(i)], Sine(i), ShiftOf(i))]
  }

  ghost function Operations(r: seq<word>, x: seq<word>, n: nat): (t: seq<word>)
    requires |r| == 4 && |x| == 16 && n <= 64
    ensures |t| == 4
  {
    if n == 0 then r else Operation(Operations(r, x, n - 1), x, n - 1)
  }

  function Add(x: word, y: word): word { x + y }

  /** The sixty-four operations on a block, and the registers added to what they were. */
  ghost function Process(r: seq<word>, x: seq<word>): (t: seq<word>)
    requires |r| == 4 && |x| == 16
    ensures |t| == 4
  {
    var q := Operations(r, x, 64);
    [Add(r[0], q[0]), Add(r[1], q[1]), Add(r[2], q[2]), Add(r[3], q[3])]
  }

  /** Section 3.3. */
  const START: seq<word> := [0x67452301, 0xefcdab89, 0x98badcfe, 0x10325476]

  /** The registers after the first n blocks. */
  ghost function Digest(p: seq<byte>, n: nat): (r: seq<word>)
    requires 64 * n <= |p|
    ensures |r| == 4
  {
    if n == 0 then START else Process(Digest(p, n - 1), BlockAt(p, 64 * (n - 1)))
  }

  // ---- padding -------------------------------------------------------------------------------------

  function PaddedLength(len: nat): nat {
    ((len + 8) / 64 + 1) * 64
  }

  /** The least multiple of 64 that is at least len + 9. */
  lemma PaddedLeast(len: nat, m: nat)
    ensures PaddedLength(len) % 64 == 0 && len + 9 <= PaddedLength(len)
    ensures m % 64 == 0 && len + 9 <= m ==> PaddedLength(len) <= m
  {
    if m % 64 == 0 && len + 9 <= m {
      assert m == 64 * (m / 64);
    }
  }

  function Pow256(k: nat): (p: nat)
    ensures p >= 1
  {
    if k == 0 then 1 else 256 * Pow256(k - 1)
  }

  /** `byte_at`: the padded message, without a copy. */
  function ByteAt(data: seq<byte>, i: nat): byte
    requires i < PaddedLength(|data|)
  {
    var bitlen := |data| * 8 % U64;
    var tail := PaddedLength(|data|) - 8;
    if i < |data| then data[i]
    else if i == |data| then 0x80
    else if i >= tail then Byte(bitlen / Pow256(i - tail) % 256)
    else 0
  }

  lemma {:induction false} LittleEndianAt(n: nat, k: nat, j: nat)
    requires j < k
    ensures LittleEndian(n, k)[j] == Byte(n / Pow256(j) % 256)
    decreases k
  {
    hide Byte;
    if j > 0 {
      LittleEndianAt(n / 256, k - 1, j - 1);
      DivDiv(n, 256, Pow256(j - 1));
    }
  }

  lemma DivDiv(n: nat, a: nat, b: nat)
    requires a > 0 && b > 0
    ensures a * b > 0 && n / a / b == n / (a * b)
  {
    assert a * b > 0;
    var q, r := n / a, n % a;
    var q2, r2 := q / b, q % b;
    assert n == a * q + r && q == b * q2 + r2;
    assert n == (a * b) * q2 + (a * r2 + r) by {
      assert a * q == a * (b * q2 + r2) == a * (b * q2) + a * r2;
      assert a * (b * q2) == (a * b) * q2;
    }
    assert 0 <= a * r2 + r < a * b by { assert a * r2 <= a * (b - 1) == a * b - a; }
    DivUnique(n, a * b, q2, a * r2 + r);
  }

  lemma MulStep(d: nat, q: nat, e: nat)
    requires q < e
    ensures d * q + d <= d * e
  {
    assert d * e == d * (q + 1) + d * (e - q - 1);
  }

  lemma DivUnique(n: nat, d: nat, q: nat, r: nat)
    requires d > 0 && n == d * q + r && r < d
    ensures n / d == q
  {
    var e, f := n / d, n % d;
    assert n == d * e + f;
    if q < e { MulStep(d, q, e); }
    if e < q { MulStep(d, e, q); }
  }

  /** The four cases of `byte_at` spell the padded message of sections 3.1 and 3.2. */
  lemma BytesArePadded(data: seq<byte>, z: nat, i: nat)
    requires ZeroCount(|data|, z) && i < PaddedLength(|data|)
    ensures |PaddedMessage(data, z)| == PaddedLength(|data|)
    ensures PaddedMessage(data, z)[i] == ByteAt(data, i)
  {
    hide ZeroCount, PaddedLength, LittleEndian, Byte, Zeros;
    PaddedIs(|data|, z);
    var length := LittleEndian(8 * |data| % U64, 8);
    var tail := |data| + 1 + z;
    PartAt(data, Zeros(z), length, i);
    if i >= tail {
      LittleEndianAt(8 * |data| % U64, 8, i - tail);
    }
  }

  lemma PartAt(data: seq<byte>, zeros: seq<byte>, length: seq<byte>, i: nat)
    requires i < |data| + 1 + |zeros| + |length|
    ensures var n := |data|;
      (data + [0x80] + zeros + length)[i] ==
        if i < n then data[i] else if i == n then 0x80 else if i < n + 1 + |zeros| then zeros[i - n - 1]
        else length[i - n - 1 - |zeros|]
  {
  }

  lemma PaddedIs(len: nat, z: nat)
    requires ZeroCount(len, z)
    ensures PaddedLength(len) == len + z + 9
  {
  }

  /** The fewest zero bytes exist and are unique. */
  lemma ZeroCountIs(len: nat, z: nat)
    ensures ZeroCount(len, z) <==> z + len + 9 == PaddedLength(len)
  {
  }

  // ---- the block loop ------------------------------------------------------------------------------

  /** The word operation i takes, by the code's formulas. */
  function CodeWord(i: nat): (g: nat)
    ensures g < 16 || i < 16
  {
    if i < 16 then i else if i < 32 then (5 * i + 1) % 16 else if i < 48 then (3 * i + 5) % 16 else 7 * i % 16
  }

  lemma OrderOf(j: nat)
    requires j < 16
    ensures OrderAt(0, j) == j && OrderAt(1, j) == (5 * j + 1) % 16
  {
    if j == 0 {} else if j == 1 {} else if j == 2 {} else if j == 3 {} else if j == 4 {} else if j == 5 {}
    else if j == 6 {} else if j == 7 {} else if j == 8 {} else if j == 9 {} else if j == 10 {} else if j == 11 {}
    else if j == 12 {} else if j == 13 {} else if j == 14 {} else {}
  }

  lemma OrderOfLater(j: nat)
    requires j < 16
    ensures OrderAt(2, j) == (3 * j + 5) % 16 && OrderAt(3, j) == 7 * j % 16
  {
    if j == 0 {} else if j == 1 {} else if j == 2 {} else if j == 3 {} else if j == 4 {} else if j == 5 {}
    else if j == 6 {} else if j == 7 {} else if j == 8 {} else if j == 9 {} else if j == 10 {} else if j == 11 {}
    else if j == 12 {} else if j == 13 {} else if j == 14 {} else {}
  }

  /** The code's formulas give the words in the order the RFC lists them. */
  lemma CodeWordIs(i: nat)
    requires i < 64
    ensures CodeWord(i) == WordOf(i)
  {
    hide OrderAt;
    var round, j := i / 16, i % 16;
    OrderOf(j);
    OrderOfLater(j);
    assert i == 16 * round + j;
    if i < 16 {
    } else if i < 32 {
      DropSixteens(5 * round, 5 * j + 1);
    } else if i < 48 {
      DropSixteens(3 * round, 3 * j + 5);
    } else {
      DropSixteens(7 * round, 7 * j);
    }
  }

  lemma DropSixteens(k: nat, r: nat)
    ensures (16 * k + r) % 16 == r % 16
  {
  }

  /** The code's mixing function; the second round's is written in another order. */
  function CodeMix(i: nat, b: word, c: word, d: word): word {
    if i < 16 then F(b, c, d) else if i < 32 then MixTwo(b, c, d) else if i < 48 then H(b, c, d) else I(b, c, d)
  }

  function MixTwo(b: word, c: word, d: word): word { (d & b) | (!d & c) }

  lemma MixTwoIs(b: word, c: word, d: word)
    ensures MixTwo(b, c, d) == G(b, c, d)
  {
  }

  lemma MixIs(i: nat, b: word, c: word, d: word)
    requires i < 64
    ensures CodeMix(i, b, c, d) == Aux(i / 16, b, c, d)
  {
    hide F, G, H, I, MixTwo;
    MixTwoIs(b, c, d);
    if i < 16 {} else if i < 32 { assert i / 16 == 1; } else if i < 48 { assert i / 16 == 2; }
    else { assert i / 16 == 3; }
  }

  function WordOr(b0: byte, b1: byte, b2: byte, b3: byte): word {
    (b0 as bv32) | ((b1 as bv32) << 8) | ((b2 as bv32) << 16) | ((b3 as bv32) << 24)
  }

  lemma OrIsSum(b0: byte, b1: byte, b2: byte, b3: byte)
    ensures WordOr(b0, b1, b2, b3) == WordSum(b0, b1, b2, b3)
  {
  }

  ghost function PaddedOf(data: seq<byte>): (p: seq<byte>)
    ensures |p| == PaddedLength(|data|)
    ensures exists z :: ZeroCount(|data|, z) && p == PaddedMessage(data, z)
    ensures forall i :: 0 <= i < |p| ==> p[i] == ByteAt(data, i)
  {
    var z := PaddedLength(|data|) - |data| - 9;
    ZeroCountIs(|data|, z);
    assert forall i :: 0 <= i < PaddedLength(|data|) ==> PaddedMessage(data, z)[i] == ByteAt(data, i) by {
      forall i | 0 <= i < PaddedLength(|data|) ensures PaddedMessage(data, z)[i] == ByteAt(data, i) {
        BytesArePadded(data, z, i);
      }
    }
    PaddedMessage(data, z)
  }

  lemma LoadWord(data: seq<byte>, at: nat)
    requires at + 4 <= PaddedLength(|data|)
    ensures WordOr(ByteAt(data, at), ByteAt(data, at + 1), ByteAt(data, at + 2), ByteAt(data, at + 3))
         == WordAt(PaddedOf(data), at)
  {
    hide ByteAt, PaddedOf, WordOr, WordSum, PaddedLength;
    var p := PaddedOf(data);
    OrIsSum(p[at], p[at + 1], p[at + 2], p[at + 3]);
  }

  /** The sixteen words of the block at `off`, read through `byte_at`. */
  method LoadBlock(data: seq<byte>, off: nat) returns (m: array<word>)
    requires off + 64 <= PaddedLength(|data|)
    ensures fresh(m) && m[..] == BlockAt(PaddedOf(data), off)
  {
    hide ByteAt, PaddedOf, WordOr, WordAt, PaddedLength;
    m := new word[16];
    ghost var p := PaddedOf(data);
    for i := 0 to 16
      invariant forall j :: 0 <= j < i ==> m[j] == WordAt(p, off + 4 * j)
    {
      var at := off + i * 4;
      LoadWord(data, at);
      m[i] := WordOr(ByteAt(data, at), ByteAt(data, at + 1), ByteAt(data, at + 2), ByteAt(data, at + 3));
    }
  }

  /** The rotating registers hold the RFC's, each in the place of the part it plays next. */
  ghost predicate Turned(a: word, b: word, c: word, d: word, r: seq<word>, i: nat)
    requires |r| == 4 && i <= 64
  {
    a == r[Register(i, 0)] && b == r[Register(i, 1)] && c == r[Register(i, 2)] && d == r[Register(i, 3)]
  }

  lemma Turn(i: nat)
    requires i < 64
    ensures Register(i + 1, 1) == Register(i, 0) && Register(i + 1, 2) == Register(i, 1)
    ensures Register(i + 1, 3) == Register(i, 2) && Register(i + 1, 0) == Register(i, 3)
    ensures Register(i, 0) != Register(i, 1) && Register(i, 0) != Register(i, 2) && Register(i, 0) != Register(i, 3)
  {
  }

  /** The code's F = F + A + K[i] + M[g], then B + rotl(F, S[i]). */
  function NewB(a: word, b: word, f: word, x: word, t: word, s: bv6): word
    requires s <= 32
  {
    b + Rotl(f + a + t + x, s)
  }

  lemma NewBIsNewA(a: word, b: word, f: word, x: word, t: word, s: bv6)
    requires s <= 32
    ensures NewB(a, b, f, x, t, s) == NewA(a, b, f, x, t, s)
  {
    hide Rotl;
    AddOrder(a, f, x, t);
  }

  lemma AddOrder(a: word, f: word, x: word, t: word)
    ensures f + a + t + x == a + f + x + t
  {
  }

  lemma StepTurns(a: word, b: word, c: word, d: word, r: seq<word>, x: seq<word>, i: nat)
    requires |r| == 4 && |x| == 16 && i < 64 && Turned(a, b, c, d, r, i)
    ensures CodeWord(i) < 16
    ensures Turned(d, NewB(a, b, CodeMix(i, b, c, d), x[CodeWord(i)], Sine(i), ShiftOf(i)), b, c,
                   Operation(r, x, i), i + 1)
  {
    hide CodeMix, Aux, Sine, ShiftOf, CodeWord, WordOf, Register, NewA, NewB;
    Turn(i);
    CodeWordIs(i);
    MixIs(i, b, c, d);
    NewBIsNewA(a, b, CodeMix(i, b, c, d), x[CodeWord(i)], Sine(i), ShiftOf(i));
  }

  /** One 64-byte block. */
  method RunBlock(r: seq<word>, m: array<word>) returns (q: seq<word>)
    requires |r| == 4 && m.Length == 16
    ensures q == Process(r, m[..])
  {
    hide CodeMix, Sine, NewB, ShiftOf, CodeWord, Operation, Register, Add;
    var A, B, C, D := r[0], r[1], r[2], r[3];
    assert Turned(A, B, C, D, r, 0) by { AllTurned(); }
    for i := 0 to 64
      invariant Turned(A, B, C, D, Operations(r, m[..], i), i)
    {
      StepTurns(A, B, C, D, Operations(r, m[..], i), m[..], i);
      A, B, C, D := D, NewB(A, B, CodeMix(i, B, C, D), m[CodeWord(i)], Sine(i), ShiftOf(i)), B, C;
    }
    AllTurned();
    q := [Add(r[0], A), Add(r[1], B), Add(r[2], C), Add(r[3], D)];
  }

  lemma AllTurned()
    ensures forall part :: 0 <= part < 4 ==> Register(0, part) == part && Register(64, part) == part
  {
  }

  /** The registers after the whole message. */
  method Registers(data: seq<byte>) returns (r: seq<word>)
    ensures r == Digest(PaddedOf(data), |PaddedOf(data)| / 64)
  {
    hide Process, PaddedOf, BlockAt, PaddedLength, ByteAt;
    ghost var p := PaddedOf(data);
    var padded := PaddedLength(|data|);
    ghost var blocks, n := padded / 64, 0;
    PaddedLeast(|data|, padded);
    assert padded == 64 * blocks;
    r := START;
    var off := 0;
    while off < padded
      invariant off == 64 * n && n <= blocks && r == Digest(p, n)
    {
      var m := LoadBlock(data, off);
      r := RunBlock(r, m);
      off, n := off + 64, n + 1;
    }
  }

  // ---- the hex form --------------------------------------------------------------------------------

  /** Section 3.5: low-order byte of A first, high-order byte of D last. */
  function WordBytesOf(w: word): (s: seq<byte>)
    ensures |s| == 4
  {
    [(w & 0xFF) as bv8, ((w >> 8) & 0xFF) as bv8, ((w >> 16) & 0xFF) as bv8, ((w >> 24) & 0xFF) as bv8]
  }

  lemma WordBytesBack(w: word)
    ensures var b := WordBytesOf(w); WordOr(b[0], b[1], b[2], b[3]) == w
  {
  }

  function DigestBytes(r: seq<word>): (s: seq<byte>)
    requires |r| == 4
    ensures |s| == 16
  {
    WordBytesOf(r[0]) + WordBytesOf(r[1]) + WordBytesOf(r[2]) + WordBytesOf(r[3])
  }

  /** Read as section 2 reads words, low-order byte first, the sixteen bytes are the four registers. */
  lemma DigestBytesBack(r: seq<word>, i: nat)
    requires |r| == 4 && i < 4
    ensures WordAt(DigestBytes(r), 4 * i) == r[i]
  {
    hide WordBytesOf, WordSum, WordOr;
    var b, w := DigestBytes(r), WordBytesOf(r[i]);
    assert b[4 * i] == w[0] && b[4 * i + 1] == w[1] && b[4 * i + 2] == w[2] && b[4 * i + 3] == w[3];
    WordBytesBack(r[i]);
    OrIsSum(w[0], w[1], w[2], w[3]);
  }

  /** Two digits a byte. */
  function FromHex(s: string): seq<nat> {
    if |s| < 2 then [] else [16 * DigitValue(s[0]) + DigitValue(s[1])] + FromHex(s[2..])
  }

  function Vals(b: seq<byte>): seq<nat> {
    if b == [] then [] else [Val(b[0])] + Vals(b[1..])
  }

  function Hex(b: seq<byte>): (s: string)
    ensures |s| == 2 * |b|
  {
    if b == [] then "" else [HexDigit(Val(b[0]) / 16), HexDigit(Val(b[0]) % 16)] + Hex(b[1..])
  }

  lemma {:induction false} HexBack(b: seq<byte>)
    ensures FromHex(Hex(b)) == Vals(b)
    decreases |b|
  {
    hide HexDigit, DigitValue, Val;
    if b != [] {
      HexDigitBack(Val(b[0]) / 16);
      HexDigitBack(Val(b[0]) % 16);
      HexBack(b[1..]);
      assert Hex(b)[2..] == Hex(b[1..]);
    }
  }

  lemma {:induction false} HexPush(b: seq<byte>, c: byte)
    ensures Hex(b + [c]) == Hex(b) + [HexDigit(Val(c) / 16), HexDigit(Val(c) % 16)]
    decreases |b|
  {
    hide HexDigit, Val;
    if b == [] {
      assert b + [c] == [c];
    } else {
      assert (b + [c])[1..] == b[1..] + [c];
      HexPush(b[1..], c);
    }
  }

  /** `md5_hex`: thirty-two digits that stand for the digest's sixteen bytes. */
  method Md5Hex(data: seq<byte>) returns (out: string)
    ensures |out| == 32
    ensures var digest := Digest(PaddedOf(data), |PaddedOf(data)| / 64);
            FromHex(out) == Vals(DigestBytes(digest))
            && forall i :: 0 <= i < 4 ==> WordAt(DigestBytes(digest), 4 * i) == digest[i]
  {
    hide HexDigit, FromHex, Vals, Digest, PaddedOf, WordBytesOf, Val, WordAt;
    var r := Registers(data);
    var bytes := DigestBytes(r);
    out := "";
    for p := 0 to 16
      invariant out == Hex(bytes[..p])
    {
      HexPush(bytes[..p], bytes[p]);
      assert bytes[..p + 1] == bytes[..p] + [bytes[p]];
      out := out + [HexDigit(Val(bytes[p]) / 16), HexDigit(Val(bytes[p]) % 16)];
    }
    assert bytes[..16] == bytes;
    HexBack(bytes);
    forall i | 0 <= i < 4 ensures WordAt(bytes, 4 * i) == r[i] { DigestBytesBack(r, i); }
  }
}
