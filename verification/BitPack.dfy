/** The bool packing of include/nanolance/bool_bitpack.hpp: one byte a value to one bit a value, lowest bit first,
    eight values at a time by a multiply and by a table. */
module BitPack {
  import opened Bytes

  // ---- one bit at a time ---------------------------------------------------------------------------

  /** A byte's bit as a 0 or 1 byte: (b >> k) & 1. */
  function BitValue(b: byte, k: nat): byte
    requires k < 8
  {
    if k == 0 then b & 1 else if k == 1 then (b >> 1) & 1 else if k == 2 then (b >> 2) & 1
    else if k == 3 then (b >> 3) & 1 else if k == 4 then (b >> 4) & 1 else if k == 5 then (b >> 5) & 1
    else if k == 6 then (b >> 6) & 1 else (b >> 7) & 1
  }

  /** (b & 1) << k. */
  function LowAt(b: byte, k: nat): byte
    requires k < 8
  {
    if k == 0 then b & 1 else if k == 1 then (b & 1) << 1 else if k == 2 then (b & 1) << 2
    else if k == 3 then (b & 1) << 3 else if k == 4 then (b & 1) << 4 else if k == 5 then (b & 1) << 5
    else if k == 6 then (b & 1) << 6 else (b & 1) << 7
  }

  /** Bit k of a packed buffer. */
  function PackedBit(packed: seq<byte>, k: nat): byte
    requires k / 8 < |packed|
  {
    BitValue(packed[k / 8], k % 8)
  }

  lemma OrLow(b: byte, v: byte, k: nat, j: nat)
    requires k < 8 && j < 8 && BitValue(b, k) == 0
    ensures BitValue(b | LowAt(v, k), j) == if j == k then v & 1 else BitValue(b, j)
  {
    hide BitValue, LowAt;
    if k == 0 { OrLowAt0(b, v, k, j); } else if k == 1 { OrLowAt1(b, v, k, j); }
    else if k == 2 { OrLowAt2(b, v, k, j); } else if k == 3 { OrLowAt3(b, v, k, j); }
    else if k == 4 { OrLowAt4(b, v, k, j); } else if k == 5 { OrLowAt5(b, v, k, j); }
    else if k == 6 { OrLowAt6(b, v, k, j); } else { OrLowAt7(b, v, k, j); }
  }

  lemma OrLowAt0(b: byte, v: byte, k: nat, j: nat)
    requires k == 0 && j < 8 && BitValue(b, k) == 0
    ensures BitValue(b | LowAt(v, k), j) == if j == k then v & 1 else BitValue(b, j)
  {
  }

  lemma OrLowAt1(b: byte, v: byte, k: nat, j: nat)
    requires k == 1 && j < 8 && BitValue(b, k) == 0
    ensures BitValue(b | LowAt(v, k), j) == if j == k then v & 1 else BitValue(b, j)
  {
  }

  lemma OrLowAt2(b: byte, v: byte, k: nat, j: nat)
    requires k == 2 && j < 8 && BitValue(b, k) == 0
    ensures BitValue(b | LowAt(v, k), j) == if j == k then v & 1 else BitValue(b, j)
  {
  }

  lemma OrLowAt3(b: byte, v: byte, k: nat, j: nat)
    requires k == 3 && j < 8 && BitValue(b, k) == 0
    ensures BitValue(b | LowAt(v, k), j) == if j == k then v & 1 else BitValue(b, j)
  {
  }

  lemma OrLowAt4(b: byte, v: byte, k: nat, j: nat)
    requires k == 4 && j < 8 && BitValue(b, k) == 0
    ensures BitValue(b | LowAt(v, k), j) == if j == k then v & 1 else BitValue(b, j)
  {
  }

  lemma OrLowAt5(b: byte, v: byte, k: nat, j: nat)
    requires k == 5 && j < 8 && BitValue(b, k) == 0
    ensures BitValue(b | LowAt(v, k), j) == if j == k then v & 1 else BitValue(b, j)
  {
  }

  lemma OrLowAt6(b: byte, v: byte, k: nat, j: nat)
    requires k == 6 && j < 8 && BitValue(b, k) == 0
    ensures BitValue(b | LowAt(v, k), j) == if j == k then v & 1 else BitValue(b, j)
  {
  }

  lemma OrLowAt7(b: byte, v: byte, k: nat, j: nat)
    requires k == 7 && j < 8 && BitValue(b, k) == 0
    ensures BitValue(b | LowAt(v, k), j) == if j == k then v & 1 else BitValue(b, j)
  {
  }

  /** A byte is its eight bits. */
  lemma SameBits(a: byte, b: byte)
    requires forall k :: 0 <= k < 8 ==> BitValue(a, k) == BitValue(b, k)
    ensures a == b
  {
    assert BitValue(a, 0) == BitValue(b, 0) && BitValue(a, 1) == BitValue(b, 1) && BitValue(a, 2) == BitValue(b, 2)
        && BitValue(a, 3) == BitValue(b, 3) && BitValue(a, 4) == BitValue(b, 4) && BitValue(a, 5) == BitValue(b, 5)
        && BitValue(a, 6) == BitValue(b, 6) && BitValue(a, 7) == BitValue(b, 7);
  }

  /** The low bit of each value: what a bool column holds. */
  function LowBits(values: seq<byte>): (l: seq<byte>)
    ensures |l| == |values| && forall i :: 0 <= i < |l| ==> l[i] == values[i] & 1
  {
    seq(|values|, i requires 0 <= i < |values| => values[i] & 1)
  }

  // ---- the naive form ------------------------------------------------------------------------------

  /** Byte j of the packed values: bit k is the low bit of value 8j + k, and zero past the last value. */
  ghost predicate ByteHolds(values: seq<byte>, b: byte, j: nat) {
    forall k :: 0 <= k < 8 ==> BitValue(b, k) == if 8 * j + k < |values| then values[8 * j + k] & 1 else 0
  }

  ghost predicate Packs(values: seq<byte>, packed: seq<byte>) {
    |packed| == (|values| + 7) / 8 && forall j :: 0 <= j < |packed| ==> ByteHolds(values, packed[j], j)
  }

  /** The bits [offset, offset + |out|) of `packed`, one 0/1 byte each. */
  ghost predicate Unpacks(packed: seq<byte>, offset: nat, out: seq<byte>) {
    forall i :: 0 <= i < |out| ==> IsBit(packed, offset + i, out[i])
  }

  ghost predicate IsBit(packed: seq<byte>, k: nat, v: byte) {
    k / 8 < |packed| && v == PackedBit(packed, k)
  }

  /** What the unpacked values are depends on no byte but those that hold one of the bits. */
  lemma OnlyWantedBytes(packed: seq<byte>, other: seq<byte>, offset: nat, out: seq<byte>)
    requires |packed| == |other|
    requires forall k :: offset / 8 <= k < |packed| && k <= (offset + |out| - 1) / 8 ==> packed[k] == other[k]
    ensures Unpacks(packed, offset, out) <==> Unpacks(other, offset, out)
  {
    hide PackedBit;
    forall i | 0 <= i < |out| ensures IsBit(packed, offset + i, out[i]) <==> IsBit(other, offset + i, out[i]) {
      SameByteSameBit(packed, other, offset + i);
    }
  }

  lemma SameByteSameBit(packed: seq<byte>, other: seq<byte>, k: nat)
    requires |packed| == |other| && (k / 8 < |packed| ==> packed[k / 8] == other[k / 8])
    ensures k / 8 < |packed| ==> PackedBit(packed, k) == PackedBit(other, k)
  {
  }

  /** Values have one packed form. */
  lemma PackedOnce(values: seq<byte>, p: seq<byte>, q: seq<byte>)
    requires Packs(values, p) && Packs(values, q)
    ensures p == q
  {
    hide BitValue;
    forall j | 0 <= j < |p|
      ensures p[j] == q[j]
    {
      assert ByteHolds(values, p[j], j) && ByteHolds(values, q[j], j);
      SameBits(p[j], q[j]);
    }
  }

  lemma PackedBitIs(values: seq<byte>, packed: seq<byte>, k: nat)
    requires Packs(values, packed) && k < |values|
    ensures k / 8 < |packed| && PackedBit(packed, k) == values[k] & 1
  {
    hide BitValue;
    assert ByteHolds(values, packed[k / 8], k / 8);
    assert 8 * (k / 8) + k % 8 == k;
  }

  /** Unpacking any run of the packed values gives back the low bits of those values. */
  lemma RoundTrip(values: seq<byte>, packed: seq<byte>, offset: nat, out: seq<byte>)
    requires Packs(values, packed) && offset + |out| <= |values|
    ensures Unpacks(packed, offset, out)
        <==> out == LowBits(values[offset..offset + |out|])
  {
    hide PackedBit;
    forall i | 0 <= i < |out|
      ensures IsBit(packed, offset + i, out[i]) <==> out[i] == values[offset + i] & 1
    {
      PackedBitIs(values, packed, offset + i);
    }
  }

  // ---- eight at a time -----------------------------------------------------------------------------

  const LOW_BITS: bv64 := 0x0101010101010101
  const GATHER: bv64 := 0x0102040810204080

  function Pack8(v: seq<byte>): byte
    requires |v| == 8
  {
    PackWord(Load(v))
  }

  function PackWord(x: bv64): byte {
    ((((x & LOW_BITS) * GATHER) >> 56) & 0xFF) as bv8
  }

  /** The multiply has no carries: the product is the bitwise or of the eight shifted copies. */
  lemma NoCarries(x: bv64)
    ensures var y := x & LOW_BITS;
            y * GATHER == (y << 7) | (y << 14) | (y << 21) | (y << 28) | (y << 35) | (y << 42) | (y << 49) | (y << 56)
  {
  }

  lemma PackWordBits(b0: byte, b1: byte, b2: byte, b3: byte, b4: byte, b5: byte, b6: byte, b7: byte)
    ensures var p := PackWord(LoadBits(b0, b1, b2, b3, b4, b5, b6, b7));
      && BitValue(p, 0) == b0 & 1 && BitValue(p, 1) == b1 & 1 && BitValue(p, 2) == b2 & 1 && BitValue(p, 3) == b3 & 1
      && BitValue(p, 4) == b4 & 1 && BitValue(p, 5) == b5 & 1 && BitValue(p, 6) == b6 & 1 && BitValue(p, 7) == b7 & 1
  {
  }

  /** Bit k of pack8 is the low bit of byte k. */
  lemma Pack8Bits(v: seq<byte>)
    requires |v| == 8
    ensures forall k :: 0 <= k < 8 ==> BitValue(Pack8(v), k) == v[k] & 1
  {
    hide BitValue, PackWord, LoadBits;
    PackWordBits(v[0], v[1], v[2], v[3], v[4], v[5], v[6], v[7]);
    forall k | 0 <= k < 8
      ensures BitValue(Pack8(v), k) == v[k] & 1
    {
      if k == 0 {} else if k == 1 {} else if k == 2 {} else if k == 3 {}
      else if k == 4 {} else if k == 5 {} else if k == 6 {} else {}
    }
  }

  // ---- packing -------------------------------------------------------------------------------------

  method PackLsbFirst(values: array<byte>, count: nat, out: array<byte>)
    requires values != out && count <= values.Length && (count + 7) / 8 <= out.Length
    modifies out
    ensures Packs(values[..count], out[..(count + 7) / 8])
    ensures out[(count + 7) / 8..] == old(out[(count + 7) / 8..])
  {
    hide BitValue, LowAt, Pack8, ByteHolds;
    var full := count / 8;
    for j := 0 to full
      invariant forall i :: 0 <= i < j ==> ByteHolds(values[..count], out[i], i)
      invariant forall i :: j <= i < out.Length ==> out[i] == old(out[i])
    {
      out[j] := Pack8(values[j * 8..j * 8 + 8]);
      Pack8Holds(values[..count], j);
      assert values[..count][8 * j..8 * j + 8] == values[j * 8..j * 8 + 8];
    }
    if full * 8 < count {
      var b: byte := PackTail(values[..count]);
      out[full] := b;
    }
  }

  lemma Pack8Holds(values: seq<byte>, j: nat)
    requires 8 * j + 8 <= |values|
    ensures ByteHolds(values, Pack8(values[8 * j..8 * j + 8]), j)
  {
    hide BitValue, Pack8;
    Pack8Bits(values[8 * j..8 * j + 8]);
  }

  /** The last values, fewer than eight, one at a time. */
  method PackTail(values: seq<byte>) returns (b: byte)
    requires |values| % 8 != 0
    ensures ByteHolds(values, b, |values| / 8)
  {
    hide BitValue, LowAt;
    var full := |values| / 8;
    b := 0;
    ZeroBits();
    for i := full * 8 to |values|
      invariant forall k :: 0 <= k < 8 ==>
        BitValue(b, k) == if 8 * full + k < i then values[8 * full + k] & 1 else 0
    {
      assert i % 8 == i - 8 * full;
      var with := b | LowAt(values[i], i % 8);
      TailStep(b, values[i], i % 8, with);
      b := with;
    }
  }

  lemma ZeroBits()
    ensures forall k :: 0 <= k < 8 ==> BitValue(0, k) == 0
  {
  }

  lemma TailStep(b: byte, v: byte, k: nat, with: byte)
    requires k < 8 && BitValue(b, k) == 0 && with == b | LowAt(v, k)
    ensures forall j :: 0 <= j < 8 ==> BitValue(with, j) == if j == k then v & 1 else BitValue(b, j)
  {
    hide BitValue, LowAt;
    forall j | 0 <= j < 8
      ensures BitValue(with, j) == if j == k then v & 1 else BitValue(b, j)
    {
      OrLow(b, v, k, j);
    }
  }

  // ---- the table -----------------------------------------------------------------------------------

  /** v << 8k. */
  function ByteAt(v: byte, k: nat): bv64
    requires k < 8
  {
    if k == 0 then v as bv64 else if k == 1 then (v as bv64) << 8 else if k == 2 then (v as bv64) << 16
    else if k == 3 then (v as bv64) << 24 else if k == 4 then (v as bv64) << 32 else if k == 5 then (v as bv64) << 40
    else if k == 6 then (v as bv64) << 48 else (v as bv64) << 56
  }

  function Or(x: bv64, y: bv64): bv64 {
    x | y
  }

  /** The entry after the first k turns of the inner loop. */
  ghost function Spread(b: byte, k: nat): bv64
    requires k <= 8
  {
    if k == 0 then 0 else Or(Spread(b, k - 1), ByteAt(BitValue(b, k - 1), k - 1))
  }

  lemma SpreadWhole(b: byte)
    ensures Spread(b, 8) == LoadBits(BitValue(b, 0), BitValue(b, 1), BitValue(b, 2), BitValue(b, 3),
                                     BitValue(b, 4), BitValue(b, 5), BitValue(b, 6), BitValue(b, 7))
  {
    hide BitValue, ByteAt, LoadBits, Or;
    assert Spread(b, 1) == Or(Spread(b, 0), ByteAt(BitValue(b, 0), 0));
    assert Spread(b, 2) == Or(Spread(b, 1), ByteAt(BitValue(b, 1), 1));
    assert Spread(b, 3) == Or(Spread(b, 2), ByteAt(BitValue(b, 2), 2));
    assert Spread(b, 4) == Or(Spread(b, 3), ByteAt(BitValue(b, 3), 3));
    assert Spread(b, 5) == Or(Spread(b, 4), ByteAt(BitValue(b, 4), 4));
    assert Spread(b, 6) == Or(Spread(b, 5), ByteAt(BitValue(b, 5), 5));
    assert Spread(b, 7) == Or(Spread(b, 6), ByteAt(BitValue(b, 6), 6));
    LoadIsBytes(BitValue(b, 0), BitValue(b, 1), BitValue(b, 2), BitValue(b, 3),
                BitValue(b, 4), BitValue(b, 5), BitValue(b, 6), BitValue(b, 7));
  }

  lemma LoadIsBytes(b0: byte, b1: byte, b2: byte, b3: byte, b4: byte, b5: byte, b6: byte, b7: byte)
    ensures Or(Or(Or(Or(Or(Or(Or(Or(0, ByteAt(b0, 0)), ByteAt(b1, 1)), ByteAt(b2, 2)), ByteAt(b3, 3)), ByteAt(b4, 4)),
               ByteAt(b5, 5)), ByteAt(b6, 6)), ByteAt(b7, 7)) == LoadBits(b0, b1, b2, b3, b4, b5, b6, b7)
  {
  }

  /** The eight bits of a byte, lowest first. */
  ghost predicate HoldsBits(entry: bv64, b: byte) {
    forall k :: 0 <= k < 8 ==> WordBytes(entry)[k] == BitValue(b, k)
  }

  lemma SpreadBits(b: byte)
    ensures HoldsBits(Spread(b, 8), b)
  {
    hide BitValue, LoadBits, WordBytes, Spread;
    SpreadWhole(b);
    LoadBitsBytes(BitValue(b, 0), BitValue(b, 1), BitValue(b, 2), BitValue(b, 3),
                  BitValue(b, 4), BitValue(b, 5), BitValue(b, 6), BitValue(b, 7));
  }

  ghost predicate TableOk(entry: seq<bv64>) {
    |entry| == 256 && forall b :: 0 <= b < 256 ==> HoldsBits(entry[b], Byte(b))
  }

  /** The constructor of UnpackTable. */
  method UnpackTable() returns (entry: array<bv64>)
    ensures fresh(entry) && TableOk(entry[..])
  {
    hide HoldsBits, Byte;
    entry := new bv64[256];
    for b := 0 to 256
      invariant forall i :: 0 <= i < b ==> HoldsBits(entry[i], Byte(i))
    {
      var e := UnpackEntry(Byte(b));
      entry[b] := e;
    }
  }

  /** Its inner loop. */
  method UnpackEntry(b: byte) returns (e: bv64)
    ensures HoldsBits(e, b)
  {
    hide BitValue, ByteAt, HoldsBits, Or;
    e := 0;
    for k := 0 to 8
      invariant e == Spread(b, k)
    {
      e := Or(e, ByteAt(BitValue(b, k), k));
    }
    SpreadBits(b);
  }

  lemma TableEntry(entry: seq<bv64>, b: byte)
    requires TableOk(entry)
    ensures forall k :: 0 <= k < 8 ==> WordBytes(entry[Val(b)])[k] == BitValue(b, k)
  {
    hide BitValue, WordBytes;
    ByteVal(b);
    assert HoldsBits(entry[Val(b)], Byte(Val(b)));
  }

  // ---- unpacking -----------------------------------------------------------------------------------

  /** Values [0, i) of a run are out, and nothing past the run has changed. */
  ghost predicate OutSoFar(packed: seq<byte>, offset: nat, i: nat, out: seq<byte>, was: seq<byte>)
    requires i <= |out| == |was|
  {
    Unpacks(packed, offset, out[..i]) && out[i..] == was[i..]
  }

  lemma OneMore(packed: seq<byte>, offset: nat, i: nat, out: seq<byte>, was: seq<byte>)
    requires i < |out| == |was| && (offset + i) / 8 < |packed| && OutSoFar(packed, offset, i, out, was)
    ensures OutSoFar(packed, offset, i + 1, out[i := PackedBit(packed, offset + i)], was)
  {
    hide PackedBit;
    var next := out[i := PackedBit(packed, offset + i)];
    assert next[i + 1..] == out[i..][1..] == was[i + 1..];
    var done := next[..i + 1];
    forall j | 0 <= j < i + 1
      ensures IsBit(packed, offset + j, done[j])
    {
      assert j < i ==> out[..i][j] == done[j];
    }
  }

  lemma EightMore(packed: seq<byte>, offset: nat, i: nat, out: seq<byte>, was: seq<byte>, eight: seq<byte>)
    requires i + 8 <= |out| == |was| && |eight| == 8 && (offset + i) % 8 == 0 && (offset + i) / 8 < |packed|
    requires OutSoFar(packed, offset, i, out, was)
    requires forall k :: 0 <= k < 8 ==> eight[k] == BitValue(packed[(offset + i) / 8], k)
    ensures OutSoFar(packed, offset, i + 8, out[..i] + eight + out[i + 8..], was)
  {
    hide BitValue;
    var next := out[..i] + eight + out[i + 8..];
    assert next[i + 8..] == out[i..][8..] == was[i + 8..];
    var done := next[..i + 8];
    forall j | 0 <= j < i + 8
      ensures IsBit(packed, offset + j, done[j])
    {
      if j < i {
        assert out[..i][j] == done[j];
      } else {
        assert (offset + j) / 8 == (offset + i) / 8 && (offset + j) % 8 == j - i;
      }
    }
  }

  /** One value by the bit form. */
  method UnpackOne(packed: array<byte>, offset: nat, i: nat, out: array<byte>, ghost was: seq<byte>)
    returns (next: nat)
    requires out != packed && i < out.Length == |was| && (offset + i) / 8 < packed.Length
    requires OutSoFar(packed[..], offset, i, out[..], was)
    modifies out
    ensures next == i + 1 && OutSoFar(packed[..], offset, i + 1, out[..], was)
  {
    hide BitValue, OutSoFar;
    var bit := offset + i;
    OneMore(packed[..], offset, i, out[..], was);
    out[i] := BitValue(packed[bit / 8], bit % 8);
    next := i + 1;
  }

  /** An 8-byte store. */
  method StoreEight(word: bv64, i: nat, out: array<byte>)
    requires i + 8 <= out.Length
    modifies out
    ensures out[..] == old(out[..i]) + WordBytes(word) + old(out[i + 8..])
  {
    hide WordBytes;
    var b := WordBytes(word);
    for k := 0 to 8
      invariant out[..] == old(out[..i]) + b[..k] + old(out[i + k..])
    {
      out[i + k] := b[k];
    }
  }

  /** Eight values from the byte that holds them, by the table. */
  method UnpackEight(table: array<bv64>, packed: array<byte>, offset: nat, i: nat, out: array<byte>,
                     ghost was: seq<byte>)
    returns (next: nat)
    requires out != packed && TableOk(table[..])
    requires i + 8 <= out.Length == |was| && (offset + i) % 8 == 0 && (offset + i) / 8 < packed.Length
    requires OutSoFar(packed[..], offset, i, out[..], was)
    modifies out
    ensures next == i + 8 && OutSoFar(packed[..], offset, i + 8, out[..], was)
  {
    hide OutSoFar, WordBytes, BitValue, HoldsBits, Val;
    var src := (offset + i) / 8;
    ghost var before := out[..];
    TableEntry(table[..], packed[src]);
    var word := table[Val(packed[src])];
    StoreEight(word, i, out);
    EightMore(packed[..], offset, i, before, was, WordBytes(word));
    next := i + 8;
  }

  /** Bit by bit up to a whole byte, eight bits at a time through the table, and bit by bit to the end. */
  method UnpackLsbFirst(table: array<bv64>, packed: array<byte>, offset: nat, count: nat, out: array<byte>)
    requires out != packed && TableOk(table[..]) && count <= out.Length
    requires count > 0 ==> (offset + count - 1) / 8 < packed.Length
    modifies out
    ensures Unpacks(packed[..], offset, out[..count]) && out[count..] == old(out[count..])
  {
    hide OutSoFar, TableOk, Unpacks, WordBytes, BitValue, Val;
    ghost var bits, was := packed[..], out[..];
    var i := 0;
    NothingOut(bits, offset, was);
    while i < count && (offset + i) % 8 != 0
      invariant 0 <= i <= count && OutSoFar(bits, offset, i, out[..], was)
    {
      StillInside(offset, count, i, packed.Length);
      i := UnpackOne(packed, offset, i, out, was);
    }
    while i + 8 <= count
      invariant 0 <= i <= count && OutSoFar(bits, offset, i, out[..], was)
      invariant i + 8 <= count ==> (offset + i) % 8 == 0
    {
      StillInside(offset, count, i, packed.Length);
      i := UnpackEight(table, packed, offset, i, out, was);
    }
    while i < count
      invariant 0 <= i <= count && OutSoFar(bits, offset, i, out[..], was)
    {
      StillInside(offset, count, i, packed.Length);
      i := UnpackOne(packed, offset, i, out, was);
    }
    AllOut(bits, offset, count, out[..], was);
  }

  lemma StillInside(offset: nat, count: nat, i: nat, n: nat)
    requires i < count && (offset + count - 1) / 8 < n
    ensures (offset + i) / 8 < n
  {
  }

  lemma NothingOut(packed: seq<byte>, offset: nat, was: seq<byte>)
    ensures OutSoFar(packed, offset, 0, was, was)
  {
    hide IsBit;
  }

  lemma AllOut(packed: seq<byte>, offset: nat, count: nat, out: seq<byte>, was: seq<byte>)
    requires count <= |out| == |was| && OutSoFar(packed, offset, count, out, was)
    ensures Unpacks(packed, offset, out[..count]) && out[count..] == was[count..]
  {
    hide Unpacks;
  }
}
