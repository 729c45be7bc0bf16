/** The validity bitmap of src/encoding/repdef.cpp (`append_bit`): no bytes until the first null, then one bit an
    entry, lowest bit first. */
module Validity {
  import opened Bytes

  datatype Bits = Bits(length: nat, bytes: seq<byte>, nulls: nat)

  const NONE := Bits(0, [], 0)

  /** (1 << k) - 1. */
  function LowMask(k: nat): byte
    requires k < 8
  {
    if k == 0 then 0 else if k == 1 then 1 else if k == 2 then 3 else if k == 3 then 7
    else if k == 4 then 15 else if k == 5 then 31 else if k == 6 then 63 else 127
  }

  function Full(n: nat): seq<byte> {
    seq(n, _ => 0xFF)
  }

  function Last(bytes: seq<byte>, k: nat): seq<byte>
    requires bytes != [] && k < 8
  {
    bytes[|bytes| - 1 := bytes[|bytes| - 1] | Mask(k)]
  }

  /** `append_bit`. */
  function Append(b: Bits, valid: bool): Bits {
    var at := b.length;
    if b.bytes == [] then
      if valid then b.(length := at + 1)
      else Bits(at + 1, Full(at / 8) + [LowMask(at % 8)], b.nulls + 1)
    else
      var bytes := if at % 8 == 0 then b.bytes + [0] else b.bytes;
      if valid then Bits(at + 1, Last(bytes, at % 8), b.nulls) else Bits(at + 1, bytes, b.nulls + 1)
  }

  function Nulls(valid: seq<bool>): nat {
    if valid == [] then 0 else Nulls(valid[..|valid| - 1]) + if valid[|valid| - 1] then 0 else 1
  }

  /** Bit i of the bitmap is entry i, and the bits after the last entry are zero. */
  ghost predicate Spelled(bytes: seq<byte>, valid: seq<bool>) {
    |bytes| == (|valid| + 7) / 8 && forall i :: 0 <= i < 8 * |bytes| ==>
        Bit(bytes[i / 8], i % 8) == (i < |valid| && valid[i])
  }

  /** The bitmap says which entries are valid; it has no bytes exactly when all are. */
  ghost predicate Holds(b: Bits, valid: seq<bool>) {
    && b.length == |valid| && b.nulls == Nulls(valid)
    && (b.bytes == [] <==> b.nulls == 0)
    && (b.bytes != [] ==> Spelled(b.bytes, valid))
  }

  lemma LowMaskBits(k: nat, j: nat)
    requires k < 8 && j < 8
    ensures Bit(LowMask(k), j) <==> j < k
  {
  }

  lemma FullBits(j: nat)
    requires j < 8
    ensures Bit(0xFF, j) && !Bit(0, j)
  {
  }

  lemma {:induction false} NoNulls(valid: seq<bool>)
    ensures Nulls(valid) == 0 <==> forall i :: 0 <= i < |valid| ==> valid[i]
    decreases |valid|
  {
    if valid != [] {
      NoNulls(valid[..|valid| - 1]);
    }
  }

  lemma NullsPush(valid: seq<bool>, v: bool)
    ensures Nulls(valid + [v]) == Nulls(valid) + if v then 0 else 1
  {
    assert (valid + [v])[..|valid|] == valid;
  }

  /** The first null writes every entry before it as valid. */
  lemma FirstNull(valid: seq<bool>)
    requires forall i :: 0 <= i < |valid| ==> valid[i]
    ensures Spelled(Full(|valid| / 8) + [LowMask(|valid| % 8)], valid + [false])
  {
    hide Bit, LowMask;
    var at := |valid|;
    var bytes := Full(at / 8) + [LowMask(at % 8)];
    forall i | 0 <= i < 8 * |bytes|
      ensures Bit(bytes[i / 8], i % 8) == (i < at + 1 && (valid + [false])[i])
    {
      FullBits(i % 8);
      LowMaskBits(at % 8, i % 8);
    }
  }

  lemma NextByte(bytes: seq<byte>, valid: seq<bool>)
    requires Spelled(bytes, valid) && |valid| % 8 == 0
    ensures |bytes + [0]| == |valid| / 8 + 1
    ensures forall i :: 0 <= i < 8 * |bytes + [0]| ==> Bit((bytes + [0])[i / 8], i % 8) == (i < |valid| && valid[i])
  {
    hide Bit;
    var longer := bytes + [0];
    forall i | 0 <= i < 8 * |longer| ensures Bit(longer[i / 8], i % 8) == (i < |valid| && valid[i]) {
      FullBits(i % 8);
    }
  }

  /** One more entry in a bitmap that has room for it. */
  lemma SetNext(bytes: seq<byte>, valid: seq<bool>, v: bool)
    requires |bytes| == |valid| / 8 + 1
    requires forall i :: 0 <= i < 8 * |bytes| ==> Bit(bytes[i / 8], i % 8) == (i < |valid| && valid[i])
    ensures Spelled(if v then Last(bytes, |valid| % 8) else bytes, valid + [v])
  {
    hide Bit, Mask;
    var at := |valid|;
    var after := if v then Last(bytes, at % 8) else bytes;
    forall i | 0 <= i < 8 * |after|
      ensures Bit(after[i / 8], i % 8) == (i < at + 1 && (valid + [v])[i])
    {
      OrBit(bytes[|bytes| - 1], at % 8, i % 8);
      assert Bit(bytes[i / 8], i % 8) == (i < at && valid[i]);
    }
  }

  lemma AppendHolds(b: Bits, valid: seq<bool>, v: bool)
    requires Holds(b, valid)
    ensures Holds(Append(b, v), valid + [v])
  {
    hide Bit, Mask, LowMask, Spelled, Nulls, Last;
    NullsPush(valid, v);
    NoNulls(valid);
    if b.bytes == [] {
      if !v { FirstNull(valid); }
    } else {
      Room(b.bytes, valid);
      SetNext(if |valid| % 8 == 0 then b.bytes + [0] else b.bytes, valid, v);
      LastNotEmpty(b.bytes, |valid| % 8);
      LastNotEmpty(b.bytes + [0], |valid| % 8);
    }
  }

  lemma Room(bytes: seq<byte>, valid: seq<bool>)
    requires Spelled(bytes, valid)
    ensures var room := if |valid| % 8 == 0 then bytes + [0] else bytes;
      && |room| == |valid| / 8 + 1
      && forall i :: 0 <= i < 8 * |room| ==> Bit(room[i / 8], i % 8) == (i < |valid| && valid[i])
  {
    hide Bit;
    if |valid| % 8 == 0 { NextByte(bytes, valid); }
  }

  lemma LastNotEmpty(bytes: seq<byte>, k: nat)
    requires k < 8
    ensures bytes != [] ==> Last(bytes, k) != []
  {
  }
}
