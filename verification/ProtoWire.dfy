/** The protobuf wire helpers of src/base/proto_wire.hpp: the record reader and the varint writer. */
module ProtoWire {
  import opened Options
  import opened Octets

  const U32 := 0x1_0000_0000
  const U64 := 0x1_0000_0000_0000_0000

  function Pow128(k: nat): (p: nat)
    ensures p >= 1
  {
    if k == 0 then 1 else 128 * Pow128(k - 1)
  }

  // ---- varints -------------------------------------------------------------------------------------

  /** Seven bits more, or-ed in above the 7 * k read before: at places of their own, so they add up; those past
      bit 63 are shifted out. */
  function OrIn(acc: nat, bits: nat, k: nat): (r: nat)
    ensures r < U64
    ensures acc + Shifted(bits, k) < U64 ==> r == acc + Shifted(bits, k)
  {
    (acc + Shifted(bits, k)) % U64
  }

  /** v << 7k. */
  function Shifted(v: nat, k: nat): nat {
    v * Pow128(k)
  }

  /** Reads a varint of which k bytes, worth acc, were read before: at most ten bytes, seven bits each, lowest
      first. The value and how many more bytes it took. */
  function ReadVarint(b: seq<octet>, k: nat, acc: nat): (r: Option<(nat, nat)>)
    requires k <= 10
    ensures r.Some? ==> 1 <= r.value.1 <= |b| && r.value.0 < U64
    decreases 10 - k
  {
    if k == 10 || b == [] then None
    else
      var sum := OrIn(acc, b[0] % 128, k);
      if b[0] < 128 then Some((sum, 1))
      else
        match ReadVarint(b[1..], k + 1, sum)
        case None => None
        case Some((v, took)) => Some((v, took + 1))
  }

  /** `put_varint`. */
  function VarintBytes(v: nat): (s: seq<octet>)
    ensures |s| >= 1
  {
    if v >= 128 then [v % 128 + 128] + VarintBytes(v / 128) else [v]
  }

  /** What a varint is read from does not go past its own bytes. */
  lemma {:induction false} VarintLocal(b: seq<octet>, k: nat, acc: nat, rest: seq<octet>)
    requires k <= 10 && ReadVarint(b, k, acc).Some?
    ensures var took := ReadVarint(b, k, acc).value.1;
            ReadVarint(b[..took] + rest, k, acc) == ReadVarint(b, k, acc)
    decreases 10 - k
  {
    var took := ReadVarint(b, k, acc).value.1;
    var c := b[..took] + rest;
    assert c[0] == b[0];
    if b[0] >= 128 {
      var sum := OrIn(acc, b[0] % 128, k);
      VarintLocal(b[1..], k + 1, sum, rest);
      assert c[1..] == b[1..][..took - 1] + rest;
    }
  }

  lemma {:induction false} VarintRead(v: nat, k: nat, acc: nat, rest: seq<octet>)
    requires k <= 9 && acc < Pow128(k) && acc + Shifted(v, k) < U64
    ensures ReadVarint(VarintBytes(v) + rest, k, acc) == Some((acc + Shifted(v, k), |VarintBytes(v)|))
    decreases v
  {
    hide OrIn, Pow128, Shifted, ReadVarint, VarintBytes;
    var b := VarintBytes(v) + rest;
    if v < 128 {
      VarintLast(v, k, acc, rest);
    } else {
      var q, r := v / 128, v % 128;
      VarintHead(v, rest);
      SplitVarint(v, k, acc);
      PowBound(v, k);
      VarintRead(q, k + 1, acc + Shifted(r, k), rest);
      VarintStep(b, k, acc, r);
    }
  }

  lemma VarintLast(v: nat, k: nat, acc: nat, rest: seq<octet>)
    requires v < 128 && k <= 9 && acc + Shifted(v, k) < U64
    ensures ReadVarint(VarintBytes(v) + rest, k, acc) == Some((acc + Shifted(v, k), |VarintBytes(v)|))
  {
    hide OrIn, Shifted;
    var b := VarintBytes(v) + rest;
    assert b[0] == v && b[0] % 128 == v;
  }

  lemma VarintHead(v: nat, rest: seq<octet>)
    requires v >= 128
    ensures var b := VarintBytes(v) + rest;
            b[0] == v % 128 + 128 && b[1..] == VarintBytes(v / 128) + rest
            && |VarintBytes(v)| == |VarintBytes(v / 128)| + 1
  {
    ConsAppend(v % 128 + 128, VarintBytes(v / 128), rest);
  }

  lemma ConsAppend(x: octet, y: seq<octet>, rest: seq<octet>)
    ensures ([x] + y + rest)[0] == x && ([x] + y + rest)[1..] == y + rest
  {
  }

  /** One byte with more to come. */
  lemma VarintStep(b: seq<octet>, k: nat, acc: nat, r: nat)
    requires k <= 9 && b != [] && b[0] == r + 128 && r < 128 && acc + Shifted(r, k) < U64
    ensures var more := ReadVarint(b[1..], k + 1, acc + Shifted(r, k));
            more.Some? ==> ReadVarint(b, k, acc) == Some((more.value.0, more.value.1 + 1))
  {
    hide OrIn, Shifted;
    assert b[0] % 128 == r;
  }

  /** The low seven bits here and the rest one byte later. */
  lemma SplitVarint(v: nat, k: nat, acc: nat)
    requires acc < Pow128(k)
    ensures acc + Shifted(v % 128, k) < Pow128(k + 1)
    ensures Shifted(v % 128, k) + Shifted(v / 128, k + 1) == Shifted(v, k)
  {
    var q, r, p := v / 128, v % 128, Pow128(k);
    assert v == 128 * q + r;
    MulAdd(128 * q, r, p);
    MulSwap(q, p);
    MulLeq(r, 127, p);
  }

  lemma MulAdd(a: nat, b: nat, c: nat)
    ensures (a + b) * c == a * c + b * c
  {
  }

  lemma MulSwap(q: nat, p: nat)
    ensures 128 * q * p == q * (128 * p)
  {
  }

  lemma MulLeq(a: nat, b: nat, c: nat)
    requires a <= b
    ensures a * c <= b * c
  {
    MulAdd(a, b - a, c);
  }

  /** A value that needs another byte leaves room for it. */
  lemma PowBound(v: nat, k: nat)
    requires k <= 9 && v >= 128 && Shifted(v, k) < U64
    ensures k < 9
  {
    PowValues();
    MulLeq(128, v, Pow128(k));
  }

  lemma PowValues()
    ensures Pow128(9) == 0x8000_0000_0000_0000
  {
    assert Pow128(3) == 0x20_0000;
    assert Pow128(6) == 0x400_0000_0000;
  }

  /** Writing a 64-bit value and reading it back, whatever follows. */
  lemma VarintRoundTrip(v: nat, rest: seq<octet>)
    requires v < U64
    ensures ReadVarint(VarintBytes(v) + rest, 0, 0) == Some((v, |VarintBytes(v)|))
  {
    VarintRead(v, 0, 0, rest);
  }

  // ---- records -------------------------------------------------------------------------------------

  /** One field of a message: its number, wire type and value (of a varint), and all its bytes, key included. */
  datatype Record = Record(number: nat, wire: nat, value: nat, bytes: seq<octet>)

  /** How many bytes the body of a record of this wire type takes, and its value if it is a varint. */
  function ReadBody(wire: nat, b: seq<octet>): (r: Option<(nat, nat)>)
    ensures r.Some? ==> r.value.1 <= |b| && r.value.0 < U64
  {
    if wire == 0 then ReadVarint(b, 0, 0)
    else if wire == 1 then if |b| < 8 then None else Some((0, 8))
    else if wire == 2 then
      match ReadVarint(b, 0, 0)
      case None => None
      case Some((n, took)) => if n > |b| - took then None else Some((0, took + n))
    else if wire == 5 then if |b| < 4 then None else Some((0, 4))
    else None
  }

  /** The record at the front of b: the number is the key's high bits, cut to 32. */
  function ReadRecord(b: seq<octet>): (r: Option<Record>)
    ensures r.Some? ==> 1 <= |r.value.bytes| <= |b| && r.value.bytes == b[..|r.value.bytes|]
  {
    match ReadVarint(b, 0, 0)
    case None => None
    case Some((key, took)) =>
      match ReadBody(key % 8, b[took..])
      case None => None
      case Some((value, size)) => Some(Record(key / 8 % U32, key % 8, value, b[..took + size]))
  }

  /** The records the reader yields: up to the end, or up to the first malformed one. */
  function Split(b: seq<octet>): seq<Record>
    decreases |b|
  {
    match ReadRecord(b)
    case None => []
    case Some(r) => [r] + Split(b[|r.bytes|..])
  }

  function Join(rs: seq<Record>): seq<octet> {
    if rs == [] then [] else rs[0].bytes + Join(rs[1..])
  }

  lemma {:induction false} JoinOne(rs: seq<Record>, r: Record)
    ensures Join(rs + [r]) == Join(rs) + r.bytes
    decreases |rs|
  {
    if rs == [] {
      assert rs + [r] == [r] && [r][1..] == [];
    } else {
      JoinOne(rs[1..], r);
      assert (rs + [r])[1..] == rs[1..] + [r];
    }
  }

  /** The records cover b to its end. */
  predicate WellFormed(b: seq<octet>) {
    Join(Split(b)) == b
  }

  lemma BodyLocal(wire: nat, b: seq<octet>, rest: seq<octet>)
    requires ReadBody(wire, b).Some?
    ensures var size := ReadBody(wire, b).value.1;
            ReadBody(wire, b[..size] + rest) == ReadBody(wire, b)
  {
    hide ReadVarint;
    var size := ReadBody(wire, b).value.1;
    if wire == 0 {
      VarintLocal(b, 0, 0, rest);
    } else if wire == 2 {
      var took := ReadVarint(b, 0, 0).value.1;
      VarintLocal(b, 0, 0, b[took..size] + rest);
      assert b[..took] + (b[took..size] + rest) == b[..size] + rest;
    }
  }

  /** A record is read the same whatever follows it. */
  lemma RecordLocal(b: seq<octet>, rest: seq<octet>)
    requires ReadRecord(b).Some?
    ensures ReadRecord(ReadRecord(b).value.bytes + rest) == ReadRecord(b)
  {
    hide ReadVarint, ReadBody;
    var r := ReadRecord(b).value;
    var took := ReadVarint(b, 0, 0).value.1;
    var size := |r.bytes| - took;
    var key := ReadVarint(b, 0, 0).value.0;
    VarintLocal(b, 0, 0, b[took..took + size] + rest);
    assert b[..took] + (b[took..took + size] + rest) == r.bytes + rest;
    BodyLocal(key % 8, b[took..], rest);
    assert (r.bytes + rest)[took..] == b[took..][..size] + rest;
    assert (r.bytes + rest)[..took + size] == r.bytes;
  }

  /** r is what some bytes are read as. */
  ghost predicate IsRecord(r: Record) {
    ReadRecord(r.bytes) == Some(r)
  }

  /** Splitting takes records off the front for as long as there is one: what it takes is a front of the bytes,
      each element is a record, and no record can be read from what is left. */
  lemma {:induction false} SplitRecords(b: seq<octet>)
    ensures forall r :: r in Split(b) ==> IsRecord(r)
    ensures Join(Split(b)) <= b && ReadRecord(b[|Join(Split(b))|..]) == None
    decreases |b|
  {
    hide ReadRecord;
    if ReadRecord(b).Some? {
      var r := ReadRecord(b).value;
      RecordLocal(b, []);
      assert r.bytes + [] == r.bytes;
      var rest := b[|r.bytes|..];
      SplitRecords(rest);
      assert Split(b)[1..] == Split(rest) && Join(Split(b)) == r.bytes + Join(Split(rest));
      assert b == r.bytes + rest && b[|Join(Split(b))|..] == rest[|Join(Split(rest))|..];
    }
  }

  /** Nothing else does: records that make up a front of the bytes, with no record after them, are the split. */
  lemma SplitOnly(b: seq<octet>, rs: seq<Record>)
    requires (forall r :: r in rs ==> IsRecord(r)) && Join(rs) <= b && ReadRecord(b[|Join(rs)|..]) == None
    ensures Split(b) == rs
  {
    hide ReadRecord, IsRecord, Join;
    assert b == Join(rs) + b[|Join(rs)|..];
    SplitJoin(rs, b[|Join(rs)|..]);
  }

  lemma SplitCons(r: Record, more: seq<octet>)
    requires IsRecord(r)
    ensures Split(r.bytes + more) == [r] + Split(more)
  {
    hide ReadRecord;
    RecordLocal(r.bytes, more);
    assert (r.bytes + more)[|r.bytes|..] == more;
  }

  /** Joined records are split into the same records, and then the rest is. */
  lemma {:induction false} SplitJoin(rs: seq<Record>, rest: seq<octet>)
    requires forall r :: r in rs ==> IsRecord(r)
    ensures Split(Join(rs) + rest) == rs + Split(rest)
    decreases |rs|
  {
    hide Split, IsRecord;
    if rs == [] {
      assert Join(rs) + rest == rest && rs + Split(rest) == Split(rest);
    } else {
      var r, more := rs[0], Join(rs[1..]) + rest;
      assert Join(rs) + rest == r.bytes + more;
      SplitCons(r, more);
      SplitJoin(rs[1..], rest);
      assert [r] + (rs[1..] + Split(rest)) == rs + Split(rest);
    }
  }

  /** `put_key` and `put_varint`: a varint record. */
  function VarintRecord(number: nat, value: nat): Record {
    Record(number, 0, value, VarintBytes(8 * number) + VarintBytes(value))
  }

  lemma VarintRecordRead(number: nat, value: nat)
    requires number < U32 && value < U64
    ensures IsRecord(VarintRecord(number, value))
  {
    hide ReadVarint, VarintBytes;
    var b := VarintBytes(8 * number) + VarintBytes(value);
    VarintRoundTrip(8 * number, VarintBytes(value));
    var took := |VarintBytes(8 * number)|;
    assert b[took..] == VarintBytes(value) + [];
    VarintRoundTrip(value, []);
    assert b[..took + |VarintBytes(value)|] == b;
    assert 8 * number / 8 == number && number % U32 == number;
  }
}
