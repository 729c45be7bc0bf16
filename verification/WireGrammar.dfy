/** The protobuf wire format by how it is written (the encoding section of the Protocol Buffers documentation), apart
    from the reader of src/base/proto_wire.hpp; and that the reader reads exactly that. */
module WireGrammar {
  import opened Options
  import opened Octets
  import opened ProtoWire

  // ---- varints -------------------------------------------------------------------------------------

  /** Base-128 digits, lowest first: at most ten, and not necessarily as few as possible. */
  predicate AreDigits(ds: seq<nat>) {
    1 <= |ds| <= 10 && AreLow(ds)
  }

  predicate AreLow(ds: seq<nat>) {
    forall i :: 0 <= i < |ds| ==> ds[i] < 128
  }

  function Number(ds: seq<nat>): nat {
    if ds == [] then 0 else ds[0] + 128 * Number(ds[1..])
  }

  /** What ten digits say beyond 64 bits is lost. */
  function Value(ds: seq<nat>): nat {
    Number(ds) % U64
  }

  /** Every digit but the last with its high bit set. */
  function VarintForm(ds: seq<nat>): (b: seq<octet>)
    requires AreLow(ds)
    ensures |b| == |ds|
    ensures forall i :: 0 <= i < |b| ==> b[i] == if i < |ds| - 1 then ds[i] + 128 else ds[i]
  {
    seq(|ds|, i requires 0 <= i < |ds| => if i < |ds| - 1 then ds[i] + 128 else ds[i])
  }

  lemma FormFirst(ds: seq<nat>)
    requires ds != [] && AreLow(ds)
    ensures AreLow(ds[1..]) && VarintForm(ds)[0] == ds[0] + (if |ds| > 1 then 128 else 0)
    ensures |ds| > 1 ==> VarintForm(ds)[1..] == VarintForm(ds[1..])
  {
  }

  lemma ReadFirst(b: seq<octet>, k: nat, acc: nat)
    requires k < 10 && b != []
    ensures b[0] < 128 ==> ReadVarint(b, k, acc) == Some((OrIn(acc, b[0], k), 1))
    ensures b[0] >= 128 ==>
              var more := ReadVarint(b[1..], k + 1, OrIn(acc, b[0] - 128, k));
              more.Some? ==> ReadVarint(b, k, acc) == Some((more.value.0, more.value.1 + 1))
  {
    hide OrIn;
  }

  /** Digits after k others. */
  lemma {:induction false} DigitsRead(ds: seq<nat>, b: seq<octet>, k: nat, acc: nat)
    requires ds != [] && k + |ds| <= 10 && AreLow(ds) && VarintForm(ds) <= b
    ensures ReadVarint(b, k, acc) == Some(((acc + Number(ds) * Pow128(k)) % U64, |ds|))
    decreases |ds|
  {
    hide OrIn, Pow128, VarintForm, ReadVarint;
    var d, rest := ds[0], ds[1..];
    FormFirst(ds);
    assert b[0] == VarintForm(ds)[0];
    assert d < 128;
    OrIs(acc, d, k);
    ReadFirst(b, k, acc);
    if rest == [] {
      DigitLast(d, Pow128(k));
    } else {
      DigitsRead(rest, b[1..], k + 1, OrIn(acc, d, k));
      PowNext(k);
      DigitNext(acc, d, Number(rest), Pow128(k), OrIn(acc, d, k));
    }
  }

  lemma OrIs(acc: nat, d: nat, k: nat)
    ensures OrIn(acc, d, k) == (acc + d * Pow128(k)) % U64
  {
  }

  lemma PowNext(k: nat)
    ensures Pow128(k + 1) == 128 * Pow128(k)
  {
  }

  lemma DigitLast(d: nat, p: nat)
    ensures (d + 128 * 0) * p == d * p
  {
  }

  lemma DigitNext(acc: nat, d: nat, n: nat, p: nat, sum: nat)
    requires sum == (acc + d * p) % U64
    ensures (sum + n * (128 * p)) % U64 == (acc + (d + 128 * n) * p) % U64
  {
    MulAdd(d, 128 * n, p);
    MulSwap(n, p);
    ModAdd(acc + d * p, n * (128 * p));
  }

  lemma ModAdd(a: nat, b: nat)
    ensures (a % U64 + b) % U64 == (a + b) % U64
  {
    var q := a / U64;
    assert a == a % U64 + q * U64;
    ModTurns(a % U64 + b, q);
  }

  lemma {:induction false} ModTurns(x: nat, q: nat)
    ensures (x + q * U64) % U64 == x % U64
    decreases q
  {
    if q > 0 {
      ModTurns(x, q - 1);
      assert x + q * U64 == x + (q - 1) * U64 + U64;
    }
  }

  /** What is read as a varint was written so. */
  lemma {:induction false} ReadIsDigits(b: seq<octet>, k: nat, acc: nat) returns (ds: seq<nat>)
    requires k <= 10 && ReadVarint(b, k, acc).Some?
    ensures |ds| == ReadVarint(b, k, acc).value.1 && 1 <= |ds| && k + |ds| <= 10
    ensures AreLow(ds) && VarintForm(ds) <= b
    decreases 10 - k
  {
    if b[0] < 128 {
      ds := [b[0]];
    } else {
      var rest := ReadIsDigits(b[1..], k + 1, OrIn(acc, b[0] % 128, k));
      ds := [b[0] % 128] + rest;
      forall i | 0 <= i < |ds| ensures VarintForm(ds)[i] == b[i] {
        if i > 0 { assert VarintForm(rest)[i - 1] == b[1..][i - 1]; }
      }
    }
  }

  /** A varint is read exactly where one is written, and as what was written. */
  lemma VarintIff(b: seq<octet>)
    ensures ReadVarint(b, 0, 0).Some? <==> exists ds :: AreDigits(ds) && VarintForm(ds) <= b
    ensures forall ds :: AreDigits(ds) && VarintForm(ds) <= b ==> ReadVarint(b, 0, 0) == Some((Value(ds), |ds|))
  {
    forall ds | AreDigits(ds) && VarintForm(ds) <= b ensures ReadVarint(b, 0, 0) == Some((Value(ds), |ds|)) {
      DigitsRead(ds, b, 0, 0);
      assert Number(ds) * Pow128(0) == Number(ds);
    }
    if ReadVarint(b, 0, 0).Some? {
      var ds := ReadIsDigits(b, 0, 0);
      assert AreDigits(ds);
    }
  }

  lemma VarintWritten(b: seq<octet>) returns (ds: seq<nat>)
    requires ReadVarint(b, 0, 0).Some?
    ensures AreDigits(ds) && |ds| <= |b| && VarintForm(ds) == b[..|ds|]
    ensures ReadVarint(b, 0, 0) == Some((Value(ds), |ds|))
  {
    hide ReadVarint, Value;
    VarintIff(b);
    ds :| AreDigits(ds) && VarintForm(ds) <= b;
  }

  // ---- fields --------------------------------------------------------------------------------------

  /** What follows a key: a varint, eight bytes, a length and so many bytes, or four bytes. */
  datatype Body =
    | Varint(digits: seq<nat>)
    | Eight(data: seq<octet>)
    | Sized(length: seq<nat>, data: seq<octet>)
    | Four(data: seq<octet>)

  /** A key and what follows it. */
  datatype Field = Field(key: seq<nat>, body: Body)

  /** The wire type of a body, as the key names it. */
  function WireOf(body: Body): nat {
    match body
    case Varint(_) => 0
    case Eight(_) => 1
    case Sized(_, _) => 2
    case Four(_) => 5
  }

  predicate BodyOk(body: Body) {
    match body
    case Varint(ds) => AreDigits(ds)
    case Eight(data) => |data| == 8
    case Sized(length, data) => AreDigits(length) && Value(length) == |data|
    case Four(data) => |data| == 4
  }

  predicate FieldOk(f: Field) {
    AreDigits(f.key) && BodyOk(f.body) && Value(f.key) % 8 == WireOf(f.body)
  }

  function BodyForm(body: Body): seq<octet>
    requires BodyOk(body)
  {
    match body
    case Varint(ds) => VarintForm(ds)
    case Eight(data) => data
    case Sized(length, data) => VarintForm(length) + data
    case Four(data) => data
  }

  function FieldForm(f: Field): seq<octet>
    requires FieldOk(f)
  {
    VarintForm(f.key) + BodyForm(f.body)
  }

  /** The record a written field is: its number, wire type and value, and all its bytes. */
  function RecordFor(f: Field): Record
    requires FieldOk(f)
  {
    Record(Value(f.key) / 8 % U32, WireOf(f.body), if f.body.Varint? then Value(f.body.digits) else 0, FieldForm(f))
  }

  lemma BodyRead(body: Body, b: seq<octet>)
    requires BodyOk(body) && BodyForm(body) <= b
    ensures ReadBody(WireOf(body), b)
         == Some((if body.Varint? then Value(body.digits) else 0, |BodyForm(body)|))
  {
    hide ReadVarint, VarintForm, AreLow, Value;
    match body
    case Varint(ds) => VarintIff(b);
    case Sized(length, data) =>
      assert VarintForm(length) <= BodyForm(body) <= b;
      VarintIff(b);
    case _ =>
  }

  lemma ReadIsBody(wire: nat, b: seq<octet>) returns (body: Body)
    requires ReadBody(wire, b).Some?
    ensures BodyOk(body) && WireOf(body) == wire && BodyForm(body) <= b
  {
    hide ReadVarint, VarintForm, Value, AreLow;
    if wire == 1 {
      body := Eight(b[..8]);
    } else if wire == 5 {
      body := Four(b[..4]);
    } else {
      var ds := VarintWritten(b);
      body := if wire == 0 then Varint(ds) else Sized(ds, b[|ds|..|ds| + Value(ds)]);
      assert b[..|ds|] <= b;
      assert wire == 2 ==> b[..|ds|] + b[|ds|..|ds| + Value(ds)] == b[..|ds| + Value(ds)];
    }
  }

  /** The reader yields a record exactly where a field is written, and it is that field's. */
  lemma RecordIff(b: seq<octet>)
    ensures ReadRecord(b).Some? <==> exists f :: FieldOk(f) && FieldForm(f) <= b
    ensures forall f :: FieldOk(f) && FieldForm(f) <= b ==> ReadRecord(b) == Some(RecordFor(f))
  {
    hide ReadRecord, FieldForm, RecordFor;
    forall f | FieldOk(f) && FieldForm(f) <= b ensures ReadRecord(b) == Some(RecordFor(f)) {
      FieldRead(f, b);
    }
    if ReadRecord(b).Some? {
      var f := ReadIsField(b);
    }
  }

  lemma FieldRead(f: Field, b: seq<octet>)
    requires FieldOk(f) && FieldForm(f) <= b
    ensures ReadRecord(b) == Some(RecordFor(f))
  {
    hide ReadVarint, VarintForm, ReadBody, BodyForm, BodyOk, AreLow, Value;
    var took := |f.key|;
    assert VarintForm(f.key) <= FieldForm(f) <= b;
    VarintIff(b);
    assert BodyForm(f.body) == FieldForm(f)[took..];
    assert BodyForm(f.body) <= b[took..];
    BodyRead(f.body, b[took..]);
    assert b[..took + |BodyForm(f.body)|] == FieldForm(f);
  }

  lemma ReadIsField(b: seq<octet>) returns (f: Field)
    requires ReadRecord(b).Some?
    ensures FieldOk(f) && FieldForm(f) <= b
  {
    hide ReadVarint, VarintForm, ReadBody, BodyForm, BodyOk, AreLow, Value;
    var key := VarintWritten(b);
    var body := ReadIsBody(Value(key) % 8, b[|key|..]);
    f := Field(key, body);
    assert b == b[..|key|] + b[|key|..];
  }

  /** The bytes `put_varint` writes are digits. */
  lemma WrittenDigits(v: nat) returns (ds: seq<nat>)
    requires v < U64
    ensures AreDigits(ds) && VarintForm(ds) == VarintBytes(v) && Value(ds) == v
  {
    hide ReadVarint, VarintBytes, Value;
    var b := VarintBytes(v);
    VarintRoundTrip(v, []);
    assert b + [] == b;
    ds := VarintWritten(b);
  }

  /** Whole records, and one more field. */
  lemma FieldAppended(u: seq<octet>, f: Field)
    requires WellFormed(u) && FieldOk(f)
    ensures Split(u + FieldForm(f)) == Split(u) + [RecordFor(f)] && WellFormed(u + FieldForm(f))
  {
    hide Split, ReadRecord, FieldForm, RecordFor, FieldOk, Join;
    var form, r := FieldForm(f), RecordFor(f);
    FieldAlone(f);
    SplitRecords(u);
    SplitJoin(Split(u), form);
    JoinOne(Split(u), r);
  }

  lemma FieldAlone(f: Field)
    requires FieldOk(f)
    ensures IsRecord(RecordFor(f)) && RecordFor(f).bytes == FieldForm(f) && Split(FieldForm(f)) == [RecordFor(f)]
  {
    hide FieldForm, FieldOk, ReadRecord;
    FieldRead(f, FieldForm(f));
    assert FieldForm(f)[|FieldForm(f)|..] == [] && Split([]) == [] by { NoneSplit(); }
  }

  lemma NoneSplit()
    ensures Split([]) == []
  {
  }
}
