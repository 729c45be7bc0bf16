/** The schema field codec of generated/lance_minimal.pb.cpp (`from_wire` / `to_wire` of Field): three key
    fields (12, 13, 15) live in the bytes the wire model does not know, everything else there is kept as it came. */
module FieldCodec {
  import opened Octets
  import opened ProtoWire

  const PRIMARY_KEY := 12
  const PRIMARY_KEY_POSITION := 13
  const CLUSTERING_KEY_POSITION := 15

  /** What the wire model reads of a Field message: its declared fields, and the bytes of all others. */
  datatype WireField = WireField(kind: int, name: string, id: int, parentId: int, logicalType: string,
                                 nullable: bool, encoding: int, metadata: map<string, seq<octet>>, unknown: seq<octet>)

  datatype Keys = Keys(primaryKey: bool, primaryKeyPosition: nat, clusteringKeyPosition: nat)

  datatype Field = Field(kind: int, name: string, id: int, parentId: int, logicalType: string, nullable: bool,
                         encoding: int, metadata: map<string, seq<octet>>, keys: Keys, unknown: seq<octet>)

  /** The key positions are 32-bit. */
  ghost predicate ValidKeys(k: Keys) {
    k.primaryKeyPosition < U32 && k.clusteringKeyPosition < U32
  }

  predicate IsKeyField(number: nat) {
    number == PRIMARY_KEY || number == PRIMARY_KEY_POSITION || number == CLUSTERING_KEY_POSITION
  }

  // ---- the records the codec drops, reads and writes -----------------------------------------------

  /** The records that are no key field, in order. */
  function Others(rs: seq<Record>): seq<Record> {
    if rs == [] then []
    else if IsKeyField(rs[0].number) then Others(rs[1..])
    else [rs[0]] + Others(rs[1..])
  }

  /** The value of the last varint record of this number; 0 when there is none (proto3). */
  function LastVarint(rs: seq<Record>, number: nat): nat {
    if rs == [] then 0
    else
      var r := rs[|rs| - 1];
      if r.number == number && r.wire == 0 then r.value else LastVarint(rs[..|rs| - 1], number)
  }

  function KeysOf(rs: seq<Record>): Keys {
    Keys(LastVarint(rs, PRIMARY_KEY) != 0, LastVarint(rs, PRIMARY_KEY_POSITION) % U32,
         LastVarint(rs, CLUSTERING_KEY_POSITION) % U32)
  }

  /** A record for a key field, left out when it is zero. */
  function KeyRecord(number: nat, value: nat): seq<Record> {
    if value != 0 then [VarintRecord(number, value)] else []
  }

  function KeyRecords(k: Keys): seq<Record> {
    KeyRecord(PRIMARY_KEY, if k.primaryKey then 1 else 0) + KeyRecord(PRIMARY_KEY_POSITION, k.primaryKeyPosition)
    + KeyRecord(CLUSTERING_KEY_POSITION, k.clusteringKeyPosition)
  }

  // ---- the loops -----------------------------------------------------------------------------------

  /** `bytes` without the key fields; what follows a malformed record is dropped with it. */
  method WithoutKeyFields(bytes: seq<octet>) returns (out: seq<octet>)
    ensures out == Join(Others(Split(bytes)))
  {
    out := [];
    var at := bytes;
    var next := ReadRecord(at);
    while next.Some?
      invariant next == ReadRecord(at)
      invariant out + Join(Others(Split(at))) == Join(Others(Split(bytes)))
      decreases |at|
    {
      var x := next.value;
      ghost var before := at;
      at := at[|x.bytes|..];
      assert Split(before) == [x] + Split(at);
      assert Split(before)[1..] == Split(at);
      if !IsKeyField(x.number) {
        assert ([x] + Others(Split(at)))[1..] == Others(Split(at));
        out := out + x.bytes;
      }
      next := ReadRecord(at);
    }
  }

  /** One record taken into the key fields. */
  function TakeIn(k: Keys, x: Record): Keys {
    if x.wire != 0 then k
    else if x.number == PRIMARY_KEY then k.(primaryKey := x.value != 0)
    else if x.number == PRIMARY_KEY_POSITION then k.(primaryKeyPosition := x.value % U32)
    else if x.number == CLUSTERING_KEY_POSITION then k.(clusteringKeyPosition := x.value % U32)
    else k
  }

  lemma KeysStep(rs: seq<Record>, x: Record)
    ensures KeysOf(rs + [x]) == TakeIn(KeysOf(rs), x)
  {
    assert (rs + [x])[..|rs|] == rs;
  }

  /** The key fields of `bytes`: the last varint of each number, cut to the field's type. */
  method ReadKeyFields(bytes: seq<octet>) returns (k: Keys)
    ensures k == KeysOf(Split(bytes))
  {
    hide ReadRecord, KeysOf, TakeIn;
    k := Keys(false, 0, 0);
    KeysOfNone();
    var at := bytes;
    ghost var read: seq<Record> := [];
    var next := ReadRecord(at);
    while next.Some?
      invariant next == ReadRecord(at)
      invariant read + Split(at) == Split(bytes) && k == KeysOf(read)
      decreases |at|
    {
      var x := next.value;
      KeysStep(read, x);
      assert Split(at) == [x] + Split(at[|x.bytes|..]);
      assert (read + [x]) + Split(at[|x.bytes|..]) == read + Split(at);
      at := at[|x.bytes|..];
      read := read + [x];
      k := TakeIn(k, x);
      next := ReadRecord(at);
    }
    assert read == Split(bytes);
  }

  lemma KeysOfNone()
    ensures KeysOf([]) == Keys(false, 0, 0)
  {
  }

  /** `put_key` and `put_varint`. */
  method PutVarintField(out: seq<octet>, number: nat, value: nat, ghost rs: seq<Record>) returns (r: seq<octet>)
    requires out == Join(rs)
    ensures r == Join(rs + [VarintRecord(number, value)])
  {
    JoinOne(rs, VarintRecord(number, value));
    r := out + (VarintBytes(8 * number) + VarintBytes(value));
  }

  /** The unknown bytes with their key fields replaced by the ones given. */
  method WireUnknownOf(unknown: seq<octet>, k: Keys) returns (out: seq<octet>)
    ensures out == Join(Others(Split(unknown)) + KeyRecords(k))
  {
    hide Join, Others, Split, VarintRecord;
    out := WithoutKeyFields(unknown);
    ghost var rs := Others(Split(unknown));
    if k.primaryKey {
      out := PutVarintField(out, PRIMARY_KEY, 1, rs);
      rs := rs + [VarintRecord(PRIMARY_KEY, 1)];
    }
    if k.primaryKeyPosition != 0 {
      out := PutVarintField(out, PRIMARY_KEY_POSITION, k.primaryKeyPosition, rs);
      rs := rs + [VarintRecord(PRIMARY_KEY_POSITION, k.primaryKeyPosition)];
    }
    if k.clusteringKeyPosition != 0 {
      out := PutVarintField(out, CLUSTERING_KEY_POSITION, k.clusteringKeyPosition, rs);
      rs := rs + [VarintRecord(CLUSTERING_KEY_POSITION, k.clusteringKeyPosition)];
    }
    assert rs == Others(Split(unknown)) + KeyRecords(k);
  }

  // ---- the codec -----------------------------------------------------------------------------------

  /** `from_wire`: a field that names itself as its parent is a root. */
  function FromWire(w: WireField): Field {
    Field(w.kind, w.name, w.id, if w.parentId == w.id then -1 else w.parentId, w.logicalType, w.nullable,
          w.encoding, w.metadata, KeysOf(Split(w.unknown)), Join(Others(Split(w.unknown))))
  }

  method ReadField(w: WireField) returns (f: Field)
    ensures f == FromWire(w)
  {
    var keys := ReadKeyFields(w.unknown);
    var unknown := WithoutKeyFields(w.unknown);
    f := Field(w.kind, w.name, w.id, w.parentId, w.logicalType, w.nullable, w.encoding, w.metadata, keys, unknown);
    if f.parentId == f.id {
      f := f.(parentId := -1);
    }
  }

  /** `to_wire`. */
  function ToWire(f: Field): WireField {
    WireField(f.kind, f.name, f.id, f.parentId, f.logicalType, f.nullable, f.encoding, f.metadata,
              Join(Others(Split(f.unknown)) + KeyRecords(f.keys)))
  }

  method WriteField(f: Field) returns (w: WireField)
    ensures w == ToWire(f)
  {
    var unknown := WireUnknownOf(f.unknown, f.keys);
    w := WireField(f.kind, f.name, f.id, f.parentId, f.logicalType, f.nullable, f.encoding, f.metadata, unknown);
  }

  // ---- what a round through the codec keeps --------------------------------------------------------

  lemma {:induction false} OthersMembers(rs: seq<Record>)
    ensures forall r :: r in Others(rs) <==> r in rs && !IsKeyField(r.number)
    decreases |rs|
  {
    if rs != [] {
      assert rs == [rs[0]] + rs[1..];
      OthersMembers(rs[1..]);
    }
  }

  lemma {:induction false} OthersConcat(a: seq<Record>, b: seq<Record>)
    ensures Others(a + b) == Others(a) + Others(b)
    decreases |a|
  {
    if a == [] {
      assert a + b == b;
    } else {
      OthersConcat(a[1..], b);
      assert (a + b)[1..] == a[1..] + b;
    }
  }

  /** Where there is no key field, nothing is dropped. */
  lemma {:induction false} OthersKeep(rs: seq<Record>)
    requires forall r :: r in rs ==> !IsKeyField(r.number)
    ensures Others(rs) == rs
    decreases |rs|
  {
    if rs != [] {
      assert rs[0] in rs;
      OthersKeep(rs[1..]);
      assert rs == [rs[0]] + rs[1..];
    }
  }

  /** Where there are only key fields, everything is. */
  lemma {:induction false} OthersDrop(rs: seq<Record>)
    requires forall r :: r in rs ==> IsKeyField(r.number)
    ensures Others(rs) == []
    decreases |rs|
  {
    if rs != [] {
      assert rs[0] in rs;
      OthersDrop(rs[1..]);
    }
  }

  lemma {:induction false} NoVarint(rs: seq<Record>, number: nat)
    requires forall r :: r in rs ==> r.number != number
    ensures LastVarint(rs, number) == 0
    decreases |rs|
  {
    if rs != [] {
      assert rs[|rs| - 1] in rs;
      NoVarint(rs[..|rs| - 1], number);
    }
  }

  lemma KeyRecordsAre(k: Keys)
    requires ValidKeys(k)
    ensures forall r :: r in KeyRecords(k) ==> IsRecord(r) && IsKeyField(r.number)
  {
    hide IsRecord, VarintBytes;
    VarintRecordRead(PRIMARY_KEY, 1);
    VarintRecordRead(PRIMARY_KEY_POSITION, k.primaryKeyPosition);
    VarintRecordRead(CLUSTERING_KEY_POSITION, k.clusteringKeyPosition);
  }

  lemma LastVarintAfter(rs: seq<Record>, number: nat, value: nat, other: nat)
    ensures LastVarint(rs + KeyRecord(number, value), other)
         == if other == number && value != 0 then value else LastVarint(rs, other)
  {
    if value != 0 {
      assert (rs + KeyRecord(number, value))[..|rs|] == rs;
    } else {
      assert rs + KeyRecord(number, value) == rs;
    }
  }

  /** The key records, read after anything without key fields, are the key fields. */
  lemma KeysRead(rs: seq<Record>, k: Keys)
    requires ValidKeys(k) && forall r :: r in rs ==> !IsKeyField(r.number)
    ensures KeysOf(rs + KeyRecords(k)) == k
  {
    hide KeyRecord, LastVarint;
    var one := if k.primaryKey then 1 else 0;
    var a := rs + KeyRecord(PRIMARY_KEY, one);
    var b := a + KeyRecord(PRIMARY_KEY_POSITION, k.primaryKeyPosition);
    assert rs + KeyRecords(k) == b + KeyRecord(CLUSTERING_KEY_POSITION, k.clusteringKeyPosition);
    forall n | IsKeyField(n)
      ensures LastVarint(rs + KeyRecords(k), n) == if n == PRIMARY_KEY then one
                                                   else if n == PRIMARY_KEY_POSITION then k.primaryKeyPosition
                                                   else k.clusteringKeyPosition
    {
      NoVarint(rs, n);
      LastVarintAfter(rs, PRIMARY_KEY, one, n);
      LastVarintAfter(a, PRIMARY_KEY_POSITION, k.primaryKeyPosition, n);
      LastVarintAfter(b, CLUSTERING_KEY_POSITION, k.clusteringKeyPosition, n);
    }
  }

  /** What is written is read as what was kept, then the key records. */
  lemma WrittenRecords(unknown: seq<octet>, k: Keys)
    requires ValidKeys(k)
    ensures Split(Join(Others(Split(unknown)) + KeyRecords(k))) == Others(Split(unknown)) + KeyRecords(k)
  {
    hide IsRecord, Others, KeyRecords, Split;
    var rs := Others(Split(unknown)) + KeyRecords(k);
    SplitRecords(unknown);
    OthersMembers(Split(unknown));
    KeyRecordsAre(k);
    SplitAll(rs);
  }

  lemma SplitAll(rs: seq<Record>)
    requires forall r :: r in rs ==> IsRecord(r)
    ensures Split(Join(rs)) == rs
  {
    hide IsRecord, ReadRecord;
    SplitJoin(rs, []);
    assert Join(rs) + [] == Join(rs);
    assert Split([]) == [] by { NothingToRead(); }
    assert rs + [] == rs;
  }

  lemma NothingToRead()
    ensures ReadRecord([]).None?
  {
  }

  /** Reading what was written: the kept records are kept, and the keys are the ones written. */
  lemma WrittenReadBack(unknown: seq<octet>, k: Keys)
    requires ValidKeys(k)
    ensures var written := Split(Join(Others(Split(unknown)) + KeyRecords(k)));
            Others(written) == Others(Split(unknown)) && KeysOf(written) == k
  {
    hide Split, Join, IsRecord, KeyRecords, KeysOf;
    WrittenRecords(unknown, k);
    var kept := Others(Split(unknown));
    OthersMembers(Split(unknown));
    KeysRead(kept, k);
    OthersConcat(kept, KeyRecords(k));
    OthersKeep(kept);
    KeyRecordsAre(k);
    OthersDrop(KeyRecords(k));
  }

  lemma KeysOfValid(rs: seq<Record>)
    ensures ValidKeys(KeysOf(rs))
  {
  }

  /** Decoding a field and encoding it again: every record that is no key field stays, byte for byte and in
      order; after them comes at most one record of each key number, with the last varint value cut to the
      field's type, left out when that is zero. */
  lemma RoundKeepsRecords(w: WireField)
    ensures Split(ToWire(FromWire(w)).unknown) == Others(Split(w.unknown)) + KeyRecords(KeysOf(Split(w.unknown)))
    ensures WellFormed(ToWire(FromWire(w)).unknown)
  {
    hide Split, Join, IsRecord, KeyRecords, KeysOf;
    var kept, k := Others(Split(w.unknown)), KeysOf(Split(w.unknown));
    KeysOfValid(Split(w.unknown));
    KeptAgain(w.unknown);
    WrittenRecords(Join(kept), k);
  }

  lemma KeptAgain(unknown: seq<octet>)
    ensures Others(Split(Join(Others(Split(unknown))))) == Others(Split(unknown))
  {
    hide Split, Join, IsRecord;
    SplitRecords(unknown);
    OthersMembers(Split(unknown));
    SplitAll(Others(Split(unknown)));
    OthersKeep(Others(Split(unknown)));
  }

  /** A second round changes nothing. */
  lemma SecondRoundSame(w: WireField)
    ensures FromWire(ToWire(FromWire(w))) == FromWire(w)
    ensures ToWire(FromWire(ToWire(FromWire(w)))) == ToWire(FromWire(w))
  {
    hide Split, Join, IsRecord, KeyRecords, KeysOf, Others;
    var f := FromWire(w);
    KeysOfValid(Split(w.unknown));
    WrittenReadBack(f.unknown, f.keys);
    KeptAgain(w.unknown);
  }

  /** A field in memory survives being written and read exactly when its unknown bytes are whole records without
      key fields and it does not name itself as its parent (unless both numbers are the root's -1). */
  lemma FieldRoundTrip(f: Field)
    requires ValidKeys(f.keys)
    ensures FromWire(ToWire(f)) == f
       <==> (f.parentId != f.id || f.parentId == -1)
            && WellFormed(f.unknown) && forall r :: r in Split(f.unknown) ==> !IsKeyField(r.number)
  {
    hide Split, Join, IsRecord, KeyRecords, KeysOf;
    WrittenReadBack(f.unknown, f.keys);
    assert FromWire(ToWire(f)).keys == f.keys;
    assert FromWire(ToWire(f)).unknown == Join(Others(Split(f.unknown)));
    KeptIff(f.unknown);
  }

  lemma KeptIff(unknown: seq<octet>)
    ensures Join(Others(Split(unknown))) == unknown
       <==> WellFormed(unknown) && forall r :: r in Split(unknown) ==> !IsKeyField(r.number)
  {
    hide Split, Join, IsRecord;
    SplitRecords(unknown);
    OthersMembers(Split(unknown));
    if Join(Others(Split(unknown))) == unknown {
      SplitAll(Others(Split(unknown)));
    }
    if forall r :: r in Split(unknown) ==> !IsKeyField(r.number) {
      OthersKeep(Split(unknown));
    }
  }

  /** A field that names itself as its parent comes back as a root. */
  lemma OwnParentLost(f: Field)
    requires f.parentId == f.id == 0
    ensures FromWire(ToWire(f)).parentId == -1
  {
  }

  /** Half a varint among the unknown bytes is dropped. */
  lemma BrokenTailLost(f: Field)
    requires f.unknown == [0x80] && ValidKeys(f.keys)
    ensures FromWire(ToWire(f)).unknown == []
  {
    hide KeyRecords, KeysOf, IsRecord;
    WrittenReadBack(f.unknown, f.keys);
    assert f.unknown[1..] == [];
    assert ReadRecord(f.unknown).None?;
  }
}
