/** The schema field codec of generated/lance_minimal.pb.cpp on bytes: what a field written after the others does to
    a decoded Field, with the numbers of the key fields written out. */
module KeyFields {
  import opened Octets
  import opened ProtoWire
  import opened FieldCodec
  import Wire = WireGrammar

  function NumberOf(f: Wire.Field): nat {
    Wire.Value(f.key) / 8 % 0x1_0000_0000
  }

  lemma OthersOne(rs: seq<Record>, r: Record)
    ensures Others(rs + [r]) == Others(rs) + if r.number in {12, 13, 15} then [] else [r]
  {
    OthersConcat(rs, [r]);
    assert [r][1..] == [];
  }

  /** Reading whole records with one more field after them. */
  lemma OneMore(w: WireField, f: Wire.Field)
    requires WellFormed(w.unknown) && Wire.FieldOk(f)
    ensures var more := FromWire(w.(unknown := w.unknown + Wire.FieldForm(f)));
            && WellFormed(w.unknown + Wire.FieldForm(f))
            && more == FromWire(w).(keys := TakeIn(FromWire(w).keys, Wire.RecordFor(f)), unknown := more.unknown)
            && more.unknown == FromWire(w).unknown + if NumberOf(f) in {12, 13, 15} then [] else Wire.FieldForm(f)
  {
    hide Split, Join, Others, KeysOf, TakeIn, Wire.FieldForm, Wire.FieldOk, WellFormed;
    var rs, r := Split(w.unknown), Wire.RecordFor(f);
    Wire.FieldAppended(w.unknown, f);
    KeysStep(rs, r);
    OthersOne(rs, r);
    JoinOne(Others(rs), r);
    assert Others(rs) + [] == Others(rs) && Join(Others(rs)) + [] == Join(Others(rs));
  }

  /** A field that is none of 12, 13 and 15 is kept after the others, byte for byte, whatever its wire type. */
  lemma OtherKept(w: WireField, f: Wire.Field)
    requires WellFormed(w.unknown) && Wire.FieldOk(f) && NumberOf(f) !in {12, 13, 15}
    ensures FromWire(w.(unknown := w.unknown + Wire.FieldForm(f)))
         == FromWire(w).(unknown := FromWire(w).unknown + Wire.FieldForm(f))
  {
    hide FromWire, Wire.FieldForm, Wire.FieldOk, WellFormed;
    OneMore(w, f);
  }

  /** One of those numbers that is no varint changes nothing, and is dropped. */
  lemma OddKeyDropped(w: WireField, f: Wire.Field)
    requires WellFormed(w.unknown) && Wire.FieldOk(f) && NumberOf(f) in {12, 13, 15} && !f.body.Varint?
    ensures FromWire(w.(unknown := w.unknown + Wire.FieldForm(f))) == FromWire(w)
  {
    hide FromWire, Wire.FieldForm, Wire.FieldOk, WellFormed;
    OneMore(w, f);
    assert FromWire(w).unknown + [] == FromWire(w).unknown;
  }

  /** The bytes of a varint field with a small number. */
  function Bytes(key: octet, v: nat): seq<octet> {
    [key] + VarintBytes(v)
  }

  lemma WrittenKey(key: octet, v: nat) returns (f: Wire.Field)
    requires key < 128 && key % 8 == 0 && v < U64
    ensures Wire.FieldOk(f) && Wire.FieldForm(f) == Bytes(key, v) && f.body.Varint?
    ensures NumberOf(f) == key / 8
    ensures Wire.RecordFor(f) == Record(key / 8, 0, v, Bytes(key, v))
  {
    hide VarintBytes;
    var ds := Wire.WrittenDigits(v);
    f := Wire.Field([key], Wire.Varint(ds));
    assert Wire.VarintForm([key]) == [key];
    assert [key][1..] == [] && Wire.Number([key]) == key;
  }

  /** The keys on the wire: 12 is the primary key, 13 its position, 15 the clustering position. One written after the
      others sets that field of the decoded one and nothing else. */
  lemma KeySet(w: WireField, v: nat)
    requires WellFormed(w.unknown) && v < 0x1_0000_0000_0000_0000
    ensures FromWire(w.(unknown := w.unknown + Bytes(0x60, v)))
         == FromWire(w).(keys := FromWire(w).keys.(primaryKey := v != 0))
    ensures FromWire(w.(unknown := w.unknown + Bytes(0x68, v)))
         == FromWire(w).(keys := FromWire(w).keys.(primaryKeyPosition := v % 0x1_0000_0000))
    ensures FromWire(w.(unknown := w.unknown + Bytes(0x78, v)))
         == FromWire(w).(keys := FromWire(w).keys.(clusteringKeyPosition := v % 0x1_0000_0000))
  {
    hide FromWire, Wire.FieldForm, Wire.FieldOk, WellFormed, Bytes;
    assert FromWire(w).unknown + [] == FromWire(w).unknown;
    var a := WrittenKey(0x60, v);
    OneMore(w, a);
    var b := WrittenKey(0x68, v);
    OneMore(w, b);
    var c := WrittenKey(0x78, v);
    OneMore(w, c);
  }

  /** That a record written after the others is read after them needs whole records before it, and only that: half a
      record would run into it. */
  lemma AppendedIff(u: seq<octet>)
    ensures (forall v :: 0 <= v < U64 ==> Split(u + Bytes(0x60, v)) == Split(u) + [Record(12, 0, v, Bytes(0x60, v))])
       <==> WellFormed(u)
  {
    hide Split, Join, Bytes;
    if WellFormed(u) {
      forall v | 0 <= v < U64 ensures Split(u + Bytes(0x60, v)) == Split(u) + [Record(12, 0, v, Bytes(0x60, v))] {
        var f := WrittenKey(0x60, v);
        Wire.FieldAppended(u, f);
      }
    } else {
      HalfRunsInto(u);
    }
  }

  lemma HalfRunsInto(u: seq<octet>)
    requires !WellFormed(u)
    ensures exists v :: 0 <= v < U64 && Split(u + Bytes(0x60, v)) != Split(u) + [Record(12, 0, v, Bytes(0x60, v))]
  {
    hide Split, Join;
    SplitRecords(u);
    var n := |Join(Split(u))|;
    assert u[..n] == Join(Split(u)) && u[..|u|] == u;
    assert n < |u|;
    forall v: nat | v < 2 && Split(u + Bytes(0x60, v)) == Split(u) + [Record(12, 0, v, Bytes(0x60, v))]
      ensures (u + Bytes(0x60, v))[n + 1] == v
    {
      SplitRecords(u + Bytes(0x60, v));
      JoinOne(Split(u), Record(12, 0, v, Bytes(0x60, v)));
      assert VarintBytes(v) == [v];
      assert (Join(Split(u)) + [0x60, v])[n + 1] == v;
    }
    var zero, one := u + Bytes(0x60, 0), u + Bytes(0x60, 1);
    assert n + 1 < |u| ==> zero[n + 1] == one[n + 1] == u[n + 1];
    assert n + 1 == |u| ==> zero[n + 1] == 0x60;
    assert 0 < U64 && 1 < U64;
  }

  /** Whatever follows the last whole record does not matter. */
  lemma FrontOnly(w: WireField)
    ensures var front := Join(Split(w.unknown));
            WellFormed(front) && FromWire(w.(unknown := front)) == FromWire(w)
  {
    hide Split, Join, Others, KeysOf;
    SplitRecords(w.unknown);
    SplitAll(Split(w.unknown));
  }

  /** So a later one wins over an earlier one. */
  lemma LaterWins(w: WireField, key: octet, v: nat, later: nat)
    requires WellFormed(w.unknown) && key in {0x60, 0x68, 0x78} && v < U64 && later < U64
    ensures FromWire(w.(unknown := w.unknown + Bytes(key, v) + Bytes(key, later)))
         == FromWire(w.(unknown := w.unknown + Bytes(key, later)))
  {
    hide FromWire, WellFormed, Bytes, Wire.FieldForm, Wire.FieldOk;
    var f := WrittenKey(key, v);
    OneMore(w, f);
    KeySet(w, v);
    KeySet(w, later);
    var mid := w.(unknown := w.unknown + Bytes(key, v));
    KeySet(mid, later);
  }

  /** What is written: the other records, then the keys that are set, by these bytes. */
  lemma WrittenBytes(f: Field)
    ensures ToWire(f).unknown
         == Join(Others(Split(f.unknown)))
            + (if f.keys.primaryKey then [0x60, 1] else [])
            + (if f.keys.primaryKeyPosition != 0 then Bytes(0x68, f.keys.primaryKeyPosition) else [])
            + (if f.keys.clusteringKeyPosition != 0 then Bytes(0x78, f.keys.clusteringKeyPosition) else [])
  {
    hide Split, Others;
    var rs := Others(Split(f.unknown));
    var one := if f.keys.primaryKey then 1 else 0;
    var a := rs + KeyRecord(12, one);
    var b := a + KeyRecord(13, f.keys.primaryKeyPosition);
    assert rs + KeyRecords(f.keys) == b + KeyRecord(15, f.keys.clusteringKeyPosition);
    JoinKey(rs, 12, one);
    JoinKey(a, 13, f.keys.primaryKeyPosition);
    JoinKey(b, 15, f.keys.clusteringKeyPosition);
    assert Bytes(0x60, 1) == [0x60, 1];
  }

  lemma JoinKey(rs: seq<Record>, number: nat, value: nat)
    requires number < 16
    ensures Join(rs + KeyRecord(number, value)) == Join(rs) + if value != 0 then Bytes(8 * number, value) else []
  {
    if value == 0 {
      assert rs + [] == rs;
    } else {
      JoinOne(rs, VarintRecord(number, value));
      assert VarintBytes(8 * number) == [8 * number];
    }
  }

  /** A fixed 32-bit field 11 and then the primary key: the five bytes are kept and the key is set. */
  lemma FixedThenKey(w: WireField)
    requires w.unknown == []
    ensures FromWire(w.(unknown := [0x5D, 1, 2, 3, 4, 0x60, 1]))
         == FromWire(w).(keys := Keys(true, 0, 0), unknown := [0x5D, 1, 2, 3, 4])
  {
    hide FromWire, WellFormed, Wire.FieldForm, Wire.FieldOk, Bytes, NumberOf;
    var f, five := Wire.Field([0x5D], Wire.Four([1, 2, 3, 4])), [0x5D, 1, 2, 3, 4];
    FixedForm();
    NothingKept(w);
    OneMore(w, f);
    OtherKept(w, f);
    assert [] + five == five;
    KeySet(w.(unknown := five), 1);
    FixedBytes();
  }

  lemma FixedForm()
    ensures Wire.FieldOk(Wire.Field([0x5D], Wire.Four([1, 2, 3, 4])))
    ensures Wire.FieldForm(Wire.Field([0x5D], Wire.Four([1, 2, 3, 4]))) == [0x5D, 1, 2, 3, 4]
    ensures NumberOf(Wire.Field([0x5D], Wire.Four([1, 2, 3, 4]))) == 11
  {
    assert [0x5D][1..] == [] && Wire.Number([0x5D]) == 0x5D;
    assert Wire.VarintForm([0x5D]) == [0x5D];
  }

  lemma FixedBytes()
    ensures [0x5D, 1, 2, 3, 4] + Bytes(0x60, 1) == [0x5D, 1, 2, 3, 4, 0x60, 1]
  {
    assert VarintBytes(1) == [1];
  }

  lemma NothingKept(w: WireField)
    requires w.unknown == []
    ensures WellFormed(w.unknown) && FromWire(w).keys == Keys(false, 0, 0) && FromWire(w).unknown == []
  {
    Wire.NoneSplit();
  }
}
