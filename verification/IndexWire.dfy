/** The index messages and the index section on the protobuf wire: a message's records, its fragment bitmap the
    length-delimited field 5, a section's messages its length-delimited fields 1. */
module IndexWire {
  import opened Options
  import opened Octets
  import opened Bytes
  import ProtoWire
  import IndexMessages

  const BITMAP := 5
  const INDICES := 1
  const LENGTH_DELIMITED := 2

  // ---- bytes as numbers and back -------------------------------------------------------------------

  function Numbers(b: seq<byte>): (o: seq<octet>)
    ensures |o| == |b|
  {
    seq(|b|, i requires 0 <= i < |b| => Number(b[i]))
  }

  function Number(b: byte): octet {
    ValBelow(b);
    Val(b)
  }

  lemma ValBelow(b: byte)
    ensures 0 <= Val(b) < 256
  {
  }

  function BytesOf(o: seq<octet>): (b: seq<byte>)
    ensures |b| == |o|
  {
    seq(|o|, i requires 0 <= i < |o| => Byte(o[i]))
  }

  lemma NumbersBack(o: seq<octet>)
    ensures Numbers(BytesOf(o)) == o
  {
    hide Byte, Val;
    forall i | 0 <= i < |o| ensures Numbers(BytesOf(o))[i] == o[i] { ValByte(o[i]); }
  }

  lemma BytesBack(b: seq<byte>)
    ensures BytesOf(Numbers(b)) == b
  {
    hide Byte, Val;
    forall i | 0 <= i < |b| ensures BytesOf(Numbers(b))[i] == b[i] { ByteVal(b[i]); }
  }

  // ---- length-delimited records --------------------------------------------------------------------

  /** `number`, then the length, then the bytes. */
  function LengthRecord(number: nat, body: seq<octet>): ProtoWire.Record {
    ProtoWire.Record(number, LENGTH_DELIMITED, 0,
                     ProtoWire.VarintBytes(8 * number + LENGTH_DELIMITED) + (ProtoWire.VarintBytes(|body|) + body))
  }

  lemma LengthRecordRead(number: nat, body: seq<octet>)
    requires number < ProtoWire.U32 && |body| < ProtoWire.U64
    ensures ProtoWire.IsRecord(LengthRecord(number, body)) && BodyOf(LengthRecord(number, body)) == body
  {
    hide ProtoWire.ReadVarint, ProtoWire.VarintBytes;
    var key := 8 * number + LENGTH_DELIMITED;
    var b, tail := LengthRecord(number, body).bytes, ProtoWire.VarintBytes(|body|) + body;
    ProtoWire.VarintRoundTrip(key, tail);
    ProtoWire.VarintRoundTrip(|body|, body);
    var took := |ProtoWire.VarintBytes(key)|;
    assert b[took..] == tail && b[..took + |tail|] == b;
    assert key / 8 == number && key % 8 == LENGTH_DELIMITED && number % ProtoWire.U32 == number;
    assert tail[|ProtoWire.VarintBytes(|body|)|..] == body;
  }

  /** The bytes of a length-delimited record after its key and its length. */
  function BodyOf(r: ProtoWire.Record): seq<octet> {
    match ProtoWire.ReadVarint(r.bytes, 0, 0)
    case None => []
    case Some((_, took)) =>
      if took > |r.bytes| then []
      else
        match ProtoWire.ReadVarint(r.bytes[took..], 0, 0)
        case None => []
        case Some((_, more)) => if took + more > |r.bytes| then [] else r.bytes[took + more..]
  }

  predicate IsBitmap(r: ProtoWire.Record) {
    r.number == BITMAP && r.wire == LENGTH_DELIMITED
  }

  // ---- messages ------------------------------------------------------------------------------------

  ghost predicate OtherRecords(rs: seq<ProtoWire.Record>) {
    forall r :: r in rs ==> ProtoWire.IsRecord(r) && !IsBitmap(r)
  }

  /** Records that say everything but the bitmap, in their order. */
  type Others = rs: seq<ProtoWire.Record> | OtherRecords(rs) ghost witness []

  function NotBitmaps(rs: seq<ProtoWire.Record>): (o: seq<ProtoWire.Record>)
    ensures forall r :: r in o <==> r in rs && !IsBitmap(r)
  {
    if rs == [] then [] else (if IsBitmap(rs[0]) then [] else [rs[0]]) + NotBitmaps(rs[1..])
  }

  /** The last bitmap wins, as for every field that is not repeated. */
  function LastBitmap(rs: seq<ProtoWire.Record>): Option<seq<byte>> {
    if rs == [] then None
    else
      var later := LastBitmap(rs[1..]);
      if later.Some? then later else if IsBitmap(rs[0]) then Some(BytesOf(BodyOf(rs[0]))) else None
  }

  ghost function DecodeWire(data: seq<byte>): Option<IndexMessages.Wire<Others>> {
    var b := Numbers(data);
    if !ProtoWire.WellFormed(b) then None
    else
      ProtoWire.SplitRecords(b);
      Some(IndexMessages.Wire(LastBitmap(ProtoWire.Split(b)), NotBitmaps(ProtoWire.Split(b))))
  }

  function RecordsOf(w: IndexMessages.Wire<Others>): seq<ProtoWire.Record> {
    (if w.bitmap.None? then [] else [LengthRecord(BITMAP, Numbers(w.bitmap.value))]) + w.others
  }

  function EncodeWire(w: IndexMessages.Wire<Others>): seq<byte> {
    BytesOf(ProtoWire.Join(RecordsOf(w)))
  }

  lemma {:induction false} OthersStay(rs: seq<ProtoWire.Record>)
    requires forall r :: r in rs ==> !IsBitmap(r)
    ensures NotBitmaps(rs) == rs && LastBitmap(rs) == None
    decreases |rs|
  {
    if rs != [] {
      assert rs[0] in rs && rs == [rs[0]] + rs[1..];
      OthersStay(rs[1..]);
    }
  }

  lemma JoinedBack(rs: seq<ProtoWire.Record>)
    requires forall r :: r in rs ==> ProtoWire.IsRecord(r)
    ensures ProtoWire.Split(ProtoWire.Join(rs)) == rs && ProtoWire.WellFormed(ProtoWire.Join(rs))
  {
    hide ProtoWire.IsRecord, ProtoWire.Split, ProtoWire.Join;
    ProtoWire.SplitJoin(rs, []);
    assert ProtoWire.Join(rs) + [] == ProtoWire.Join(rs);
    assert ProtoWire.Split([]) == [] by { NothingSplit(); }
    assert rs + [] == rs;
  }

  lemma NothingSplit()
    ensures ProtoWire.Split([]) == []
  {
  }

  lemma MessageBack(w: IndexMessages.Wire<Others>)
    requires IndexMessages.Short(w)
    ensures DecodeWire(EncodeWire(w)) == Some(w)
  {
    hide ProtoWire.IsRecord, ProtoWire.Split, ProtoWire.Join, BodyOf, ProtoWire.WellFormed, LengthRecord;
    var rs := RecordsOf(w);
    OthersStay(w.others);
    if w.bitmap.Some? {
      var r := LengthRecord(BITMAP, Numbers(w.bitmap.value));
      LengthRecordRead(BITMAP, Numbers(w.bitmap.value));
      BytesBack(w.bitmap.value);
      assert IsBitmap(r) by { RecordHead(BITMAP, Numbers(w.bitmap.value)); }
      assert rs[0] == r && rs[1..] == w.others;
      assert [] + w.others == w.others;
      assert NotBitmaps(rs) == w.others && LastBitmap(rs) == w.bitmap;
    } else {
      assert rs == w.others;
    }
    JoinedBack(rs);
    NumbersBack(ProtoWire.Join(rs));
  }

  lemma RecordHead(number: nat, body: seq<octet>)
    ensures LengthRecord(number, body).number == number && LengthRecord(number, body).wire == LENGTH_DELIMITED
  {
  }

  // ---- sections ------------------------------------------------------------------------------------

  function MessageRecords(ms: seq<seq<byte>>): seq<ProtoWire.Record> {
    if ms == [] then [] else [LengthRecord(INDICES, Numbers(ms[0]))] + MessageRecords(ms[1..])
  }

  /** The messages among the records; what other fields a section has is passed over. */
  function MessagesIn(rs: seq<ProtoWire.Record>): seq<seq<byte>> {
    if rs == [] then []
    else
      (if rs[0].number == INDICES && rs[0].wire == LENGTH_DELIMITED then [BytesOf(BodyOf(rs[0]))] else [])
      + MessagesIn(rs[1..])
  }

  function DecodeSectionWire(data: seq<byte>): Option<seq<seq<byte>>> {
    var b := Numbers(data);
    if !ProtoWire.WellFormed(b) then None else Some(MessagesIn(ProtoWire.Split(b)))
  }

  function EncodeSectionWire(ms: seq<seq<byte>>): seq<byte> {
    BytesOf(ProtoWire.Join(MessageRecords(ms)))
  }

  lemma {:induction false} MessagesBack(ms: seq<seq<byte>>)
    requires IndexMessages.AllShort(ms)
    ensures MessagesIn(MessageRecords(ms)) == ms
    ensures forall r :: r in MessageRecords(ms) ==> ProtoWire.IsRecord(r)
    decreases |ms|
  {
    hide ProtoWire.IsRecord, BodyOf, LengthRecord;
    if ms != [] {
      var rs := MessageRecords(ms);
      LengthRecordRead(INDICES, Numbers(ms[0]));
      RecordHead(INDICES, Numbers(ms[0]));
      BytesBack(ms[0]);
      MessagesBack(ms[1..]);
      assert rs[1..] == MessageRecords(ms[1..]);
    }
  }

  lemma SectionBack(ms: seq<seq<byte>>)
    requires IndexMessages.AllShort(ms)
    ensures DecodeSectionWire(EncodeSectionWire(ms)) == Some(ms)
  {
    hide ProtoWire.IsRecord, ProtoWire.Split, ProtoWire.Join, ProtoWire.WellFormed, MessageRecords, MessagesIn;
    MessagesBack(ms);
    JoinedBack(MessageRecords(ms));
    NumbersBack(ProtoWire.Join(MessageRecords(ms)));
  }

  ghost function WireCodec(): IndexMessages.Codec<Others> {
    IndexMessages.Codec(DecodeWire, EncodeWire, DecodeSectionWire, EncodeSectionWire)
  }

  /** The wire format meets the codec's premise, for all messages and all sections. */
  lemma WireSound()
    ensures IndexMessages.Sound(WireCodec())
  {
    hide DecodeWire, EncodeWire, DecodeSectionWire, EncodeSectionWire;
    forall w: IndexMessages.Wire<Others> | IndexMessages.Short(w) ensures DecodeWire(EncodeWire(w)) == Some(w) {
      MessageBack(w);
    }
    forall ms | IndexMessages.AllShort(ms) ensures DecodeSectionWire(EncodeSectionWire(ms)) == Some(ms) {
      SectionBack(ms);
    }
  }

  lemma CodecIs()
    ensures forall b :: WireCodec().decodeSection(b) == DecodeSectionWire(b)
    ensures forall ms :: WireCodec().encodeSection(ms) == EncodeSectionWire(ms)
  {
  }

  /** What a message says beside its bitmap is its other records. */
  lemma ReadOthers(data: seq<byte>, index: IndexMessages.Index<Others>)
    requires IndexMessages.DecodeMessage(WireCodec(), data) == Some(index)
    ensures DecodeWire(data).Some? && DecodeWire(data).value.others == index.others
    ensures index.others == NotBitmaps(ProtoWire.Split(Numbers(data)))
  {
    hide ProtoWire.WellFormed, ProtoWire.Split, LastBitmap, NotBitmaps;
  }

  /** So on the wire: after the fragments of any indices are changed, the section's bytes hold every other index's
      message byte for byte and in its place, and each changed one with all its other records, in their order. */
  lemma WireRoundTrip(ms: seq<seq<byte>>, read: seq<IndexMessages.Index<Others>>,
                      now: seq<IndexMessages.Index<Others>>, i: nat)
    requires IndexMessages.ReadsAs(WireCodec(), ms, read) && IndexMessages.Edited(read, now) && i < |read|
    requires IndexMessages.AllShort(IndexMessages.MessagesOf(WireCodec(), now))
    ensures
      var section := EncodeSectionWire(IndexMessages.MessagesOf(WireCodec(), now));
      var written := DecodeSectionWire(section);
      && written.Some? && |written.value| == |ms| && (!now[i].changed ==> written.value[i] == ms[i])
      && DecodeWire(written.value[i]).Some?
      && DecodeWire(written.value[i]).value.others == NotBitmaps(ProtoWire.Split(Numbers(ms[i])))
  {
    hide IndexMessages.Sound, DecodeSectionWire, EncodeSectionWire, DecodeWire, WireCodec, IndexMessages.MessagesOf,
         IndexMessages.DecodeMessage, IndexMessages.Edited, NotBitmaps;
    WireSound();
    CodecIs();
    IndexMessages.SectionRoundTrip(WireCodec(), ms, read, now, i);
    var message := DecodeSectionWire(EncodeSectionWire(IndexMessages.MessagesOf(WireCodec(), now))).value[i];
    assert IndexMessages.DecodeMessage(WireCodec(), ms[i]) == Some(read[i]);
    ReadOthers(ms[i], read[i]);
    ReadOthers(message, IndexMessages.DecodeMessage(WireCodec(), message).value);
  }
}
