/** The index messages and index section of generated/lance_minimal.pb.cpp: read with their bytes kept, written back
    as read unless the writer changed the fragments an index covers. The message codec beneath is a parameter; its
    premise holds of the protobuf wire format (module IndexWire). */
module IndexMessages {
  import opened Options
  import opened Bytes
  import opened Roaring

  /** An IndexMetadata message: its fragment bitmap, and everything else it says. */
  datatype Wire<R> = Wire(bitmap: Option<seq<byte>>, others: R)

  /** The protobuf codec of the message and of the section that lists messages. */
  datatype Codec<!R> = Codec(
    decode: seq<byte> -> Option<Wire<R>>, encode: Wire<R> -> seq<byte>,
    decodeSection: seq<byte> -> Option<seq<seq<byte>>>, encodeSection: seq<seq<byte>> -> seq<byte>)

  const U64 := 0x1_0000_0000_0000_0000

  /** A length that 64 bits hold, as every buffer's does. */
  ghost predicate Short<R>(w: Wire<R>) {
    w.bitmap.Some? ==> |w.bitmap.value| < U64
  }

  ghost predicate AllShort(ms: seq<seq<byte>>) {
    forall i :: 0 <= i < |ms| ==> |ms[i]| < U64
  }

  /** What is written can be read. */
  ghost predicate Sound<R(!new)>(codec: Codec<R>) {
    (forall w :: Short(w) ==> codec.decode(codec.encode(w)) == Some(w))
    && forall ms :: AllShort(ms) ==> codec.decodeSection(codec.encodeSection(ms)) == Some(ms)
  }

  /** An index as nanolance holds it: `raw` is the message as read. */
  datatype Index<R> = Index(raw: seq<byte>, hasBitmap: bool, ids: seq<nat>, changed: bool, others: R)

  function DecodeMessage<R>(codec: Codec<R>, data: seq<byte>): Option<Index<R>> {
    match codec.decode(data)
    case None => None
    case Some(w) =>
      if w.bitmap.None? then Some(Index(data, false, [], false, w.others))
      else
        match Decode(w.bitmap.value)
        case None => None
        case Some(ids) => Some(Index(data, true, ids, false, w.others))
  }

  /** The ids a bitmap gives back. */
  ghost predicate Writable<R>(index: Index<R>) {
    index.changed && index.hasBitmap ==> Encodable(index.ids)
  }

  ghost function BitmapOf<R>(index: Index<R>): Option<seq<byte>> {
    if index.hasBitmap then Some(Encoded(index.ids)) else None
  }

  ghost function MessageOf<R>(codec: Codec<R>, index: Index<R>): seq<byte> {
    if !index.changed then index.raw
    else
      match codec.decode(index.raw)
      case None => index.raw
      case Some(w) => codec.encode(w.(bitmap := BitmapOf(index)))
  }

  /** `encode_index_metadata`. */
  method EncodeMessage<R>(codec: Codec<R>, index: Index<R>) returns (message: seq<byte>)
    ensures message == MessageOf(codec, index)
  {
    if !index.changed {
      return index.raw;
    }
    var w := codec.decode(index.raw);
    if w.None? {
      return index.raw;
    }
    if index.hasBitmap {
      var bitmap := Encode(index.ids);
      message := codec.encode(w.value.(bitmap := Some(bitmap)));
    } else {
      message := codec.encode(w.value.(bitmap := None));
    }
  }

  /** The fragments of a read index changed to others, or to unknown. */
  function Recovered<R>(index: Index<R>, hasBitmap: bool, ids: seq<nat>): Index<R> {
    index.(hasBitmap := hasBitmap, ids := ids, changed := true)
  }

  lemma DecodeEncoded(ids: seq<nat>)
    requires Encodable(ids)
    ensures Decode(Encoded(ids)) == Some(ids) && |Encoded(ids)| < U64
  {
    hide DecodePrefix, Encoded, Below;
    RoundTripIff(ids);
    EncodedSize(ids);
  }

  lemma EncodedSize(ids: seq<nat>)
    requires Encodable(ids)
    ensures |Encoded(ids)| < U64
  {
    hide HeaderBytes, OffsetBytes, BodyBytes, Containers;
    ContainersAreOk(ids);
    BodiesShort(Containers(ids, U16));
  }

  lemma {:induction false} BodiesShort(cs: seq<Container>)
    requires ContainersOk(cs)
    ensures |BodyBytes(cs)| <= BITMAP_BYTES * |cs|
    decreases |cs|
  {
    hide Body;
    if cs != [] {
      assert ContainerOk(cs[0]) && |Body(cs[0])| == BodySize(cs[0]);
      BodiesShort(cs[1..]);
    }
  }

  /** A changed message says what it said, but for the fragments: they are the new ones. */
  lemma ChangedMessage<R(!new)>(codec: Codec<R>, data: seq<byte>, hasBitmap: bool, ids: seq<nat>)
    requires Sound(codec) && DecodeMessage(codec, data).Some?
    requires hasBitmap ==> Encodable(ids)
    ensures
      var before := DecodeMessage(codec, data).value;
      var message := MessageOf(codec, Recovered(before, hasBitmap, ids));
      && codec.decode(message).Some?
      && codec.decode(message).value.others == codec.decode(data).value.others
      && DecodeMessage(codec, message)
         == Some(Index(message, hasBitmap, if hasBitmap then ids else [], false, before.others))
  {
    hide Decode, Encoded, Encodable;
    if hasBitmap { DecodeEncoded(ids); }
  }

  // ---- the section ---------------------------------------------------------------------------------

  ghost predicate AllRead<R>(codec: Codec<R>, ms: seq<seq<byte>>) {
    forall i :: 0 <= i < |ms| ==> DecodeMessage(codec, ms[i]).Some?
  }

  ghost predicate ReadsAs<R>(codec: Codec<R>, ms: seq<seq<byte>>, indices: seq<Index<R>>) {
    |indices| == |ms| && forall i :: 0 <= i < |ms| ==> DecodeMessage(codec, ms[i]) == Some(indices[i])
  }

  /** `decode_index_section`: refused when the section or any message is. */
  method DecodeSection<R>(codec: Codec<R>, data: seq<byte>) returns (r: Option<seq<Index<R>>>)
    ensures r.Some? <==> codec.decodeSection(data).Some? && AllRead(codec, codec.decodeSection(data).value)
    ensures r.Some? ==> ReadsAs(codec, codec.decodeSection(data).value, r.value)
  {
    hide DecodeMessage;
    var w := codec.decodeSection(data);
    if w.None? {
      return None;
    }
    var out: seq<Index<R>> := [];
    for i := 0 to |w.value|
      invariant |out| == i
      invariant forall j :: 0 <= j < i ==> DecodeMessage(codec, w.value[j]) == Some(out[j])
    {
      var index := DecodeMessage(codec, w.value[i]);
      if index.None? {
        return None;
      }
      out := out + [index.value];
    }
    r := Some(out);
  }

  ghost function MessagesOf<R>(codec: Codec<R>, indices: seq<Index<R>>): (ms: seq<seq<byte>>)
    ensures |ms| == |indices| && forall i :: 0 <= i < |ms| ==> ms[i] == MessageOf(codec, indices[i])
  {
    seq(|indices|, i requires 0 <= i < |indices| => MessageOf(codec, indices[i]))
  }

  /** `encode_index_section`. */
  method EncodeSection<R>(codec: Codec<R>, indices: seq<Index<R>>) returns (data: seq<byte>)
    ensures data == codec.encodeSection(MessagesOf(codec, indices))
  {
    hide MessageOf;
    var messages: seq<seq<byte>> := [];
    for i := 0 to |indices|
      invariant |messages| == i
      invariant forall j :: 0 <= j < i ==> messages[j] == MessageOf(codec, indices[j])
    {
      var m := EncodeMessage(codec, indices[i]);
      messages := messages + [m];
    }
    assert messages == MessagesOf(codec, indices);
    data := codec.encodeSection(messages);
  }

  /** `now` is `read` with the fragments of some of its indices changed. */
  ghost predicate Edited<R>(read: seq<Index<R>>, now: seq<Index<R>>) {
    |now| == |read| && forall i :: 0 <= i < |read| ==>
      Writable(now[i]) && (now[i] == read[i] || now[i] == Recovered(read[i], now[i].hasBitmap, now[i].ids))
  }

  /** A section is read, some indices are changed, and it is written: every other index's message is there byte for
      byte, in its place, and each changed one reads as it did but for its fragments, which are the new ones. */
  lemma SectionRoundTrip<R(!new)>(codec: Codec<R>, ms: seq<seq<byte>>, read: seq<Index<R>>, now: seq<Index<R>>, i: nat)
    requires Sound(codec) && ReadsAs(codec, ms, read) && Edited(read, now) && i < |read|
    requires AllShort(MessagesOf(codec, now))
    ensures
      var written := codec.decodeSection(codec.encodeSection(MessagesOf(codec, now)));
      && written.Some? && |written.value| == |ms|
      && (!now[i].changed ==> written.value[i] == ms[i])
      && DecodeMessage(codec, written.value[i]).Some?
      && var back := DecodeMessage(codec, written.value[i]).value;
         back.others == read[i].others && back.hasBitmap == now[i].hasBitmap
         && (back.hasBitmap ==> back.ids == now[i].ids)
  {
    hide Decode, Encoded, Encodable, MessagesOf;
    var message := MessageOf(codec, now[i]);
    assert MessagesOf(codec, now)[i] == message;
    assert read[i].raw == ms[i] && !read[i].changed;
    if now[i].changed {
      ChangedMessage(codec, ms[i], now[i].hasBitmap, now[i].ids);
    }
  }
}
