/** `compress_into_padded` of include/nanolance/fsst.hpp: the greedy FSST compressor that loads whole 8-byte
    words past the end of a value, against the code-stream format the same header describes. */
module Fsst {
  import opened Bytes
  import opened Options

  const ESCAPE: byte := 255

  // ---- the format ----------------------------------------------------------------------------------

  /** Code k stands for symbols[k], 1 to 8 bytes; 255 is the escape. */
  ghost predicate ValidSymbols(symbols: seq<seq<byte>>) {
    |symbols| <= 255 && forall k :: 0 <= k < |symbols| ==> 1 <= |symbols[k]| <= 8
  }

  /** Decompression of one value: an unknown code and an escape with nothing after it are refused. */
  function Decode(symbols: seq<seq<byte>>, codes: seq<byte>): Option<seq<byte>> {
    if codes == [] then Some([])
    else if codes[0] == ESCAPE then
      if |codes| < 2 then None
      else
        match Decode(symbols, codes[2..])
        case None => None
        case Some(rest) => Some([codes[1]] + rest)
    else if codes[0] as int >= |symbols| then None
    else
      match Decode(symbols, codes[1..])
      case None => None
      case Some(rest) => Some(symbols[codes[0] as int] + rest)
  }

  // ---- words ---------------------------------------------------------------------------------------

  /** The comparison of the compressor, (w ^ v) << (64 - 8 * n) == 0. */
  predicate SameLow(w: bv64, v: bv64, n: nat)
    requires 3 <= n <= 8
  {
    if n == 3 then (w ^ v) << 40 == 0 else if n == 4 then (w ^ v) << 32 == 0
    else if n == 5 then (w ^ v) << 24 == 0 else if n == 6 then (w ^ v) << 16 == 0
    else if n == 7 then (w ^ v) << 8 == 0 else w ^ v == 0
  }

  /** Byte k of a word, lowest first. */
  function LowByte(w: bv64, k: nat): byte
    requires k < 8
  {
    if k == 0 then (w & 0xFF) as bv8 else if k == 1 then ((w >> 8) & 0xFF) as bv8
    else if k == 2 then ((w >> 16) & 0xFF) as bv8 else if k == 3 then ((w >> 24) & 0xFF) as bv8
    else if k == 4 then ((w >> 32) & 0xFF) as bv8 else if k == 5 then ((w >> 40) & 0xFF) as bv8
    else if k == 6 then ((w >> 48) & 0xFF) as bv8 else ((w >> 56) & 0xFF) as bv8
  }

  lemma WordBytesAt(w: bv64)
    ensures forall k :: 0 <= k < 8 ==> WordBytes(w)[k] == LowByte(w, k)
  {
  }

  lemma ThreeLow(w: bv64, v: bv64)
    ensures SameLow(w, v, 3) <==>
            LowByte(w, 0) == LowByte(v, 0) && LowByte(w, 1) == LowByte(v, 1) && LowByte(w, 2) == LowByte(v, 2)
  {
  }

  lemma Low4(w: bv64, v: bv64)
    ensures (w ^ v) << 32 == 0 <==> (w ^ v) << 40 == 0 && ((w >> 24) & 0xFF) as bv8 == ((v >> 24) & 0xFF) as bv8
  {
  }

  lemma Low5(w: bv64, v: bv64)
    ensures (w ^ v) << 24 == 0 <==> (w ^ v) << 32 == 0 && ((w >> 32) & 0xFF) as bv8 == ((v >> 32) & 0xFF) as bv8
  {
  }

  lemma Low6(w: bv64, v: bv64)
    ensures (w ^ v) << 16 == 0 <==> (w ^ v) << 24 == 0 && ((w >> 40) & 0xFF) as bv8 == ((v >> 40) & 0xFF) as bv8
  {
  }

  lemma Low7(w: bv64, v: bv64)
    ensures (w ^ v) << 8 == 0 <==> (w ^ v) << 16 == 0 && ((w >> 48) & 0xFF) as bv8 == ((v >> 48) & 0xFF) as bv8
  {
  }

  lemma Low8(w: bv64, v: bv64)
    ensures w ^ v == 0 <==> (w ^ v) << 8 == 0 && ((w >> 56) & 0xFF) as bv8 == ((v >> 56) & 0xFF) as bv8
  {
  }

  lemma OneMoreLow(w: bv64, v: bv64, n: nat)
    requires 3 <= n < 8
    ensures SameLow(w, v, n + 1) <==> SameLow(w, v, n) && LowByte(w, n) == LowByte(v, n)
  {
    if n == 3 { Low4(w, v); } else if n == 4 { Low5(w, v); } else if n == 5 { Low6(w, v); }
    else if n == 6 { Low7(w, v); } else { Low8(w, v); }
  }

  /** It finds out whether the low n bytes are the same. */
  lemma {:induction false} SameLowBytes(w: bv64, v: bv64, n: nat)
    requires 3 <= n <= 8
    ensures SameLow(w, v, n) <==> WordBytes(w)[..n] == WordBytes(v)[..n]
    decreases n
  {
    hide SameLow, WordBytes, LowByte;
    var a, b := WordBytes(w), WordBytes(v);
    WordBytesAt(w);
    WordBytesAt(v);
    if n == 3 {
      ThreeLow(w, v);
      assert a[..3] == [a[0], a[1], a[2]] && b[..3] == [b[0], b[1], b[2]];
    } else {
      SameLowBytes(w, v, n - 1);
      OneMoreLow(w, v, n - 1);
      assert a[..n] == a[..n - 1] + [a[n - 1]] && b[..n] == b[..n - 1] + [b[n - 1]];
    }
  }

  // ---- the encoder's tables ------------------------------------------------------------------------

  /** A symbol of three or more bytes, in the low bytes of `value`; length 0 is an empty slot. */
  datatype LongCode = LongCode(length: nat, value: bv64, code: byte)

  /** A 16-bit entry of short_or_byte: its low byte is the code, its high byte how many bytes it covers. */
  datatype Entry = Entry(covers: nat, code: byte)

  datatype Encoder = Encoder(longCodes: seq<LongCode>, hash3: bv64 -> nat, shortOrByte: seq<Entry>,
                             byteCodes: seq<Option<byte>>)

  /** word & 0xFFFF, from the word's first two bytes. */
  function PairIndex(b0: byte, b1: byte): (i: nat)
    ensures i < 65536
  {
    b0 as int + 256 * (b1 as int)
  }

  ghost predicate LongOk(symbols: seq<seq<byte>>, s: LongCode) {
    s.length == 0 || (3 <= s.length <= 8 && s.code as int < |symbols|
                      && symbols[s.code as int] == WordBytes(s.value)[..s.length])
  }

  ghost predicate EntryOk(symbols: seq<seq<byte>>, e: Entry, b0: byte, b1: byte) {
    || (e.covers == 1 && e.code == ESCAPE)
    || (e.covers == 1 && e.code as int < |symbols| && symbols[e.code as int] == [b0])
    || (e.covers == 2 && e.code as int < |symbols| && symbols[e.code as int] == [b0, b1])
  }

  ghost predicate ByteOk(symbols: seq<seq<byte>>, e: Option<byte>, b: byte) {
    e.None? || (e.value as int < |symbols| && symbols[e.value as int] == [b])
  }

  /** byte_codes[b]. */
  function CodeOf(e: Encoder, b: byte): Option<byte>
    requires |e.byteCodes| == 256
  {
    e.byteCodes[b as int]
  }

  /** The hash reads three bytes. */
  ghost predicate HashesThree(e: Encoder) {
    && (forall w :: e.hash3(w) < |e.longCodes|)
    && (forall w, v :: WordBytes(w)[..3] == WordBytes(v)[..3] ==> e.hash3(w) == e.hash3(v))
  }

  /** A trained encoder for a symbol table: every table answers with symbols of the table. */
  ghost predicate Trained(e: Encoder, symbols: seq<seq<byte>>) {
    && ValidSymbols(symbols) && HashesThree(e)
    && (forall i :: 0 <= i < |e.longCodes| ==> LongOk(symbols, e.longCodes[i]))
    && |e.shortOrByte| == 65536
    && (forall b0, b1 :: EntryOk(symbols, e.shortOrByte[PairIndex(b0, b1)], b0, b1))
    && |e.byteCodes| == 256
    && (forall b :: ByteOk(symbols, CodeOf(e, b), b))
  }

  // ---- the greedy form that sees only the value ----------------------------------------------------

  /** The codes written for the front of a value, and how many of its bytes they stand for. */
  datatype Emission = Emission(codes: seq<byte>, took: nat)

  /** The first eight bytes of a value, zeros after its end. */
  function Padded(rest: seq<byte>): (s: seq<byte>)
    ensures |s| == 8 && s[..if |rest| < 8 then |rest| else 8] == rest[..if |rest| < 8 then |rest| else 8]
  {
    if |rest| >= 8 then rest[..8] else rest + Zeros(8 - |rest|)
  }

  function OfEntry(e: Entry, literal: byte): Emission {
    Emission(if e.code == ESCAPE then [ESCAPE, literal] else [e.code], e.covers)
  }

  /** The entry for the last byte of a value. */
  function LastEntry(e: Encoder, b: byte): Entry
    requires |e.byteCodes| == 256
  {
    Entry(1, match CodeOf(e, b) case None => ESCAPE case Some(code) => code)
  }

  /** At the front of a value: the long symbol its three bytes hash to, if it is there whole; else the entry
      of its first two bytes, or of its only byte. */
  function Choose(e: Encoder, rest: seq<byte>): Emission
    requires rest != [] && |e.shortOrByte| == 65536 && |e.byteCodes| == 256
    requires HashesThree(e)
  {
    var s := e.longCodes[e.hash3(Load(Padded(rest)))];
    if 1 <= s.length <= 8 && s.length <= |rest| && rest[..s.length] == WordBytes(s.value)[..s.length] then
      Emission([s.code], s.length)
    else if |rest| >= 2 then OfEntry(e.shortOrByte[PairIndex(rest[0], rest[1])], rest[0])
    else OfEntry(LastEntry(e, rest[0]), rest[0])
  }

  lemma ChooseTakes(e: Encoder, symbols: seq<seq<byte>>, rest: seq<byte>)
    requires Trained(e, symbols) && rest != []
    ensures var c := Choose(e, rest);
            1 <= c.took <= |rest| && 1 <= |c.codes| <= 2 && |c.codes| <= 2 * c.took
            && ((c.codes == [ESCAPE, rest[0]] && c.took == 1)
                || (|c.codes| == 1 && c.codes[0] as int < |symbols| && symbols[c.codes[0] as int] == rest[..c.took]))
  {
    hide WordBytes, Load;
    var s := e.longCodes[e.hash3(Load(Padded(rest)))];
    assert LongOk(symbols, s);
    if |rest| >= 2 {
      assert EntryOk(symbols, e.shortOrByte[PairIndex(rest[0], rest[1])], rest[0], rest[1]);
      assert rest[..2] == [rest[0], rest[1]];
    }
    assert ByteOk(symbols, CodeOf(e, rest[0]), rest[0]);
    assert rest[..1] == [rest[0]];
  }

  /** The tables know every symbol of one or two bytes. */
  ghost predicate Full(e: Encoder, symbols: seq<seq<byte>>)
    requires |e.shortOrByte| == 65536 && |e.byteCodes| == 256
  {
    && (forall b :: [b] in symbols ==> CodeOf(e, b).Some?)
    && (forall b0, b1 :: [b0] in symbols || [b0, b1] in symbols ==> e.shortOrByte[PairIndex(b0, b1)].code != ESCAPE)
    && (forall b0, b1 :: [b0, b1] in symbols ==> e.shortOrByte[PairIndex(b0, b1)].covers == 2)
  }

  /** The symbol in the slot a value's first three bytes hash to, if there is one. */
  ghost function LongAt(e: Encoder, symbols: seq<seq<byte>>, rest: seq<byte>): (r: Option<seq<byte>>)
    requires Trained(e, symbols)
  {
    var s := e.longCodes[e.hash3(Load(Padded(rest)))];
    assert LongOk(symbols, s);
    if s.length == 0 then None else Some(symbols[s.code as int])
  }

  /** Long symbols come first: when the one in the slot is the value's front, it is what is written. Then come pairs. */
  lemma LongFirst(e: Encoder, symbols: seq<seq<byte>>, rest: seq<byte>)
    requires Trained(e, symbols) && rest != []
    ensures var long, c := LongAt(e, symbols, rest), Choose(e, rest);
            && (long.Some? && long.value <= rest ==>
                  c.took == |long.value| && |c.codes| == 1 && c.codes[0] as int < |symbols|
                  && symbols[c.codes[0] as int] == long.value)
            && (Full(e, symbols) && |rest| >= 2 && rest[..2] in symbols && !(long.Some? && long.value <= rest) ==>
                  c.took == 2)
  {
    hide WordBytes, Load;
    var s := e.longCodes[e.hash3(Load(Padded(rest)))];
    assert LongOk(symbols, s);
    if s.length > 0 && symbols[s.code as int] <= rest { assert rest[..s.length] == symbols[s.code as int]; }
    if |rest| >= 2 { assert rest[..2] == [rest[0], rest[1]]; }
  }

  /** A byte is escaped only when the value's front is no short symbol, nor the long one its bytes hash to. */
  lemma EscapeLast(e: Encoder, symbols: seq<seq<byte>>, rest: seq<byte>)
    requires Trained(e, symbols) && Full(e, symbols) && rest != [] && Choose(e, rest).codes == [ESCAPE, rest[0]]
    ensures [rest[0]] !in symbols && (|rest| >= 2 ==> rest[..2] !in symbols)
    ensures LongAt(e, symbols, rest).None? || !(LongAt(e, symbols, rest).value <= rest)
  {
    hide WordBytes, Load, LongAt, Choose, HashesThree, LongOk, EntryOk;
    LongFirst(e, symbols, rest);
    ShortChoice(e, symbols, rest);
    if |rest| >= 2 {
      assert rest[..2] == [rest[0], rest[1]];
    } else {
      assert ByteOk(symbols, CodeOf(e, rest[0]), rest[0]);
    }
  }

  /** Without the long symbol the choice is the tables'. */
  lemma ShortChoice(e: Encoder, symbols: seq<seq<byte>>, rest: seq<byte>)
    requires Trained(e, symbols) && rest != []
    requires LongAt(e, symbols, rest).None? || !(LongAt(e, symbols, rest).value <= rest)
    ensures Choose(e, rest) == if |rest| >= 2 then OfEntry(e.shortOrByte[PairIndex(rest[0], rest[1])], rest[0])
                               else OfEntry(LastEntry(e, rest[0]), rest[0])
  {
    hide WordBytes, Load, OfEntry, LastEntry;
    assert LongOk(symbols, e.longCodes[e.hash3(Load(Padded(rest)))]);
  }

  ghost function Greedy(e: Encoder, symbols: seq<seq<byte>>, value: seq<byte>): (codes: seq<byte>)
    requires Trained(e, symbols)
    ensures |codes| <= 2 * |value|
    decreases |value|
  {
    if value == [] then []
    else
      ChooseTakes(e, symbols, value);
      var c := Choose(e, value);
      c.codes + Greedy(e, symbols, value[c.took..])
  }

  /** Decompressing what was compressed gives back the value: no unknown code, no escape cut off. */
  lemma {:induction false} RoundTrip(e: Encoder, symbols: seq<seq<byte>>, value: seq<byte>)
    requires Trained(e, symbols)
    ensures Decode(symbols, Greedy(e, symbols, value)) == Some(value)
    decreases |value|
  {
    hide Choose, HashesThree, LongOk, EntryOk, ByteOk;
    if value != [] {
      ChooseTakes(e, symbols, value);
      var c := Choose(e, value);
      var rest := Greedy(e, symbols, value[c.took..]);
      RoundTrip(e, symbols, value[c.took..]);
      assert value == value[..c.took] + value[c.took..];
      if c.codes == [ESCAPE, value[0]] && c.took == 1 {
        assert (c.codes + rest)[2..] == rest;
        assert value[..1] == [value[0]];
      } else {
        SymbolsBelowEscape(e, symbols, c.codes[0]);
        assert (c.codes + rest)[1..] == rest;
      }
    }
  }

  lemma SymbolsBelowEscape(e: Encoder, symbols: seq<seq<byte>>, code: byte)
    requires Trained(e, symbols) && code as int < |symbols|
    ensures code != ESCAPE
  {
  }

  // ---- the compressor ------------------------------------------------------------------------------

  /** What lies after the value does not matter: with any eight bytes that start with what is left of it, the
      probe of the word finds the symbol Choose finds. */
  lemma WordProbe(e: Encoder, symbols: seq<seq<byte>>, rest: seq<byte>, loaded: seq<byte>)
    requires Trained(e, symbols) && rest != [] && |loaded| == 8
    requires loaded[..if |rest| < 8 then |rest| else 8] == rest[..if |rest| < 8 then |rest| else 8]
    ensures var w := Load(loaded);
            var s := e.longCodes[e.hash3(w)];
            var t := e.longCodes[e.hash3(Load(Padded(rest)))];
            && (s.length != 0 ==> 3 <= s.length <= 8)
            && (|rest| < 3 ==> (s.length != 0 ==> |rest| < s.length) && (t.length != 0 ==> |rest| < t.length))
            && (|rest| >= 3 ==> s == t)
            && (s.length != 0 && s.length <= |rest| ==>
                  (SameLow(w, s.value, s.length) <==> rest[..s.length] == WordBytes(s.value)[..s.length]))
  {
    hide WordBytes, Load, EntryOk, ByteOk, SameLow;
    var w, z := Load(loaded), Load(Padded(rest));
    LoadBytes(loaded);
    LoadBytes(Padded(rest));
    var s, t := e.longCodes[e.hash3(w)], e.longCodes[e.hash3(z)];
    assert LongOk(symbols, s) && LongOk(symbols, t);
    if |rest| >= 3 {
      SamePrefix(rest, loaded, 3);
      SamePrefix(rest, Padded(rest), 3);
    }
    if s.length != 0 && s.length <= |rest| {
      SameLowBytes(w, s.value, s.length);
      SamePrefix(rest, loaded, s.length);
    }
  }

  lemma SamePrefix(rest: seq<byte>, loaded: seq<byte>, n: nat)
    requires |loaded| == 8 && n <= 8 && n <= |rest|
    requires loaded[..if |rest| < 8 then |rest| else 8] == rest[..if |rest| < 8 then |rest| else 8]
    ensures loaded[..n] == rest[..n]
  {
    var m := if |rest| < 8 then |rest| else 8;
    assert loaded[..n] == loaded[..m][..n] && rest[..n] == rest[..m][..n];
  }

  /** So the compressor's two branches are Choose's. */
  lemma WordChoice(e: Encoder, symbols: seq<seq<byte>>, rest: seq<byte>, loaded: seq<byte>)
    requires Trained(e, symbols) && rest != [] && |loaded| == 8
    requires loaded[..if |rest| < 8 then |rest| else 8] == rest[..if |rest| < 8 then |rest| else 8]
    ensures var s := e.longCodes[e.hash3(Load(loaded))];
            && (s.length != 0 ==> 3 <= s.length <= 8)
            && (if s.length != 0 && s.length <= |rest| && SameLow(Load(loaded), s.value, s.length)
                then Choose(e, rest) == Emission([s.code], s.length)
                else if |rest| >= 2
                then Choose(e, rest) == OfEntry(e.shortOrByte[PairIndex(loaded[0], loaded[1])], loaded[0])
                else Choose(e, rest) == OfEntry(LastEntry(e, loaded[0]), loaded[0]))
  {
    hide WordBytes, Load, EntryOk, ByteOk, LongOk, SameLow;
    WordProbe(e, symbols, rest, loaded);
    SamePrefix(rest, loaded, 1);
    assert loaded[..1][0] == rest[..1][0];
    if |rest| >= 2 {
      SamePrefix(rest, loaded, 2);
      assert loaded[..2][1] == rest[..2][1];
    }
  }

  lemma GreedyStep(e: Encoder, symbols: seq<seq<byte>>, value: seq<byte>, pos: nat, done: seq<byte>)
    requires Trained(e, symbols) && pos < |value|
    requires done + Greedy(e, symbols, value[pos..]) == Greedy(e, symbols, value)
    ensures var c := Choose(e, value[pos..]);
            1 <= c.took <= |value| - pos && 1 <= |c.codes| <= 2 && |c.codes| <= 2 * c.took
            && (done + c.codes) + Greedy(e, symbols, value[pos + c.took..]) == Greedy(e, symbols, value)
  {
    hide Choose, HashesThree, LongOk, EntryOk, ByteOk;
    ChooseTakes(e, symbols, value[pos..]);
    var c := Choose(e, value[pos..]);
    assert value[pos..][c.took..] == value[pos + c.took..];
    assert done + (c.codes + Greedy(e, symbols, value[pos + c.took..]))
        == (done + c.codes) + Greedy(e, symbols, value[pos + c.took..]);
  }

  /** out[0] and out[1]: the second store is speculative, kept only after an escape. */
  method StorePair(dst: array<byte>, at: nat, first: byte, second: byte)
    requires at + 2 <= dst.Length
    modifies dst
    ensures dst[..at + 1] == old(dst[..at]) + [first] && dst[..at + 2] == old(dst[..at]) + [first, second]
    ensures dst[at + 2..] == old(dst[at + 2..])
  {
    dst[at] := first;
    dst[at + 1] := second;
  }

  lemma TrainedSizes(e: Encoder, symbols: seq<seq<byte>>)
    requires Trained(e, symbols)
    ensures |e.shortOrByte| == 65536 && |e.byteCodes| == 256 && HashesThree(e)
    ensures forall w :: e.hash3(w) < |e.longCodes|
  {
  }

  /** Compresses the first `size` bytes of data, which has at least seven more readable bytes, to the front
      of dst: the codes of the greedy form that sees only the value, whatever those bytes are, and no store,
      the speculative one included, at or past 2 * size. */
  method CompressIntoPadded(e: Encoder, ghost symbols: seq<seq<byte>>, data: array<byte>, size: nat, dst: array<byte>)
    returns (written: nat)
    requires Trained(e, symbols) && size + 7 <= data.Length && 2 * size <= dst.Length && data != dst
    modifies dst
    ensures written <= 2 * size
    ensures dst[..written] == Greedy(e, symbols, data[..size])
    ensures dst[2 * size..] == old(dst[2 * size..])
  {
    hide WordBytes, Load, SameLow, Choose, Trained, HashesThree, PairIndex, Greedy;
    TrainedSizes(e, symbols);
    var out, pos := 0, 0;
    ghost var value := data[..size];
    while pos < size
      invariant 0 <= pos <= size && out <= 2 * pos
      invariant dst[..out] + Greedy(e, symbols, value[pos..]) == Greedy(e, symbols, value)
      invariant dst[2 * size..] == old(dst[2 * size..])
    {
      var loaded := data[pos..pos + 8];
      var word := Load(loaded);
      var remaining := size - pos;
      ghost var rest, done := value[pos..], dst[..out];
      assert loaded[..if |rest| < 8 then |rest| else 8] == rest[..if |rest| < 8 then |rest| else 8];
      WordChoice(e, symbols, rest, loaded);
      GreedyStep(e, symbols, value, pos, done);
      ghost var chosen := Choose(e, rest);
      var s := e.longCodes[e.hash3(word)];
      if s.length != 0 && s.length <= remaining && SameLow(word, s.value, s.length) {
        dst[out] := s.code;
        out := out + 1;
        pos := pos + s.length;
      } else {
        var entry := if remaining >= 2 then e.shortOrByte[PairIndex(loaded[0], loaded[1])] else LastEntry(e, loaded[0]);
        StorePair(dst, out, entry.code, loaded[0]);
        out := out + if entry.code == ESCAPE then 2 else 1;
        pos := pos + entry.covers;
      }
      assert dst[..out] == done + chosen.codes;
    }
    written := out;
  }
}
