/** The LZ4 block compressor of src/encoding/lz4_block.cpp (`compress_block`, `compress_sized`) and the size
    check of its reader, against the LZ4 block format. */
module Lz4 {
  import opened Options
  import opened Octets

  // ---- the block format ----------------------------------------------------------------------------

  /** A length extension: 255-bytes, then a byte below 255. The length read and how many bytes it took. */
  function ReadLength(b: seq<octet>): (r: Option<(nat, nat)>)
    ensures r.Some? ==> 1 <= r.value.1 <= |b| && r.value.0 <= 255 * r.value.1
  {
    if b == [] then None
    else if b[0] < 255 then Some((b[0], 1))
    else
      match ReadLength(b[1..])
      case None => None
      case Some((n, took)) => Some((255 + n, 1 + took))
  }

  /** A length given by a nibble of the token: 15 says that an extension follows. */
  function NibbleLength(nibble: nat, b: seq<octet>): (r: Option<(nat, nat)>)
    ensures r.Some? ==> r.value.1 <= |b| && r.value.0 <= nibble + 255 * r.value.1
  {
    if nibble < 15 then Some((nibble, 0))
    else
      match ReadLength(b)
      case None => None
      case Some((n, took)) => Some((nibble + n, took))
  }

  /** Byte by byte, so a match may run into what it writes. */
  function CopyMatch(out: seq<octet>, offset: nat, n: nat): (r: seq<octet>)
    requires 1 <= offset <= |out|
    ensures |r| == |out| + n
    decreases n
  {
    if n == 0 then out else CopyMatch(out + [out[|out| - offset]], offset, n - 1)
  }

  const MIN_MATCH := 4
  const MF_LIMIT := 12
  const LAST_LITERALS := 5

  /** The end-of-block rules for a block of `total` bytes: a match starts at least 12 bytes before the end and
      the last 5 bytes are literals. */
  predicate MatchAllowed(start: nat, n: nat, total: nat) {
    start + MF_LIMIT <= total && start + n + LAST_LITERALS <= total
  }

  /** One sequence at the front of a block: literals alone end the block; a match says how far back, how
      long, and how many bytes of the block the sequence took. */
  datatype Token =
    | Malformed
    | Last(lit: seq<octet>)
    | WithMatch(lit: seq<octet>, offset: nat, len: nat, took: nat)

  function ReadToken(b: seq<octet>): (t: Token)
    requires b != []
    ensures t.Last? ==> |t.lit| < |b|
    ensures t.WithMatch? ==> |t.lit| + 3 <= t.took <= |b| && t.len >= MIN_MATCH && |t.lit| + t.len <= 255 * t.took
  {
    var lit := NibbleLength(b[0] / 16, b[1..]);
    if lit.None? || 1 + lit.value.1 + lit.value.0 > |b| then Malformed
    else
      var from, litEnd := 1 + lit.value.1, 1 + lit.value.1 + lit.value.0;
      if litEnd == |b| then Last(b[from..])
      else if litEnd + 2 > |b| then Malformed
      else
        var len := NibbleLength(b[0] % 16, b[litEnd + 2..]);
        if len.None? then Malformed
        else WithMatch(b[from..litEnd], b[litEnd] as nat + 256 * (b[litEnd + 1] as nat), MIN_MATCH + len.value.0,
                       litEnd + 2 + len.value.1)
  }

  /** Decodes the block b after `out`; with `rules`, a block that breaks the end-of-block rules for that total
      size is refused. No block expands by more than 255 bytes a byte. */
  function Decode(b: seq<octet>, out: seq<octet>, rules: Option<nat>): (r: Option<seq<octet>>)
    ensures r.Some? ==> |r.value| <= |out| + 255 * |b|
    decreases |b|
  {
    if b == [] then None
    else
      match ReadToken(b)
      case Malformed => None
      case Last(lit) => Some(out + lit)
      case WithMatch(lit, offset, len, took) =>
        if offset == 0 || offset > |out| + |lit| then None
        else if rules.Some? && !MatchAllowed(|out| + |lit|, len, rules.value) then None
        else Decode(b[took..], CopyMatch(out + lit, offset, len), rules)
  }

  /** Obeying the rules only makes fewer blocks acceptable. */
  lemma {:induction false} RulesOnlyRefuse(b: seq<octet>, out: seq<octet>, total: nat)
    requires Decode(b, out, Some(total)).Some?
    ensures Decode(b, out, None) == Decode(b, out, Some(total))
    decreases |b|
  {
    hide ReadToken;
    match ReadToken(b)
    case Malformed =>
    case Last(lit) =>
    case WithMatch(lit, offset, len, took) =>
      RulesOnlyRefuse(b[took..], CopyMatch(out + lit, offset, len), total);
  }

  // ---- one sequence --------------------------------------------------------------------------------

  /** `put_length`. */
  function LengthBytes(extra: nat): seq<octet> {
    if extra >= 255 then [255] + LengthBytes(extra - 255) else [extra]
  }

  lemma {:induction false} ReadsLength(extra: nat, tail: seq<octet>)
    ensures ReadLength(LengthBytes(extra) + tail) == Some((extra, |LengthBytes(extra)|))
    decreases extra
  {
    if extra >= 255 {
      ReadsLength(extra - 255, tail);
      assert (LengthBytes(extra) + tail)[1..] == LengthBytes(extra - 255) + tail;
    }
  }

  function Nibble(n: nat): (r: nat)
    ensures r <= 15
  {
    if n < 15 then n else 15
  }

  /** The extension after a nibble, empty below 15. */
  function Extension(n: nat): seq<octet> {
    if n >= 15 then LengthBytes(n - 15) else []
  }

  lemma ReadsNibble(n: nat, tail: seq<octet>)
    ensures NibbleLength(Nibble(n), Extension(n) + tail) == Some((n, |Extension(n)|))
  {
    if n >= 15 { ReadsLength(n - 15, tail); } else { assert Extension(n) + tail == tail; }
  }

  /** The last sequence of a block: literals and nothing else. */
  function LastSequence(lit: seq<octet>): seq<octet> {
    [16 * Nibble(|lit|)] + Extension(|lit|) + lit
  }

  /** Literals, then a match `offset` bytes back of MIN_MATCH + extra bytes. */
  function Sequence(lit: seq<octet>, offset: nat, extra: nat): seq<octet>
    requires offset <= 65535
  {
    [16 * Nibble(|lit|) + Nibble(extra)] + Extension(|lit|) + lit + [offset % 256, offset / 256] + Extension(extra)
  }

  lemma ReadsLast(lit: seq<octet>, out: seq<octet>, rules: Option<nat>)
    ensures Decode(LastSequence(lit), out, rules) == Some(out + lit)
  {
    var b := LastSequence(lit);
    assert b[1..] == Extension(|lit|) + lit;
    ReadsNibble(|lit|, lit);
    assert b[1 + |Extension(|lit|)|..] == lit;
  }

  lemma SequenceParts(lit: seq<octet>, offset: nat, extra: nat, tail: seq<octet>)
    requires offset <= 65535
    ensures var b := Sequence(lit, offset, extra) + tail;
            var x, y := Extension(|lit|), Extension(extra);
            var litEnd := 1 + |x| + |lit|;
            && litEnd + 2 + |y| <= |b|
            && b[1..] == x + (lit + [offset % 256, offset / 256] + y + tail)
            && b[1 + |x|..litEnd] == lit && b[litEnd] == offset % 256 && b[litEnd + 1] == offset / 256
            && b[litEnd + 2..] == y + tail && b[litEnd + 2 + |y|..] == tail
  {
    hide Extension, Nibble;
    Parts(16 * Nibble(|lit|) + Nibble(extra), Extension(|lit|), lit, [offset % 256, offset / 256], Extension(extra),
          tail);
  }

  /** A sequence's bytes, part by part. */
  lemma Parts(t: octet, x: seq<octet>, lit: seq<octet>, o: seq<octet>, y: seq<octet>, tail: seq<octet>)
    requires |o| == 2
    ensures var b := [t] + x + lit + o + y + tail;
            var litEnd := 1 + |x| + |lit|;
            && |b| == litEnd + 2 + |y| + |tail|
            && b[1..] == x + (lit + o + y + tail)
            && b[1 + |x|..litEnd] == lit && b[litEnd] == o[0] && b[litEnd + 1] == o[1]
            && b[litEnd + 2..] == y + tail && b[litEnd + 2 + |y|..] == tail
  {
    PartsHead(t, x, lit, o, y, tail);
    PartsTail([t] + x + lit, o, y, tail);
    CutMiddle([t] + x, lit, o, y, tail);
  }

  lemma PartsHead(t: octet, x: seq<octet>, lit: seq<octet>, o: seq<octet>, y: seq<octet>, tail: seq<octet>)
    ensures ([t] + x + lit + o + y + tail)[1..] == x + (lit + o + y + tail)
  {
  }

  lemma PartsTail(front: seq<octet>, o: seq<octet>, y: seq<octet>, tail: seq<octet>)
    requires |o| == 2
    ensures var b, n := front + o + y + tail, |front|;
            b[n] == o[0] && b[n + 1] == o[1] && b[n + 2..] == y + tail && b[n + 2 + |y|..] == tail
  {
  }

  lemma CutMiddle(a: seq<octet>, lit: seq<octet>, o: seq<octet>, y: seq<octet>, tail: seq<octet>)
    ensures (a + lit + o + y + tail)[|a|..|a| + |lit|] == lit
  {
  }

  lemma ReadsToken(lit: seq<octet>, offset: nat, extra: nat, tail: seq<octet>)
    requires offset <= 65535
    ensures var b := Sequence(lit, offset, extra) + tail;
            b != [] && ReadToken(b) == WithMatch(lit, offset, MIN_MATCH + extra, |Sequence(lit, offset, extra)|)
  {
    hide Extension;
    var b := Sequence(lit, offset, extra) + tail;
    SequenceParts(lit, offset, extra, tail);
    ReadsNibble(|lit|, lit + [offset % 256, offset / 256] + Extension(extra) + tail);
    ReadsNibble(extra, tail);
    assert b[0] / 16 == Nibble(|lit|) && b[0] % 16 == Nibble(extra);
  }

  lemma ReadsSequence(lit: seq<octet>, offset: nat, extra: nat, out: seq<octet>, tail: seq<octet>, rules: Option<nat>)
    requires 1 <= offset <= 65535 && offset <= |out| + |lit|
    requires rules.Some? ==> MatchAllowed(|out| + |lit|, MIN_MATCH + extra, rules.value)
    ensures Decode(Sequence(lit, offset, extra) + tail, out, rules)
         == Decode(tail, CopyMatch(out + lit, offset, MIN_MATCH + extra), rules)
  {
    hide ReadToken, Sequence;
    ReadsToken(lit, offset, extra, tail);
    assert (Sequence(lit, offset, extra) + tail)[|Sequence(lit, offset, extra)|..] == tail;
  }

  // ---- what a match copies -------------------------------------------------------------------------

  /** Copying a match that agrees with what follows, overlap included, gives what follows. */
  lemma {:induction false} CopiesAhead(data: seq<octet>, ip: nat, candidate: nat, n: nat)
    requires candidate < ip && ip + n <= |data|
    requires data[ip..ip + n] == data[candidate..candidate + n]
    ensures CopyMatch(data[..ip], ip - candidate, n) == data[..ip + n]
    decreases n
  {
    if n > 0 {
      assert data[ip..ip + n][0] == data[candidate..candidate + n][0];
      assert data[..ip] + [data[candidate]] == data[..ip + 1];
      assert data[ip + 1..ip + n] == data[ip..ip + n][1..];
      assert data[candidate + 1..candidate + n] == data[candidate..candidate + n][1..];
      CopiesAhead(data, ip + 1, candidate + 1, n - 1);
    }
  }

  // ---- the compressor ------------------------------------------------------------------------------

  const MAX_OFFSET := 65535
  const HASH_SIZE := 65536
  const U32 := 0x1_0000_0000

  /** A little-endian 4-byte load. */
  function Load32(data: seq<octet>, p: nat): nat
    requires p + 4 <= |data|
  {
    data[p] as nat + 256 * (data[p + 1] as nat) + 65536 * (data[p + 2] as nat) + 16777216 * (data[p + 3] as nat)
  }

  lemma Load32Same(data: seq<octet>, p: nat, q: nat)
    requires p + 4 <= |data| && q + 4 <= |data|
    ensures Load32(data, p) == Load32(data, q) <==> data[p..p + 4] == data[q..q + 4]
  {
    LoadInjective(data[p], data[p + 1], data[p + 2], data[p + 3], data[q], data[q + 1], data[q + 2], data[q + 3]);
    FourBytes(data, p);
    FourBytes(data, q);
  }

  lemma FourBytes(data: seq<octet>, p: nat)
    requires p + 4 <= |data|
    ensures data[p..p + 4] == [data[p], data[p + 1], data[p + 2], data[p + 3]]
  {
  }

  lemma LoadInjective(a0: octet, a1: octet, a2: octet, a3: octet, b0: octet, b1: octet, b2: octet, b3: octet)
    ensures a0 as nat + 256 * (a1 as nat) + 65536 * (a2 as nat) + 16777216 * (a3 as nat)
         == b0 as nat + 256 * (b1 as nat) + 65536 * (b2 as nat) + 16777216 * (b3 as nat)
       <==> a0 == b0 && a1 == b1 && a2 == b2 && a3 == b3
  {
  }

  /** The multiplicative hash of a 32-bit word, its top 16 bits. */
  function Hash4(v: nat): (h: nat)
    ensures h < HASH_SIZE
  {
    (v * 2654435761) % U32 / 65536
  }

  method PutLength(out: seq<octet>, extra: nat) returns (r: seq<octet>)
    ensures r == out + LengthBytes(extra)
  {
    r := out;
    var left := extra;
    while left >= 255
      invariant r + LengthBytes(left) == out + LengthBytes(extra)
    {
      r := r + [255];
      left := left - 255;
    }
    r := r + [left];
  }

  /** The length extension after a nibble, if there is one. */
  method PutExtension(out: seq<octet>, n: nat) returns (r: seq<octet>)
    ensures r == out + Extension(n)
  {
    r := out;
    if n >= 15 {
      r := PutLength(r, n - 15);
    }
  }

  /** `put_literals_and_match`; without a match it is the last sequence. */
  method PutSequence(out: seq<octet>, lit: seq<octet>, hasMatch: bool, offset: nat, matchLen: nat)
    returns (r: seq<octet>)
    requires hasMatch ==> offset <= MAX_OFFSET && matchLen >= MIN_MATCH
    ensures r == out + if hasMatch then Sequence(lit, offset, matchLen - MIN_MATCH) else LastSequence(lit)
  {
    hide Extension;
    var extra := if hasMatch then matchLen - MIN_MATCH else 0;
    var token: octet := 16 * Nibble(|lit|) + Nibble(extra);
    r := out + [token];
    r := PutExtension(r, |lit|);
    r := r + lit;
    assert r == out + ([token] + Extension(|lit|) + lit);
    if !hasMatch {
      return;
    }
    var off: seq<octet> := [offset % 256, offset / 256];
    ghost var before := [token] + Extension(|lit|) + lit;
    r := r + off;
    r := PutExtension(r, extra);
    assert r == out + (before + off + Extension(extra));
  }

  /** Whatever is appended, the block so far stands for the first `anchor` bytes. */
  ghost predicate Stands(out: seq<octet>, data: seq<octet>, anchor: nat)
    requires anchor <= |data|
  {
    forall tail :: Decode(out + tail, [], Some(|data|)) == Decode(tail, data[..anchor], Some(|data|))
  }

  lemma StandsAtStart(data: seq<octet>)
    ensures Stands([], data, 0)
  {
    hide Decode;
    forall tail ensures Decode([] + tail, [], Some(|data|)) == Decode(tail, data[..0], Some(|data|)) {
      assert [] + tail == tail;
    }
  }

  lemma StandsAtEnd(out: seq<octet>, data: seq<octet>, anchor: nat)
    requires anchor <= |data| && Stands(out, data, anchor)
    ensures Decode(out + LastSequence(data[anchor..]), [], Some(|data|)) == Some(data)
  {
    hide Decode, LastSequence;
    ReadsLast(data[anchor..], data[..anchor], Some(|data|));
    assert data[..anchor] + data[anchor..] == data;
  }

  lemma StandsAfter(out: seq<octet>, data: seq<octet>, anchor: nat, ip: nat, candidate: nat, matchEnd: nat)
    requires anchor <= ip && candidate < ip && ip - candidate <= MAX_OFFSET && ip + MIN_MATCH <= matchEnd <= |data|
    requires Stands(out, data, anchor) && MatchAllowed(ip, matchEnd - ip, |data|)
    requires data[ip..matchEnd] == data[candidate..candidate + (matchEnd - ip)]
    ensures Stands(out + Sequence(data[anchor..ip], ip - candidate, matchEnd - ip - MIN_MATCH), data, matchEnd)
  {
    hide Decode, Sequence;
    var s := Sequence(data[anchor..ip], ip - candidate, matchEnd - ip - MIN_MATCH);
    assert data[..anchor] + data[anchor..ip] == data[..ip];
    CopiesAhead(data, ip, candidate, matchEnd - ip);
    forall tail
      ensures Decode(out + s + tail, [], Some(|data|)) == Decode(tail, data[..matchEnd], Some(|data|))
    {
      assert out + s + tail == out + (s + tail);
      ReadsSequence(data[anchor..ip], ip - candidate, matchEnd - ip - MIN_MATCH, data[..anchor], tail, Some(|data|));
    }
  }

  /** How far the match at ip against candidate runs: past the first four bytes, as far as the bytes agree, never
      into the last literals. */
  method ExtendMatch(data: seq<octet>, ip: nat, candidate: nat) returns (matchEnd: nat)
    requires candidate < ip && ip + MF_LIMIT < |data| && data[ip..ip + 4] == data[candidate..candidate + 4]
    ensures ip + MIN_MATCH <= matchEnd <= |data| - LAST_LITERALS
    ensures data[ip..matchEnd] == data[candidate..candidate + (matchEnd - ip)]
    ensures matchEnd < |data| - LAST_LITERALS ==> data[matchEnd] != data[candidate + (matchEnd - ip)]
  {
    matchEnd := ip + MIN_MATCH;
    var refEnd := candidate + MIN_MATCH;
    while matchEnd < |data| - LAST_LITERALS && data[matchEnd] == data[refEnd]
      invariant ip + MIN_MATCH <= matchEnd <= |data| - LAST_LITERALS && refEnd == candidate + (matchEnd - ip)
      invariant data[ip..matchEnd] == data[candidate..refEnd]
    {
      assert data[ip..matchEnd + 1] == data[ip..matchEnd] + [data[matchEnd]];
      assert data[candidate..refEnd + 1] == data[candidate..refEnd] + [data[refEnd]];
      matchEnd, refEnd := matchEnd + 1, refEnd + 1;
    }
  }

  /** Compresses a block of any size: decoding gives the data back, and the block obeys the end-of-block
      rules. Positions are kept in 32 bits; one that wrapped is too far back to be used. */
  method CompressBlock(data: seq<octet>) returns (out: seq<octet>)
    ensures Decode(out, [], Some(|data|)) == Some(data)
  {
    hide Decode, Sequence, LastSequence, Hash4, Load32, Stands;
    if |data| < MF_LIMIT + 1 {
      StandsAtStart(data);
      StandsAtEnd([], data, 0);
      assert data[0..] == data;
      out := PutSequence([], data, false, 0, 0);
      return;
    }
    out := [];
    StandsAtStart(data);
    var table := new nat[HASH_SIZE](_ => 0);
    var matchStartLimit := |data| - MF_LIMIT;
    var anchor, ip := 0, 1;
    while ip < matchStartLimit
      invariant 0 <= anchor <= ip <= |data| && Stands(out, data, anchor)
    {
      var seq4 := Load32(data, ip);
      var slot := Hash4(seq4);
      var candidate := table[slot];
      table[slot] := ip % U32;
      if candidate >= ip || ip - candidate > MAX_OFFSET || Load32(data, candidate) != seq4 {
        ip := ip + 1;
        continue;
      }
      Load32Same(data, ip, candidate);
      var matchEnd := ExtendMatch(data, ip, candidate);
      StandsAfter(out, data, anchor, ip, candidate, matchEnd);
      out := PutSequence(out, data[anchor..ip], true, ip - candidate, matchEnd - ip);
      var p := ip + 1;
      while p < matchEnd && p < matchStartLimit
        invariant ip < p
      {
        table[Hash4(Load32(data, p))] := p % U32;
        p := p + 2;
      }
      ip := matchEnd;
      anchor := matchEnd;
    }
    StandsAtEnd(out, data, anchor);
    out := PutSequence(out, data[anchor..], false, 0, 0);
  }

  // ---- Lance's size-prefixed envelope --------------------------------------------------------------

  const SIZE_MAX := 0xFFFF_FFFF_FFFF_FFFF

  /** `decompress_block`: the declared size is checked against what the block could produce before anything
      is allocated, then against what it did produce. */
  function DecompressBlock(block: seq<octet>, declared: nat): Option<seq<octet>> {
    var maxPossible := if |block| > SIZE_MAX / 255 - 1 then SIZE_MAX else (|block| + 1) * 255;
    if declared > maxPossible then None
    else if |block| == 0 then if declared != 0 then None else Some([])
    else
      match Decode(block, [], None)
      case None => None
      case Some(out) => if |out| == declared then Some(out) else None
  }

  /** The early check refuses no block that decodes to its declared size. */
  lemma SizeCheckLosesNothing(block: seq<octet>, out: seq<octet>)
    requires Decode(block, [], None) == Some(out) && |out| <= SIZE_MAX
    ensures DecompressBlock(block, |out|) == Some(out)
  {
  }

  function DecompressSized(sized: seq<octet>, limit: nat): Option<seq<octet>> {
    if |sized| < 4 || Load32(sized, 0) > limit then None else DecompressBlock(sized[4..], Load32(sized, 0))
  }

  /** The four size bytes, lowest first. */
  function SizePrefix(n: nat): seq<octet>
    requires n < U32
  {
    [n % 256, n / 256 % 256, n / 65536 % 256, n / 16777216]
  }

  /** `compress_sized`: refused when the size does not fit the prefix; else `decompress_sized` gives the data
      back. */
  method CompressSized(data: seq<octet>) returns (r: Option<seq<octet>>)
    ensures r.None? <==> |data| >= U32
    ensures r.Some? ==> forall limit :: |data| <= limit ==> DecompressSized(r.value, limit) == Some(data)
  {
    hide Decode;
    if |data| >= U32 {
      return None;
    }
    var block := CompressBlock(data);
    RulesOnlyRefuse(block, [], |data|);
    SizeCheckLosesNothing(block, data);
    var sized := SizePrefix(|data|) + block;
    assert sized[4..] == block;
    assert Load32(sized, 0) == |data|;
    r := Some(sized);
  }
}
