/** The roaring bitmap codec of src/base/roaring_bitmap.cpp: index coverage and rewritten row addresses as they
    are stored. */
module Roaring {
  import opened Order
  import opened Bytes
  import opened Options

  const COOKIE_NO_RUNS := 12346
  const COOKIE := 12347
  const NO_OFFSET_THRESHOLD := 4
  const ARRAY_MAX := 4096
  const BITMAP_BYTES := 8192
  const U16 := 65536
  const U32 := 0x1_0000_0000

  // ---- bytes and bits ------------------------------------------------------------------------------

  /** Bit v of a bitmap container. */
  predicate BitAt(bits: seq<byte>, v: nat)
    requires |bits| == BITMAP_BYTES && v < U16
  {
    Bit(bits[v / 8], v % 8)
  }

  function SetAt(bits: seq<byte>, v: nat): (r: seq<byte>)
    requires |bits| == BITMAP_BYTES && v < U16
    ensures |r| == BITMAP_BYTES
  {
    bits[v / 8 := bits[v / 8] | Mask(v % 8)]
  }

  lemma SetAtBits(bits: seq<byte>, v: nat, w: nat)
    requires |bits| == BITMAP_BYTES && v < U16 && w < U16
    ensures BitAt(SetAt(bits, v), w) <==> w == v || BitAt(bits, w)
  {
    hide Bit, Mask;
    OrBit(bits[v / 8], v % 8, w % 8);
  }

  // ---- little-endian numbers -----------------------------------------------------------------------

  function Put16(v: nat): (s: seq<byte>)
    ensures |s| == 2
  {
    [Byte(v % 256), Byte(v / 256 % 256)]
  }

  function Put32(v: nat): (s: seq<byte>)
    ensures |s| == 4
  {
    Put16(v % U16) + Put16(v / U16)
  }

  function Get16(b: seq<byte>): (v: nat)
    requires |b| >= 2
    ensures v < U16
  {
    Val(b[0]) + 256 * Val(b[1])
  }

  function Get32(b: seq<byte>): (v: nat)
    requires |b| >= 4
    ensures v < U32
  {
    Get16(b) + U16 * Get16(b[2..])
  }

  lemma Get16Put(v: nat, rest: seq<byte>)
    requires v < U16
    ensures Get16(Put16(v) + rest) == v && (Put16(v) + rest)[2..] == rest
  {
    hide Byte, Val;
    ValByte(v % 256);
    ValByte(v / 256 % 256);
    assert v == v % 256 + 256 * (v / 256 % 256);
  }

  lemma Get32Put(v: nat, rest: seq<byte>)
    requires v < U32
    ensures Get32(Put32(v) + rest) == v && (Put32(v) + rest)[4..] == rest
  {
    hide Get16, Put16;
    var hi := Put16(v / U16) + rest;
    assert Put32(v) + rest == Put16(v % U16) + hi;
    Get16Put(v % U16, hi);
    Get16Put(v / U16, rest);
  }

  // ---- reading -------------------------------------------------------------------------------------

  datatype Header = Header(key: nat, card: nat)

  /** n container headers after one with key prev (-1: none): the keys ascend. What is left of the bytes. */
  function ReadHeaders(b: seq<byte>, n: nat, prev: int): Option<(seq<Header>, seq<byte>)>
    decreases n
  {
    if n == 0 then Some(([], b))
    else if |b| < 4 || Get16(b) <= prev then None
    else
      match ReadHeaders(b[4..], n - 1, Get16(b))
      case None => None
      case Some((hs, rest)) => Some(([Header(Get16(b), Get16(b[2..]) + 1)] + hs, rest))
  }

  /** n values of an array container, each above prev. */
  function ReadArray(b: seq<byte>, n: nat, high: nat, prev: int): Option<(seq<nat>, seq<byte>)>
    decreases n
  {
    if n == 0 then Some(([], b))
    else if |b| < 2 || high * U16 + Get16(b) <= prev then None
    else
      var v := high * U16 + Get16(b);
      match ReadArray(b[2..], n - 1, high, v)
      case None => None
      case Some((vs, rest)) => Some(([v] + vs, rest))
  }

  function RunValues(high: nat, start: nat, end: nat): (vs: seq<nat>)
    requires start <= end + 1
    ensures |vs| == end + 1 - start && forall i :: 0 <= i < |vs| ==> vs[i] == high * U16 + start + i
  {
    seq(end + 1 - start, i requires 0 <= i => high * U16 + start + i)
  }

  /** n runs, each starting after the end of the one before (-1: none). */
  function ReadRuns(b: seq<byte>, n: nat, high: nat, prevEnd: int): Option<(seq<nat>, seq<byte>)>
    decreases n
  {
    if n == 0 then Some(([], b))
    else if |b| < 4 then None
    else
      var start, end := Get16(b), Get16(b) + Get16(b[2..]);
      if end > 0xFFFF || start <= prevEnd then None
      else
        match ReadRuns(b[4..], n - 1, high, end)
        case None => None
        case Some((vs, rest)) => Some((RunValues(high, start, end) + vs, rest))
  }

  /** The bits set at v and after, as values. */
  function BitValues(bits: seq<byte>, high: nat, v: nat): seq<nat>
    requires |bits| == BITMAP_BYTES && v <= U16
    decreases U16 - v
  {
    if v == U16 then []
    else (if BitAt(bits, v) then [high * U16 + v] else []) + BitValues(bits, high, v + 1)
  }

  function ReadContainer(h: Header, run: bool, b: seq<byte>): Option<(seq<nat>, seq<byte>)> {
    if run then if |b| < 2 then None else ReadRuns(b[2..], Get16(b), h.key, -1)
    else if h.card <= ARRAY_MAX then ReadArray(b, h.card, h.key, -1)
    else if |b| < BITMAP_BYTES then None
    else Some((BitValues(b[..BITMAP_BYTES], h.key, 0), b[BITMAP_BYTES..]))
  }

  /** Whether container c is a run container. */
  predicate IsRun(flags: seq<byte>, c: nat) {
    c / 8 < |flags| && Bit(flags[c / 8], c % 8)
  }

  /** The containers from c on; one that holds other than its declared number of values is refused. */
  function ReadContainers(hs: seq<Header>, flags: seq<byte>, c: nat, b: seq<byte>): Option<(seq<nat>, seq<byte>)>
    decreases |hs|
  {
    if hs == [] then Some(([], b))
    else
      match ReadContainer(hs[0], IsRun(flags, c), b)
      case None => None
      case Some((vs, rest)) =>
        if |vs| != hs[0].card then None
        else
          match ReadContainers(hs[1..], flags, c + 1, rest)
          case None => None
          case Some((more, left)) => Some((vs + more, left))
  }

  /** What follows the cookie: `containers` headers, the offsets when there are any, the containers. */
  function ReadBody(containers: nat, flags: seq<byte>, offsets: bool, b: seq<byte>): Option<(seq<nat>, seq<byte>)> {
    if containers > U16 || containers > |b| / 4 then None
    else
      match ReadHeaders(b, containers, -1)
      case None => None
      case Some((hs, rest)) =>
        var skip := if offsets then 4 * containers else 0;
        if |rest| < skip then None else ReadContainers(hs, flags, 0, rest[skip..])
  }

  /** `decode_prefix`: the values, and the bytes after the bitmap. */
  function DecodePrefix(b: seq<byte>): Option<(seq<nat>, seq<byte>)> {
    if |b| < 4 then None
    else if Get32(b) == COOKIE_NO_RUNS then
      if |b| < 8 then None else ReadBody(Get32(b[4..]), [], true, b[8..])
    else if Get32(b) % U16 == COOKIE then
      var containers := Get32(b) / U16 + 1;
      var flagBytes := (containers + 7) / 8;
      if |b| - 4 < flagBytes then None
      else ReadBody(containers, b[4..4 + flagBytes], containers >= NO_OFFSET_THRESHOLD, b[4 + flagBytes..])
    else None
  }

  /** `decode`: bytes after the bitmap are ignored. */
  function Decode(b: seq<byte>): Option<seq<nat>> {
    match DecodePrefix(b)
    case None => None
    case Some((ids, _)) => Some(ids)
  }

  // ---- what is read is ascending -------------------------------------------------------------------

  /** The values of one container: ascending, all with its key as their high 16 bits. */
  ghost predicate Within(vs: seq<nat>, high: nat) {
    Ascending(vs) && forall v :: v in vs ==> v / U16 == high
  }

  lemma {:induction false} ArrayAscends(b: seq<byte>, n: nat, high: nat, prev: int)
    requires ReadArray(b, n, high, prev).Some?
    ensures Within(ReadArray(b, n, high, prev).value.0, high)
    ensures forall v :: v in ReadArray(b, n, high, prev).value.0 ==> v > prev
    decreases n
  {
    hide Get16;
    if n > 0 {
      var v := high * U16 + Get16(b);
      ArrayAscends(b[2..], n - 1, high, v);
      HighOf(high, Get16(b));
      AscendsCons(v, ReadArray(b[2..], n - 1, high, v).value.0);
    }
  }

  lemma HighOf(high: nat, low: nat)
    requires low < U16
    ensures (high * U16 + low) / U16 == high && (high * U16 + low) % U16 == low
  {
  }

  lemma AscendsCons(v: nat, vs: seq<nat>)
    requires Ascending(vs) && forall w :: w in vs ==> w > v
    ensures Ascending([v] + vs)
  {
    forall j | 0 <= j < |vs| ensures v < vs[j] { assert vs[j] in vs; }
  }

  lemma AscendsConcat(a: seq<nat>, b: seq<nat>, m: int)
    requires Ascending(a) && Ascending(b) && (forall v :: v in a ==> v <= m) && forall v :: v in b ==> v > m
    ensures Ascending(a + b)
  {
    forall i, j | 0 <= i < |a| && 0 <= j < |b| ensures a[i] < b[j] { assert a[i] in a && b[j] in b; }
  }

  lemma {:induction false} RunsAscend(b: seq<byte>, n: nat, high: nat, prevEnd: int)
    requires ReadRuns(b, n, high, prevEnd).Some?
    ensures Within(ReadRuns(b, n, high, prevEnd).value.0, high)
    ensures forall v :: v in ReadRuns(b, n, high, prevEnd).value.0 ==> v > high * U16 + prevEnd
    decreases n
  {
    hide Get16;
    if n > 0 {
      var start, end := Get16(b), Get16(b) + Get16(b[2..]);
      RunsAscend(b[4..], n - 1, high, end);
      var run, more := RunValues(high, start, end), ReadRuns(b[4..], n - 1, high, end).value.0;
      forall v | v in run ensures v / U16 == high && high * U16 + prevEnd < v <= high * U16 + end {
        var i :| 0 <= i < |run| && run[i] == v;
        HighOf(high, start + i);
      }
      AscendsConcat(run, more, high * U16 + end);
    }
  }

  lemma {:induction false} BitsAscend(bits: seq<byte>, high: nat, v: nat)
    requires |bits| == BITMAP_BYTES && v <= U16
    ensures Within(BitValues(bits, high, v), high)
    ensures forall w :: w in BitValues(bits, high, v) <==>
            exists u :: v <= u < U16 && BitAt(bits, u) && w == high * U16 + u
    decreases U16 - v
  {
    hide BitAt;
    if v < U16 {
      BitsAscend(bits, high, v + 1);
      HighOf(high, v);
      if BitAt(bits, v) { AscendsCons(high * U16 + v, BitValues(bits, high, v + 1)); }
    }
  }

  lemma ContainerAscends(h: Header, run: bool, b: seq<byte>)
    requires ReadContainer(h, run, b).Some?
    ensures Within(ReadContainer(h, run, b).value.0, h.key)
  {
    hide Within, BitAt;
    if run {
      RunsAscend(b[2..], Get16(b), h.key, -1);
    } else if h.card <= ARRAY_MAX {
      ArrayAscends(b, h.card, h.key, -1);
    } else {
      BitsAscend(b[..BITMAP_BYTES], h.key, 0);
    }
  }

  ghost predicate KeysAscend(hs: seq<Header>, prev: int) {
    && (forall i :: 0 <= i < |hs| ==> prev < hs[i].key < U16)
    && (forall i, j :: 0 <= i < j < |hs| ==> hs[i].key < hs[j].key)
  }

  lemma {:induction false} HeadersAscend(b: seq<byte>, n: nat, prev: int)
    requires ReadHeaders(b, n, prev).Some?
    ensures KeysAscend(ReadHeaders(b, n, prev).value.0, prev) && |ReadHeaders(b, n, prev).value.0| == n
    decreases n
  {
    hide Get16;
    if n > 0 { HeadersAscend(b[4..], n - 1, Get16(b)); }
  }

  lemma {:induction false} ContainersAscend(hs: seq<Header>, flags: seq<byte>, c: nat, b: seq<byte>, prev: int)
    requires ReadContainers(hs, flags, c, b).Some? && KeysAscend(hs, prev)
    ensures Ascending(ReadContainers(hs, flags, c, b).value.0)
    ensures forall v :: v in ReadContainers(hs, flags, c, b).value.0 ==> prev < v / U16 < U16
    decreases |hs|
  {
    hide ReadContainer, IsRun;
    if hs != [] {
      var h := hs[0];
      ContainerAscends(h, IsRun(flags, c), b);
      var (vs, rest) := ReadContainer(h, IsRun(flags, c), b).value;
      ContainersAscend(hs[1..], flags, c + 1, rest, h.key);
      var more := ReadContainers(hs[1..], flags, c + 1, rest).value.0;
      forall v | v in vs ensures v <= h.key * U16 + (U16 - 1) { assert v / U16 == h.key; }
      forall v | v in more ensures v > h.key * U16 + (U16 - 1) { assert v / U16 > h.key; }
      AscendsConcat(vs, more, h.key * U16 + (U16 - 1));
    }
  }

  /** Whatever the bytes, what is read from them is ascending, distinct 32-bit values. */
  lemma DecodedAscends(b: seq<byte>)
    requires Decode(b).Some?
    ensures Ascending(Decode(b).value) && forall v :: v in Decode(b).value ==> v < U32
  {
    hide ReadHeaders, ReadContainers, Get32;
    if Get32(b) == COOKIE_NO_RUNS {
      BodyAscends(Get32(b[4..]), [], true, b[8..]);
    } else {
      var containers := Get32(b) / U16 + 1;
      var flagBytes := (containers + 7) / 8;
      BodyAscends(containers, b[4..4 + flagBytes], containers >= NO_OFFSET_THRESHOLD, b[4 + flagBytes..]);
    }
  }

  lemma BodyAscends(containers: nat, flags: seq<byte>, offsets: bool, b: seq<byte>)
    requires ReadBody(containers, flags, offsets, b).Some?
    ensures Ascending(ReadBody(containers, flags, offsets, b).value.0)
    ensures forall v :: v in ReadBody(containers, flags, offsets, b).value.0 ==> v < U32
  {
    hide ReadHeaders, ReadContainers;
    var (hs, rest) := ReadHeaders(b, containers, -1).value;
    HeadersAscend(b, containers, -1);
    ContainersAscend(hs, flags, 0, rest[if offsets then 4 * containers else 0..], -1);
  }

  // ---- writing -------------------------------------------------------------------------------------

  ghost predicate Below(l: seq<nat>, m: nat) {
    forall i :: 0 <= i < |l| ==> l[i] < m
  }

  /** Ids whose quotient by some m is the same, as their remainders. */
  datatype Container = Container(high: nat, lows: seq<nat>)

  function Quot(a: nat, m: nat): nat
    requires m > 0
  {
    a / m
  }

  function Rem(a: nat, m: nat): nat
    requires m > 0
  {
    a % m
  }

  function Lows(ids: seq<nat>, m: nat): (l: seq<nat>)
    requires m > 0
    ensures |l| == |ids| && forall i :: 0 <= i < |ids| ==> l[i] == Rem(ids[i], m)
  {
    seq(|ids|, i requires 0 <= i < |ids| => Rem(ids[i], m))
  }

  /** How many ids from the first on share its high bits. */
  function SpanLength(ids: seq<nat>, m: nat): (n: nat)
    requires ids != [] && m > 0
    ensures 1 <= n <= |ids| && (forall i :: 0 <= i < n ==> Quot(ids[i], m) == Quot(ids[0], m))
    ensures n < |ids| ==> Quot(ids[n], m) != Quot(ids[0], m)
  {
    if |ids| == 1 || Quot(ids[1], m) != Quot(ids[0], m) then 1
    else
      var t := SpanLength(ids[1..], m);
      assert forall i :: 1 <= i < 1 + t ==> ids[i] == ids[1..][i - 1];
      1 + t
  }

  function Containers(ids: seq<nat>, m: nat): seq<Container>
    requires m > 0
    decreases |ids|
  {
    if ids == [] then []
    else
      var n := SpanLength(ids, m);
      [Container(Quot(ids[0], m), Lows(ids[..n], m))] + Containers(ids[n..], m)
  }

  /** The values of a container, its high bits put back. */
  function Joined(c: Container, m: nat): (l: seq<nat>)
    ensures |l| == |c.lows| && forall i :: 0 <= i < |l| ==> l[i] == Whole(c.high, c.lows[i], m)
  {
    seq(|c.lows|, i requires 0 <= i < |c.lows| => Whole(c.high, c.lows[i], m))
  }

  function Whole(high: nat, low: nat, m: nat): nat {
    high * m + low
  }

  function AllJoined(cs: seq<Container>, m: nat): seq<nat> {
    if cs == [] then [] else Joined(cs[0], m) + AllJoined(cs[1..], m)
  }

  lemma DivMod(a: nat, m: nat)
    requires m > 0
    ensures a == Quot(a, m) * m + Rem(a, m) && Rem(a, m) < m
  {
  }

  lemma DivMonotone(a: nat, b: nat, m: nat)
    requires m > 0 && a <= b
    ensures Quot(a, m) <= Quot(b, m)
  {
    hide Quot, Rem;
    DivMod(a, m);
    DivMod(b, m);
    if Quot(a, m) > Quot(b, m) { MulStep(Quot(a, m), Quot(b, m), m); }
  }

  lemma MulStep(p: nat, q: nat, m: nat)
    requires p > q
    ensures p * m >= q * m + m
  {
    assert p * m == q * m + (p - q) * m;
    assert (p - q) * m >= m by { MulAtLeast(p - q, m); }
  }

  lemma MulAtLeast(k: nat, m: nat)
    requires k >= 1
    ensures k * m >= m
  {
  }

  /** Splitting ids by their high bits and putting those back gives the ids. */
  lemma {:induction false} JoinedBack(ids: seq<nat>, m: nat)
    requires m > 0
    ensures AllJoined(Containers(ids, m), m) == ids
    decreases |ids|
  {
    hide SpanLength, Lows, Joined, Quot, Rem, Whole, Containers, AllJoined;
    if ids == [] {
      NoneJoined(m);
    } else {
      var n := SpanLength(ids, m);
      FirstContainer(ids, m, n);
      JoinedBack(ids[n..], m);
      SpanJoined(ids, m, n);
      AllJoinedCons(Container(Quot(ids[0], m), Lows(ids[..n], m)), Containers(ids[n..], m), m);
      assert ids == ids[..n] + ids[n..];
    }
  }

  lemma NoneJoined(m: nat)
    requires m > 0
    ensures AllJoined(Containers([], m), m) == []
  {
  }

  lemma FirstContainer(ids: seq<nat>, m: nat, n: nat)
    requires m > 0 && ids != [] && n == SpanLength(ids, m)
    ensures Containers(ids, m) == [Container(Quot(ids[0], m), Lows(ids[..n], m))] + Containers(ids[n..], m)
  {
  }

  lemma AllJoinedCons(c: Container, cs: seq<Container>, m: nat)
    ensures AllJoined([c] + cs, m) == Joined(c, m) + AllJoined(cs, m)
  {
    assert ([c] + cs)[1..] == cs;
  }

  lemma WholeBack(x: nat, m: nat)
    requires m > 0
    ensures Whole(Quot(x, m), Rem(x, m), m) == x
  {
    hide Quot, Rem;
    DivMod(x, m);
  }

  lemma SpanJoined(ids: seq<nat>, m: nat, n: nat)
    requires m > 0 && 1 <= n <= |ids| && forall i :: 0 <= i < n ==> Quot(ids[i], m) == Quot(ids[0], m)
    ensures Joined(Container(Quot(ids[0], m), Lows(ids[..n], m)), m) == ids[..n]
  {
    hide Quot, Rem, Whole;
    forall i | 0 <= i < n ensures Whole(Quot(ids[0], m), Rem(ids[i], m), m) == ids[i] { WholeBack(ids[i], m); }
  }

  ghost predicate HighsAscend(cs: seq<Container>, prev: int) {
    && (forall i :: 0 <= i < |cs| ==> prev < cs[i].high)
    && (forall i, j :: 0 <= i < j < |cs| ==> cs[i].high < cs[j].high)
  }

  lemma {:induction false} ContainersHighs(ids: seq<nat>, m: nat, prev: int)
    requires m > 0 && Ascending(ids) && (ids != [] ==> Quot(ids[0], m) > prev)
    ensures HighsAscend(Containers(ids, m), prev)
    decreases |ids|
  {
    hide Quot, Rem, HighsAscend, Lows;
    if ids == [] {
      HighsNone(prev);
    } else {
      var n := SpanLength(ids, m);
      if n < |ids| { DivMonotone(ids[0], ids[n], m); }
      TailAscends(ids, n);
      ContainersHighs(ids[n..], m, Quot(ids[0], m));
      HighsCons(Container(Quot(ids[0], m), Lows(ids[..n], m)), Containers(ids[n..], m), prev);
    }
  }

  lemma TailAscends(ids: seq<nat>, n: nat)
    requires Ascending(ids) && n <= |ids|
    ensures Ascending(ids[n..])
  {
  }

  lemma HighsNone(prev: int)
    ensures HighsAscend([], prev)
  {
  }

  lemma HighsCons(c: Container, cs: seq<Container>, prev: int)
    requires HighsAscend(cs, c.high) && prev < c.high
    ensures HighsAscend([c] + cs, prev)
  {
  }

  /** One container: some lows, ascending, each below m. */
  ghost predicate LowsOk(c: Container, m: nat) {
    |c.lows| >= 1 && Ascending(c.lows) && Below(c.lows, m)
  }

  lemma {:induction false} ContainersLows(ids: seq<nat>, m: nat, top: nat)
    requires m > 0 && Ascending(ids) && (forall i :: 0 <= i < |ids| ==> Quot(ids[i], m) < top)
    ensures forall i :: 0 <= i < |Containers(ids, m)| ==>
            LowsOk(Containers(ids, m)[i], m) && Containers(ids, m)[i].high < top
    decreases |ids|
  {
    hide Quot, Rem;
    if ids != [] {
      var n := SpanLength(ids, m);
      ContainersLows(ids[n..], m, top);
      SpanOk(ids, m, n);
    }
  }

  lemma SpanOk(ids: seq<nat>, m: nat, n: nat)
    requires m > 0 && Ascending(ids) && 1 <= n <= |ids|
    requires forall i :: 0 <= i < n ==> Quot(ids[i], m) == Quot(ids[0], m)
    ensures LowsOk(Container(Quot(ids[0], m), Lows(ids[..n], m)), m)
  {
    hide Quot, Rem;
    var l := Lows(ids[..n], m);
    forall i | 0 <= i < n ensures ids[i] == Quot(ids[0], m) * m + l[i] && l[i] < m { DivMod(ids[i], m); }
  }

  function BitmapBytes(lows: seq<nat>): (s: seq<byte>)
    requires Below(lows, U16)
    ensures |s| == BITMAP_BYTES
  {
    if lows == [] then Zeros(BITMAP_BYTES) else SetAt(BitmapBytes(lows[..|lows| - 1]), lows[|lows| - 1])
  }

  function ArrayBytes(lows: seq<nat>): (s: seq<byte>)
    ensures |s| == 2 * |lows|
  {
    if lows == [] then [] else Put16(lows[0]) + ArrayBytes(lows[1..])
  }

  ghost predicate ContainerOk(c: Container) {
    c.high < U16 && LowsOk(c, U16)
  }

  ghost predicate ContainersOk(cs: seq<Container>) {
    forall i :: 0 <= i < |cs| ==> ContainerOk(cs[i])
  }

  /** Containers as any ids are cut into: none without values, whatever their order. */
  ghost predicate Cut(cs: seq<Container>, m: nat) {
    forall i :: 0 <= i < |cs| ==> |cs[i].lows| >= 1 && Below(cs[i].lows, m)
  }

  lemma {:induction false} ContainersCut(ids: seq<nat>, m: nat)
    requires m > 0
    ensures Cut(Containers(ids, m), m)
    decreases |ids|
  {
    hide Quot, Rem;
    if ids != [] {
      var n := SpanLength(ids, m);
      ContainersCut(ids[n..], m);
      forall i | 0 <= i < n ensures Rem(ids[i], m) < m { DivMod(ids[i], m); }
    }
  }

  function BodySize(c: Container): nat {
    if |c.lows| <= ARRAY_MAX then 2 * |c.lows| else BITMAP_BYTES
  }

  function Body(c: Container): (s: seq<byte>)
    requires Below(c.lows, U16)
    ensures |s| == BodySize(c)
  {
    if |c.lows| <= ARRAY_MAX then ArrayBytes(c.lows) else BitmapBytes(c.lows)
  }

  function HeaderBytes(cs: seq<Container>): (s: seq<byte>)
    requires forall i :: 0 <= i < |cs| ==> |cs[i].lows| >= 1
    ensures |s| == 4 * |cs|
  {
    if cs == [] then [] else Put16(cs[0].high) + Put16(|cs[0].lows| - 1) + HeaderBytes(cs[1..])
  }

  function OffsetBytes(cs: seq<Container>, at: nat): (s: seq<byte>)
    ensures |s| == 4 * |cs|
  {
    if cs == [] then [] else Put32(at % U32) + OffsetBytes(cs[1..], at + BodySize(cs[0]))
  }

  function BodyBytes(cs: seq<Container>): seq<byte>
    requires forall i :: 0 <= i < |cs| ==> Below(cs[i].lows, U16)
  {
    if cs == [] then [] else Body(cs[0]) + BodyBytes(cs[1..])
  }

  lemma ContainersAreOk(ids: seq<nat>)
    requires Ascending(ids) && Below(ids, U32)
    ensures ContainersOk(Containers(ids, U16)) && HighsAscend(Containers(ids, U16), -1) && |Containers(ids, U16)| <= U16
  {
    ContainersLows(ids, U16, U16);
    ContainersHighs(ids, U16, -1);
    HighsBounded(Containers(ids, U16), U16);
  }

  lemma HighsBounded(cs: seq<Container>, top: nat)
    requires HighsAscend(cs, -1) && forall i :: 0 <= i < |cs| ==> cs[i].high < top
    ensures |cs| <= top
  {
    var highs := seq(|cs|, i requires 0 <= i < |cs| => cs[i].high);
    AscendingBounded(highs, top);
  }

  /** An ascending list of numbers below m has at most m of them. */
  lemma AscendingBounded(l: seq<nat>, m: nat)
    requires Ascending(l) && Below(l, m)
    ensures |l| <= m
  {
    if l != [] {
      AscendingAtLeast(l, |l| - 1);
    }
  }

  lemma {:induction false} AscendingAtLeast(l: seq<nat>, i: nat)
    requires Ascending(l) && i < |l|
    ensures l[i] >= i
    decreases i
  {
    if i > 0 { AscendingAtLeast(l, i - 1); }
  }

  function HeadOf(cs: seq<Container>): (s: seq<byte>)
    requires forall i :: 0 <= i < |cs| ==> |cs[i].lows| >= 1
    ensures |s| == 8 + 4 * |cs|
  {
    Put32(COOKIE_NO_RUNS) + Put32(|cs| % U32) + HeaderBytes(cs)
  }

  ghost function EncodedOf(cs: seq<Container>): seq<byte>
    requires Cut(cs, U16)
  {
    HeadOf(cs) + OffsetBytes(cs, 8 + 8 * |cs|) + BodyBytes(cs)
  }

  ghost predicate Encodable(ids: seq<nat>) {
    Ascending(ids) && Below(ids, U32)
  }

  /** The bytes `encode` writes for some ids. */
  ghost function Encoded(ids: seq<nat>): seq<byte> {
    ContainersCut(ids, U16);
    EncodedOf(Containers(ids, U16))
  }

  // ---- the round trip ------------------------------------------------------------------------------

  lemma {:induction false} BitmapHolds(lows: seq<nat>, v: nat)
    requires Below(lows, U16) && v < U16
    ensures BitAt(BitmapBytes(lows), v) <==> v in lows
    decreases |lows|
  {
    if lows == [] {
      NoBits(v % 8);
    } else {
      var n := |lows| - 1;
      BitmapHolds(lows[..n], v);
      SetAtBits(BitmapBytes(lows[..n]), lows[n], v);
      assert lows == lows[..n] + [lows[n]];
    }
  }

  lemma NoBits(k: nat)
    requires k < 8
    ensures !Bit(0, k)
  {
  }

  lemma {:induction false} ArrayRead(high: nat, lows: seq<nat>, prev: int, rest: seq<byte>)
    requires Ascending(lows) && Below(lows, U16) && (lows != [] ==> high * U16 + lows[0] > prev)
    ensures ReadArray(ArrayBytes(lows) + rest, |lows|, high, prev) == Some((Joined(Container(high, lows), U16), rest))
    decreases |lows|
  {
    hide Get16, Put16, Joined;
    if lows == [] {
      assert ArrayBytes(lows) + rest == rest;
      JoinedNone(high);
    } else {
      var v, more := lows[0], ArrayBytes(lows[1..]) + rest;
      assert ArrayBytes(lows) + rest == Put16(v) + more;
      Get16Put(v, more);
      ArrayRead(high, lows[1..], high * U16 + v, rest);
      JoinedFirst(high, lows);
    }
  }

  lemma JoinedNone(high: nat)
    ensures Joined(Container(high, []), U16) == []
  {
  }

  lemma JoinedFirst(high: nat, lows: seq<nat>)
    requires lows != []
    ensures Joined(Container(high, lows), U16) == [high * U16 + lows[0]] + Joined(Container(high, lows[1..]), U16)
  {
  }

  lemma BitmapRead(c: Container)
    requires ContainerOk(c)
    ensures BitValues(BitmapBytes(c.lows), c.high, 0) == Joined(c, U16)
  {
    hide BitAt, BitValues, BitmapBytes;
    var bits, got, want := BitmapBytes(c.lows), BitValues(BitmapBytes(c.lows), c.high, 0), Joined(c, U16);
    BitsAscend(bits, c.high, 0);
    forall w: nat ensures w in Members(got) <==> w in Members(want) {
      if w in got {
        var u :| 0 <= u < U16 && BitAt(bits, u) && w == c.high * U16 + u;
        BitmapHolds(c.lows, u);
        var i :| 0 <= i < |c.lows| && c.lows[i] == u;
        assert want[i] == w;
      }
      if w in want {
        var i :| 0 <= i < |want| && want[i] == w;
        assert c.lows[i] in c.lows && c.lows[i] < U16;
        BitmapHolds(c.lows, c.lows[i]);
      }
    }
    AscendingUnique(got, want);
  }

  lemma ContainerRead(c: Container, rest: seq<byte>)
    requires ContainerOk(c)
    ensures ReadContainer(Header(c.high, |c.lows|), false, Body(c) + rest) == Some((Joined(c, U16), rest))
  {
    hide BitAt, BitValues, BitmapBytes, ArrayBytes, ReadArray;
    if |c.lows| <= ARRAY_MAX {
      ArrayRead(c.high, c.lows, -1, rest);
    } else {
      BitmapRead(c);
      assert (Body(c) + rest)[..BITMAP_BYTES] == Body(c) && (Body(c) + rest)[BITMAP_BYTES..] == rest;
    }
  }

  function HeadersOf(cs: seq<Container>): (hs: seq<Header>)
    ensures |hs| == |cs| && forall i :: 0 <= i < |cs| ==> hs[i] == Header(cs[i].high, |cs[i].lows|)
  {
    seq(|cs|, i requires 0 <= i < |cs| => Header(cs[i].high, |cs[i].lows|))
  }

  lemma HeaderFirst(cs: seq<Container>, rest: seq<byte>)
    requires ContainersOk(cs) && cs != [] && |cs[0].lows| <= U16
    ensures var b := HeaderBytes(cs) + rest;
            |b| >= 4 && Get16(b) == cs[0].high && Get16(b[2..]) == |cs[0].lows| - 1
            && b[4..] == HeaderBytes(cs[1..]) + rest
  {
    hide Get16, Put16, HeaderBytes, Ascending, Below;
    var c, more := cs[0], HeaderBytes(cs[1..]) + rest;
    assert ContainerOk(c);
    var b := HeaderBytes(cs) + rest;
    HeaderBytesFirst(cs);
    assert b == Put16(c.high) + (Put16(|c.lows| - 1) + more);
    TwoNumbers(c.high, |c.lows| - 1, more);
  }

  lemma HeaderBytesFirst(cs: seq<Container>)
    requires cs != [] && forall i :: 0 <= i < |cs| ==> |cs[i].lows| >= 1
    ensures HeaderBytes(cs) == Put16(cs[0].high) + Put16(|cs[0].lows| - 1) + HeaderBytes(cs[1..])
  {
    hide Put16;
  }

  lemma TwoNumbers(x: nat, y: nat, more: seq<byte>)
    requires x < U16 && y < U16
    ensures var b := Put16(x) + (Put16(y) + more);
            |b| >= 4 && Get16(b) == x && Get16(b[2..]) == y && b[4..] == more
  {
    hide Get16, Put16;
    var b := Put16(x) + (Put16(y) + more);
    Get16Put(x, Put16(y) + more);
    Get16Put(y, more);
    assert b[2..] == Put16(y) + more && b[4..] == b[2..][2..];
  }

  lemma {:induction false} HeadersRead(cs: seq<Container>, prev: int, rest: seq<byte>)
    requires ContainersOk(cs) && HighsAscend(cs, prev)
    ensures ReadHeaders(HeaderBytes(cs) + rest, |cs|, prev) == Some((HeadersOf(cs), rest))
    decreases |cs|
  {
    hide Get16, Put16, Ascending, Below, HeaderBytes, ReadHeaders, HeadersOf, HighsAscend;
    if cs == [] {
      HeaderBytesNone(cs);
      assert HeaderBytes(cs) + rest == rest;
      NoHeaders(rest, prev);
    } else {
      var c, more := cs[0], HeaderBytes(cs[1..]) + rest;
      assert ContainerOk(c);
      CardFits(c);
      HeaderFirst(cs, rest);
      HeadersTail(cs, prev);
      HeadersRead(cs[1..], c.high, rest);
      ReadHeader(HeaderBytes(cs) + rest, |cs|, prev);
    }
  }

  lemma NoHeaders(b: seq<byte>, prev: int)
    ensures ReadHeaders(b, 0, prev) == Some((HeadersOf([]), b))
  {
  }

  lemma HeadersTail(cs: seq<Container>, prev: int)
    requires ContainersOk(cs) && HighsAscend(cs, prev) && cs != []
    ensures ContainersOk(cs[1..]) && HighsAscend(cs[1..], cs[0].high) && cs[0].high > prev
    ensures HeadersOf(cs) == [Header(cs[0].high, |cs[0].lows|)] + HeadersOf(cs[1..])
  {
    hide ContainerOk;
  }

  /** The first header and the rest. */
  lemma ReadHeader(b: seq<byte>, n: nat, prev: int)
    requires n > 0 && |b| >= 4 && Get16(b) > prev
    ensures var more := ReadHeaders(b[4..], n - 1, Get16(b));
      more.Some? ==>
        ReadHeaders(b, n, prev) == Some(([Header(Get16(b), Get16(b[2..]) + 1)] + more.value.0, more.value.1))
  {
    hide Get16;
  }

  lemma {:induction false} ContainersRead(cs: seq<Container>, k: nat, rest: seq<byte>)
    requires ContainersOk(cs)
    ensures ReadContainers(HeadersOf(cs), [], k, BodyBytes(cs) + rest) == Some((AllJoined(cs, U16), rest))
    decreases |cs|
  {
    hide ReadContainer, Body, Joined;
    if cs == [] {
      assert BodyBytes(cs) + rest == rest;
    } else {
      var c := cs[0];
      assert ContainerOk(c);
      ContainerRead(c, BodyBytes(cs[1..]) + rest);
      assert BodyBytes(cs) + rest == Body(c) + (BodyBytes(cs[1..]) + rest);
      ContainersRead(cs[1..], k + 1, rest);
      assert HeadersOf(cs)[1..] == HeadersOf(cs[1..]);
      JoinedSize(c);
    }
  }

  lemma JoinedSize(c: Container)
    ensures |Joined(c, U16)| == |c.lows|
  {
  }

  /** A container holds no more than its card says: 16 bits of it. */
  lemma CardFits(c: Container)
    requires ContainerOk(c)
    ensures |c.lows| <= U16
  {
    AscendingBounded(c.lows, U16);
  }

  lemma BodyRead(cs: seq<Container>, rest: seq<byte>)
    requires ContainersOk(cs) && HighsAscend(cs, -1) && |cs| <= U16
    ensures ReadBody(|cs|, [], true, HeaderBytes(cs) + OffsetBytes(cs, 8 + 8 * |cs|) + BodyBytes(cs) + rest)
         == Some((AllJoined(cs, U16), rest))
  {
    hide ReadHeaders, ReadContainers, HeaderBytes, OffsetBytes, BodyBytes, HeadersOf, AllJoined;
    var off, body := OffsetBytes(cs, 8 + 8 * |cs|), BodyBytes(cs);
    HeadersRead(cs, -1, off + (body + rest));
    Regroup(HeaderBytes(cs), off, body, rest);
    ContainersRead(cs, 0, rest);
  }

  lemma Regroup(a: seq<byte>, b: seq<byte>, c: seq<byte>, d: seq<byte>)
    ensures a + b + c + d == a + (b + (c + d)) && (b + (c + d))[|b|..] == c + d
  {
  }

  /** What `encode` writes for ascending 32-bit ids, `decode_prefix` reads as those ids, and stops where they end. */
  lemma RoundTrip(ids: seq<nat>, rest: seq<byte>)
    requires Encodable(ids)
    ensures DecodePrefix(Encoded(ids) + rest) == Some((ids, rest))
  {
    hide ReadBody, HeaderBytes, OffsetBytes, BodyBytes, Get32, Put32, AllJoined, Containers;
    ContainersAreOk(ids);
    JoinedBack(ids, U16);
    var cs := Containers(ids, U16);
    var tail := HeaderBytes(cs) + OffsetBytes(cs, 8 + 8 * |cs|) + BodyBytes(cs) + rest;
    var b := Encoded(ids) + rest;
    assert b == Put32(COOKIE_NO_RUNS) + (Put32(|cs| % U32) + tail);
    Get32Put(COOKIE_NO_RUNS, Put32(|cs| % U32) + tail);
    Get32Put(|cs| % U32, tail);
    assert b[8..] == b[4..][4..];
    BodyRead(cs, rest);
  }

  /** Written ids are read back if and only if they are ascending. */
  lemma RoundTripIff(ids: seq<nat>)
    requires Below(ids, U32)
    ensures Decode(Encoded(ids)) == Some(ids) <==> Ascending(ids)
  {
    hide DecodePrefix, Encoded, Ascending, Below;
    if Decode(Encoded(ids)) == Some(ids) { DecodedAscends(Encoded(ids)); }
    if Ascending(ids) {
      RoundTrip(ids, []);
      assert Encoded(ids) + [] == Encoded(ids);
    }
  }

  // ---- ids in any order ----------------------------------------------------------------------------

  /** What a container without runs takes, by its header. */
  function CardSize(card: nat): nat {
    if card <= ARRAY_MAX then 2 * card else BITMAP_BYTES
  }

  lemma {:induction false} ArrayTakes(b: seq<byte>, n: nat, high: nat, prev: int)
    requires ReadArray(b, n, high, prev).Some?
    ensures |b| >= 2 * n && |ReadArray(b, n, high, prev).value.0| == n
    ensures ReadArray(b, n, high, prev).value.1 == b[2 * n..]
    decreases n
  {
    hide Get16;
    if n > 0 {
      ArrayTakes(b[2..], n - 1, high, high * U16 + Get16(b));
      assert b[2..][2 * (n - 1)..] == b[2 * n..];
    }
  }

  lemma ContainerTakes(h: Header, b: seq<byte>)
    requires ReadContainer(h, false, b).Some?
    ensures |b| >= CardSize(h.card) && ReadContainer(h, false, b).value.1 == b[CardSize(h.card)..]
  {
    hide BitValues;
    if h.card <= ARRAY_MAX { ArrayTakes(b, h.card, h.key, -1); }
  }

  function Cards(hs: seq<Header>): nat {
    if hs == [] then 0 else hs[0].card + Cards(hs[1..])
  }

  function CardSizes(hs: seq<Header>): nat {
    if hs == [] then 0 else CardSize(hs[0].card) + CardSizes(hs[1..])
  }

  /** Containers that are accepted hold as many values, and take as many bytes, as their headers say. */
  lemma {:induction false} ContainersTake(hs: seq<Header>, c: nat, b: seq<byte>)
    requires ReadContainers(hs, [], c, b).Some?
    ensures |ReadContainers(hs, [], c, b).value.0| == Cards(hs)
    ensures |b| >= CardSizes(hs) && ReadContainers(hs, [], c, b).value.1 == b[CardSizes(hs)..]
    decreases |hs|
  {
    hide ReadContainer;
    if hs != [] {
      ContainerTakes(hs[0], b);
      var rest := ReadContainer(hs[0], false, b).value.1;
      ContainersTake(hs[1..], c + 1, rest);
      assert b[CardSize(hs[0].card)..][CardSizes(hs[1..])..] == b[CardSizes(hs)..];
    }
  }

  /** A container whose header says how many values it was given. */
  ghost predicate Sized(c: Container) {
    c.high < U16 && 1 <= |c.lows| <= U16 && Below(c.lows, U16)
  }

  ghost predicate AllSized(cs: seq<Container>) {
    forall i :: 0 <= i < |cs| ==> Sized(cs[i])
  }

  lemma {:induction false} SizedHeaders(cs: seq<Container>, prev: int, rest: seq<byte>)
    requires AllSized(cs) && ReadHeaders(HeaderBytes(cs) + rest, |cs|, prev).Some?
    ensures ReadHeaders(HeaderBytes(cs) + rest, |cs|, prev) == Some((HeadersOf(cs), rest))
    decreases |cs|
  {
    hide Get16, Put16, Below, HeadersOf;
    if cs == [] {
      assert HeaderBytes(cs) + rest == rest;
      assert HeadersOf(cs) == [];
    } else {
      var c, more := cs[0], HeaderBytes(cs[1..]) + rest;
      assert Sized(c);
      var b := HeaderBytes(cs) + rest;
      assert b == Put16(c.high) + (Put16(|c.lows| - 1) + more);
      TwoNumbers(c.high, |c.lows| - 1, more);
      SizedHeaders(cs[1..], c.high, rest);
      assert HeadersOf(cs) == [Header(c.high, |c.lows|)] + HeadersOf(cs[1..]);
    }
  }

  lemma {:induction false} SizedBodies(cs: seq<Container>)
    requires AllSized(cs)
    ensures |BodyBytes(cs)| == CardSizes(HeadersOf(cs))
    decreases |cs|
  {
    hide Body;
    if cs != [] {
      assert Sized(cs[0]) && HeadersOf(cs)[1..] == HeadersOf(cs[1..]);
      SizedBodies(cs[1..]);
    }
  }

  lemma {:induction false} SizedCards(cs: seq<Container>, m: nat)
    ensures |AllJoined(cs, m)| == Cards(HeadersOf(cs))
    decreases |cs|
  {
    hide Joined;
    if cs != [] {
      assert HeadersOf(cs)[1..] == HeadersOf(cs[1..]);
      SizedCards(cs[1..], m);
    }
  }

  /** Ids that the headers can count: no 65537 in a row share their high 16 bits, and there are fewer than 2^32. */
  ghost predicate Counted(ids: seq<nat>) {
    Below(ids, U32) && |ids| < U32 && AllSized(Containers(ids, U16))
  }

  lemma {:induction false} FewContainers(ids: seq<nat>, m: nat)
    requires m > 0
    ensures |Containers(ids, m)| <= |ids|
    decreases |ids|
  {
    hide Quot;
    if ids != [] { FewContainers(ids[SpanLength(ids, m)..], m); }
  }

  lemma BodyAlike(cs: seq<Container>, rest: seq<byte>)
    requires AllSized(cs)
    ensures var r := ReadBody(|cs|, [], true, HeaderBytes(cs) + OffsetBytes(cs, 8 + 8 * |cs|) + BodyBytes(cs) + rest);
            r.Some? ==> |r.value.0| == Cards(HeadersOf(cs)) && r.value.1 == rest
  {
    hide ReadHeaders, ReadContainers, HeaderBytes, OffsetBytes, BodyBytes, HeadersOf, Cards, CardSizes, Below;
    var off, body := OffsetBytes(cs, 8 + 8 * |cs|), BodyBytes(cs);
    Regroup(HeaderBytes(cs), off, body, rest);
    SizedBodies(cs);
    if ReadHeaders(HeaderBytes(cs) + (off + (body + rest)), |cs|, -1).Some? {
      SizedHeaders(cs, -1, off + (body + rest));
      if ReadContainers(HeadersOf(cs), [], 0, body + rest).Some? { ContainersTake(HeadersOf(cs), 0, body + rest); }
    }
  }

  /** Whatever their order, written ids are refused, or read as so many values, and no further than their end. */
  lemma ReadAlike(ids: seq<nat>, rest: seq<byte>)
    requires Counted(ids) && DecodePrefix(Encoded(ids) + rest).Some?
    ensures var r := DecodePrefix(Encoded(ids) + rest).value; |r.0| == |ids| && r.1 == rest
  {
    hide ReadBody, HeaderBytes, OffsetBytes, BodyBytes, Get32, Put32, AllJoined, Containers, HeadersOf, Cards, AllSized;
    ContainersCut(ids, U16);
    FewContainers(ids, U16);
    JoinedBack(ids, U16);
    var cs := Containers(ids, U16);
    var tail := HeaderBytes(cs) + OffsetBytes(cs, 8 + 8 * |cs|) + BodyBytes(cs) + rest;
    var b := Encoded(ids) + rest;
    assert b == Put32(COOKIE_NO_RUNS) + (Put32(|cs| % U32) + tail);
    Get32Put(COOKIE_NO_RUNS, Put32(|cs| % U32) + tail);
    Get32Put(|cs| % U32, tail);
    assert b[8..] == b[4..][4..];
    BodyAlike(cs, rest);
    SizedCards(cs, U16);
  }

  // ---- the offsets ---------------------------------------------------------------------------------

  /** How many bytes the first k containers take. */
  function SizeTo(cs: seq<Container>, k: nat): nat
    requires k <= |cs|
  {
    if k == 0 then 0 else BodySize(cs[0]) + SizeTo(cs[1..], k - 1)
  }

  lemma {:induction false} OffsetField(cs: seq<Container>, at: nat, k: nat)
    requires k < |cs|
    ensures OffsetBytes(cs, at)[4 * k..4 * k + 4] == Put32((at + SizeTo(cs, k)) % U32)
    decreases k
  {
    hide Put32, BodySize;
    var first, more := Put32(at % U32), OffsetBytes(cs[1..], at + BodySize(cs[0]));
    assert OffsetBytes(cs, at) == first + more;
    if k > 0 {
      OffsetField(cs[1..], at + BodySize(cs[0]), k - 1);
      assert (first + more)[4 * k..4 * k + 4] == more[4 * (k - 1)..4 * (k - 1) + 4];
    } else {
      assert (first + more)[0..4] == first;
    }
  }

  lemma {:induction false} BodyField(cs: seq<Container>, k: nat)
    requires ContainersOk(cs) && k < |cs|
    ensures SizeTo(cs, k) + BodySize(cs[k]) <= |BodyBytes(cs)|
    ensures BodyBytes(cs)[SizeTo(cs, k)..SizeTo(cs, k) + BodySize(cs[k])] == Body(cs[k])
    decreases k
  {
    hide Body, BodySize;
    var first, more := Body(cs[0]), BodyBytes(cs[1..]);
    assert |first| == BodySize(cs[0]) by { BodyHasSize(cs[0]); }
    if k > 0 {
      BodyField(cs[1..], k - 1);
      var p, n := SizeTo(cs[1..], k - 1), BodySize(cs[k]);
      assert (first + more)[|first| + p..|first| + p + n] == more[p..p + n];
    } else {
      assert (first + more)[0..|first|] == first;
    }
  }

  lemma BodyHasSize(c: Container)
    requires ContainerOk(c)
    ensures |Body(c)| == BodySize(c)
  {
  }

  lemma {:induction false} SizeBound(cs: seq<Container>, k: nat)
    requires k <= |cs|
    ensures SizeTo(cs, k) <= BITMAP_BYTES * k
    decreases k
  {
    if k > 0 { SizeBound(cs[1..], k - 1); }
  }

  /** A reader that seeks by the offset header finds every container where the header says it is. */
  lemma OffsetsTrue(ids: seq<nat>, k: nat)
    requires Encodable(ids) && k < |Containers(ids, U16)|
    ensures var cs := Containers(ids, U16);
            var b := Encoded(ids);
            var field := 8 + 4 * |cs| + 4 * k;
            && field + 4 <= |b| && ContainerOk(cs[k])
            && var at := Get32(b[field..]);
               at + BodySize(cs[k]) <= |b| && b[at..at + BodySize(cs[k])] == Body(cs[k])
  {
    hide Get32, Put32, Body, BodySize, HeaderBytes, Containers, OffsetBytes, BodyBytes;
    ContainersAreOk(ids);
    var cs := Containers(ids, U16);
    var head, off, body := HeadOf(cs), OffsetBytes(cs, 8 + 8 * |cs|), BodyBytes(cs);
    var at := 8 + 8 * |cs| + SizeTo(cs, k);
    OffsetField(cs, 8 + 8 * |cs|, k);
    BodyField(cs, k);
    SizeBound(cs, k);
    SlicesAt(head, off, body, 4 * k, SizeTo(cs, k), BodySize(cs[k]));
    Get32Put(at, off[4 * k + 4..] + body);
  }

  lemma SlicesAt(head: seq<byte>, off: seq<byte>, body: seq<byte>, o: nat, p: nat, n: nat)
    requires o + 4 <= |off| && p + n <= |body|
    ensures var b := head + off + body;
            && b[|head| + o..] == off[o..o + 4] + (off[o + 4..] + body)
            && b[|head| + |off| + p..|head| + |off| + p + n] == body[p..p + n]
  {
  }

  // ---- encode --------------------------------------------------------------------------------------

  lemma SpanIs(ids: seq<nat>, m: nat, n: nat)
    requires ids != [] && m > 0 && 1 <= n <= |ids| && (forall i :: 0 <= i < n ==> Quot(ids[i], m) == Quot(ids[0], m))
    requires n < |ids| ==> Quot(ids[n], m) != Quot(ids[0], m)
    ensures SpanLength(ids, m) == n
  {
    hide Quot;
  }

  /** The end of the span that starts at i. */
  method SpanEnd(ids: seq<nat>, m: nat, i: nat) returns (j: nat)
    requires m > 0 && i < |ids|
    ensures i < j <= |ids| && SpanLength(ids[i..], m) == j - i
  {
    hide Quot, SpanLength;
    j := i + 1;
    while j < |ids| && Quot(ids[j], m) == Quot(ids[i], m)
      invariant i < j <= |ids| && forall k :: i <= k < j ==> Quot(ids[k], m) == Quot(ids[i], m)
    {
      j := j + 1;
    }
    SpanIs(ids[i..], m, j - i);
  }

  lemma ContainersAt(ids: seq<nat>, m: nat, i: nat, j: nat)
    requires m > 0 && i < j <= |ids| && SpanLength(ids[i..], m) == j - i
    ensures Containers(ids[i..], m) == [Container(Quot(ids[i], m), Lows(ids[i..j], m))] + Containers(ids[j..], m)
  {
    hide Quot, Lows;
    assert ids[i..][..j - i] == ids[i..j] && ids[i..][j - i..] == ids[j..];
  }

  /** The spans of ids that share their high bits. */
  method FindContainers(ids: seq<nat>) returns (cs: seq<Container>)
    ensures cs == Containers(ids, U16)
  {
    hide SpanLength, Quot, Lows, Containers;
    cs := [];
    var i := 0;
    assert ids[0..] == ids;
    while i < |ids|
      invariant 0 <= i <= |ids| && cs + Containers(ids[i..], U16) == Containers(ids, U16)
    {
      var j := SpanEnd(ids, U16, i);
      ContainersAt(ids, U16, i, j);
      var c := Container(Quot(ids[i], U16), Lows(ids[i..j], U16));
      assert cs + ([c] + Containers(ids[j..], U16)) == (cs + [c]) + Containers(ids[j..], U16);
      cs := cs + [c];
      i := j;
    }
    ContainersNone(ids, i);
  }

  lemma ContainersNone(ids: seq<nat>, i: nat)
    requires i == |ids|
    ensures Containers(ids[i..], U16) == []
  {
  }

  method PutHeaders(out: seq<byte>, cs: seq<Container>) returns (r: seq<byte>)
    requires forall i :: 0 <= i < |cs| ==> |cs[i].lows| >= 1
    ensures r == out + HeaderBytes(cs)
  {
    hide Put16, HeaderBytes;
    r := out;
    assert cs[0..] == cs;
    for k := 0 to |cs|
      invariant r + HeaderBytes(cs[k..]) == out + HeaderBytes(cs)
    {
      var h := Put16(cs[k].high) + Put16(|cs[k].lows| - 1);
      HeaderBytesAt(cs, k);
      assert r + (h + HeaderBytes(cs[k + 1..])) == (r + h) + HeaderBytes(cs[k + 1..]);
      r := r + h;
    }
    HeaderBytesNone(cs[|cs|..]);
  }

  lemma HeaderBytesAt(cs: seq<Container>, k: nat)
    requires k < |cs| && forall i :: 0 <= i < |cs| ==> |cs[i].lows| >= 1
    ensures HeaderBytes(cs[k..]) == Put16(cs[k].high) + Put16(|cs[k].lows| - 1) + HeaderBytes(cs[k + 1..])
  {
    hide Put16;
    assert cs[k..][1..] == cs[k + 1..];
  }

  lemma HeaderBytesNone(cs: seq<Container>)
    requires cs == []
    ensures HeaderBytes(cs) == []
  {
  }

  method PutOffsets(out: seq<byte>, cs: seq<Container>, at: nat) returns (r: seq<byte>)
    ensures r == out + OffsetBytes(cs, at)
  {
    hide Put32, BodySize;
    r := out;
    var p: nat := at;
    assert cs[0..] == cs;
    for k := 0 to |cs|
      invariant r + OffsetBytes(cs[k..], p) == out + OffsetBytes(cs, at)
    {
      assert cs[k..][1..] == cs[k + 1..];
      var more := OffsetBytes(cs[k + 1..], p + BodySize(cs[k]));
      assert r + (Put32(p % U32) + more) == (r + Put32(p % U32)) + more;
      r := r + Put32(p % U32);
      p := p + BodySize(cs[k]);
    }
  }

  /** The container of more than 4096 values: one bit set for each. */
  method PutBitmap(lows: seq<nat>) returns (bits: seq<byte>)
    requires Below(lows, U16)
    ensures bits == BitmapBytes(lows)
  {
    bits := Zeros(BITMAP_BYTES);
    for k := 0 to |lows|
      invariant bits == BitmapBytes(lows[..k])
    {
      assert lows[..k + 1][..k] == lows[..k];
      bits := SetAt(bits, lows[k]);
    }
    assert lows[..|lows|] == lows;
  }

  method PutArray(out: seq<byte>, lows: seq<nat>) returns (r: seq<byte>)
    ensures r == out + ArrayBytes(lows)
  {
    hide Put16;
    r := out;
    assert lows[0..] == lows;
    for k := 0 to |lows|
      invariant r + ArrayBytes(lows[k..]) == out + ArrayBytes(lows)
    {
      assert lows[k..][1..] == lows[k + 1..];
      assert r + (Put16(lows[k]) + ArrayBytes(lows[k + 1..])) == (r + Put16(lows[k])) + ArrayBytes(lows[k + 1..]);
      r := r + Put16(lows[k]);
    }
  }

  method PutBody(out: seq<byte>, c: Container) returns (r: seq<byte>)
    requires Below(c.lows, U16)
    ensures r == out + Body(c)
  {
    hide ArrayBytes, BitmapBytes;
    if |c.lows| <= ARRAY_MAX {
      r := PutArray(out, c.lows);
    } else {
      var bits := PutBitmap(c.lows);
      r := out + bits;
    }
  }

  method PutBodies(out: seq<byte>, cs: seq<Container>) returns (r: seq<byte>)
    requires Cut(cs, U16)
    ensures r == out + BodyBytes(cs)
  {
    hide Body, BodyBytes, Below;
    r := out;
    assert cs[0..] == cs;
    for k := 0 to |cs|
      invariant r + BodyBytes(cs[k..]) == out + BodyBytes(cs)
    {
      BodyBytesAt(cs, k);
      assert r + (Body(cs[k]) + BodyBytes(cs[k + 1..])) == (r + Body(cs[k])) + BodyBytes(cs[k + 1..]);
      r := PutBody(r, cs[k]);
    }
    BodyBytesNone(cs[|cs|..]);
  }

  lemma BodyBytesAt(cs: seq<Container>, k: nat)
    requires Cut(cs, U16) && k < |cs|
    ensures Below(cs[k].lows, U16) && BodyBytes(cs[k..]) == Body(cs[k]) + BodyBytes(cs[k + 1..])
  {
    hide Body, Below;
    assert cs[k..][1..] == cs[k + 1..];
  }

  lemma BodyBytesNone(cs: seq<Container>)
    requires cs == []
    ensures BodyBytes(cs) == []
  {
  }

  /** `encode`, of ids in any order. */
  method Encode(ids: seq<nat>) returns (out: seq<byte>)
    ensures out == Encoded(ids)
  {
    hide HeaderBytes, OffsetBytes, BodyBytes, Put32, Containers;
    ContainersCut(ids, U16);
    var cs := FindContainers(ids);
    out := Put32(COOKIE_NO_RUNS) + Put32(|cs| % U32);
    out := PutHeaders(out, cs);
    out := PutOffsets(out, cs, |out| + 4 * |cs|);
    out := PutBodies(out, cs);
  }
}
