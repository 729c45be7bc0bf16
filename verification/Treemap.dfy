/** The 64-bit bitmaps of src/base/roaring_bitmap.cpp (`encode_treemap`, `decode_treemap`): row addresses, as a
    roaring bitmap of the low 32 bits for every value of the high ones. */
module Treemap {
  import opened Order
  import opened Bytes
  import opened Roaring
  import opened Options

  const U64 := 0x1_0000_0000_0000_0000

  function Put64(v: nat): (s: seq<byte>)
    ensures |s| == 8
  {
    Put32(v % U32) + Put32(v / U32 % U32)
  }

  function Get64(b: seq<byte>): nat
    requires |b| >= 8
  {
    Get32(b) + U32 * Get32(b[4..])
  }

  lemma Get64Put(v: nat, rest: seq<byte>)
    requires v < U64
    ensures Get64(Put64(v) + rest) == v && (Put64(v) + rest)[8..] == rest
  {
    hide Get32, Put32;
    var hi := Put32(v / U32 % U32) + rest;
    assert Put64(v) + rest == Put32(v % U32) + hi;
    Get32Put(v % U32, hi);
    Get32Put(v / U32 % U32, rest);
    assert (Put64(v) + rest)[8..] == hi[4..];
  }

  // ---- reading -------------------------------------------------------------------------------------

  /** `keys` pairs of a high number and a bitmap. */
  function ReadKeys(b: seq<byte>, keys: nat): Option<seq<Container>>
    decreases keys
  {
    if keys == 0 then Some([])
    else if |b| < 4 then None
    else
      match DecodePrefix(b[4..])
      case None => None
      case Some((low, rest)) =>
        match ReadKeys(rest, keys - 1)
        case None => None
        case Some(more) => Some([Container(Get32(b), low)] + more)
  }

  /** The bitmaps of a treemap, each under its key, in the order they are stored. */
  function Bitmaps(b: seq<byte>): Option<seq<Container>> {
    if |b| < 8 || Get64(b) > (|b| - 8) / 4 then None else ReadKeys(b[8..], Get64(b))
  }

  function Decode64(b: seq<byte>): Option<seq<nat>> {
    match Bitmaps(b)
    case None => None
    case Some(cs) => Some(AllJoined(cs, U32))
  }

  // ---- in which order the addresses are read -------------------------------------------------------

  /** A bitmap as one is read: ascending 32-bit values. */
  ghost predicate BitmapOk(c: Container) {
    c.high < U32 && Ascending(c.lows) && forall v :: v in c.lows ==> v < U32
  }

  ghost predicate BitmapsOk(cs: seq<Container>) {
    forall c :: c in cs ==> BitmapOk(c)
  }

  lemma {:induction false} KeysOk(b: seq<byte>, keys: nat)
    requires ReadKeys(b, keys).Some?
    ensures BitmapsOk(ReadKeys(b, keys).value)
    decreases keys
  {
    hide DecodePrefix, Get32, Ascending;
    if keys > 0 {
      DecodedAscends(b[4..]);
      KeysOk(DecodePrefix(b[4..]).value.1, keys - 1);
    }
  }

  /** The bitmaps that hold anything. */
  function Filled(cs: seq<Container>): (r: seq<Container>)
    ensures forall c :: c in r <==> c in cs && c.lows != []
  {
    if cs == [] then [] else (if cs[0].lows == [] then [] else [cs[0]]) + Filled(cs[1..])
  }

  lemma {:induction false} FilledJoined(cs: seq<Container>)
    ensures AllJoined(Filled(cs), U32) == AllJoined(cs, U32)
    decreases |cs|
  {
    if cs != [] {
      FilledJoined(cs[1..]);
      if cs[0].lows == [] {
        assert Joined(cs[0], U32) == [];
        assert Filled(cs) == Filled(cs[1..]);
      } else {
        AllJoinedCons(cs[0], Filled(cs[1..]), U32);
      }
    }
  }

  /** All of a's addresses are below all of b's. */
  predicate Before(a: Container, b: Container) {
    a.lows != [] && b.lows != [] && (a.high < b.high || (a.high == b.high && a.lows[|a.lows| - 1] < b.lows[0]))
  }

  predicate EachBefore(cs: seq<Container>) {
    |cs| >= 2 ==> Before(cs[0], cs[1]) && EachBefore(cs[1..])
  }

  lemma AscendsBoth(x: seq<nat>, y: seq<nat>)
    requires x != [] && y != []
    ensures Ascending(x + y) <==> Ascending(x) && Ascending(y) && x[|x| - 1] < y[0]
  {
    if Ascending(x + y) {
      forall i, j | 0 <= i < j < |y| ensures y[i] < y[j] {
        assert (x + y)[|x| + i] == y[i] && (x + y)[|x| + j] == y[j];
      }
      forall i, j | 0 <= i < j < |x| ensures x[i] < x[j] { assert (x + y)[i] == x[i] && (x + y)[j] == x[j]; }
      assert (x + y)[|x| - 1] < (x + y)[|x|];
    }
  }

  lemma JoinedAscends(c: Container)
    requires BitmapOk(c)
    ensures Ascending(Joined(c, U32))
  {
    forall i, j | 0 <= i < j < |c.lows| ensures Joined(c, U32)[i] < Joined(c, U32)[j] { assert c.lows[i] < c.lows[j]; }
  }

  /** Two neighbours are in order exactly when one is before the other. */
  lemma BeforeIs(a: Container, b: Container)
    requires BitmapOk(a) && BitmapOk(b) && a.lows != [] && b.lows != []
    ensures Before(a, b) <==> Joined(a, U32)[|a.lows| - 1] < Joined(b, U32)[0]
  {
    hide Ascending, Joined;
    assert a.lows[|a.lows| - 1] in a.lows && b.lows[0] in b.lows;
    WholeOrder(a.high, a.lows[|a.lows| - 1], b.high, b.lows[0]);
  }

  lemma WholeOrder(h: nat, l: nat, h': nat, l': nat)
    requires l < U32 && l' < U32
    ensures Whole(h, l, U32) < Whole(h', l', U32) <==> h < h' || (h == h' && l < l')
  {
  }

  lemma {:induction false} EachBeforeIs(cs: seq<Container>)
    requires BitmapsOk(cs) && forall c :: c in cs ==> c.lows != []
    ensures Ascending(AllJoined(cs, U32)) <==> EachBefore(cs)
    decreases |cs|
  {
    hide Ascending, Joined;
    if cs == [] {
      AscendsNone();
    } else {
      var x, y := Joined(cs[0], U32), AllJoined(cs[1..], U32);
      assert cs[0] in cs;
      JoinedAscends(cs[0]);
      EachBeforeIs(cs[1..]);
      if |cs| == 1 {
        assert x + y == x;
      } else {
        assert cs[1] in cs && cs[1..][0] == cs[1];
        assert y == Joined(cs[1], U32) + AllJoined(cs[1..][1..], U32);
        AscendsBoth(x, y);
        BeforeIs(cs[0], cs[1]);
      }
    }
  }

  lemma AscendsNone()
    ensures Ascending([])
  {
  }

  /** The keys of the bitmaps ascend. */
  predicate HighsUp(cs: seq<Container>) {
    |cs| >= 2 ==> cs[0].high < cs[1].high && HighsUp(cs[1..])
  }

  ghost predicate HighsDistinct(cs: seq<Container>) {
    forall i, j :: 0 <= i < j < |cs| ==> cs[i].high != cs[j].high
  }

  lemma {:induction false} HighsUpIs(cs: seq<Container>)
    requires forall c :: c in cs ==> c.lows != []
    ensures HighsUp(cs) ==> EachBefore(cs)
    ensures HighsDistinct(cs) ==> (HighsUp(cs) <==> EachBefore(cs))
    decreases |cs|
  {
    if |cs| >= 2 {
      assert cs[0] in cs && cs[1] in cs;
      if HighsDistinct(cs) {
        forall i, j | 0 <= i < j < |cs[1..]| ensures cs[1..][i].high != cs[1..][j].high {
          assert cs[i + 1].high != cs[j + 1].high;
        }
      }
      HighsUpIs(cs[1..]);
    }
  }

  /** `decode_treemap` neither orders nor merges its keys. What it reads is ascending exactly when every bitmap
      that holds anything is before the next such one; so when the keys of those ascend, and, if no key comes
      twice, only then. */
  lemma DecodedOrder(b: seq<byte>)
    requires Bitmaps(b).Some?
    ensures Decode64(b).Some? && (Ascending(Decode64(b).value) <==> EachBefore(Filled(Bitmaps(b).value)))
    ensures HighsUp(Filled(Bitmaps(b).value)) ==> Ascending(Decode64(b).value)
    ensures HighsDistinct(Filled(Bitmaps(b).value)) ==>
              (Ascending(Decode64(b).value) <==> HighsUp(Filled(Bitmaps(b).value)))
  {
    hide Ascending, ReadKeys, AllJoined, EachBefore, HighsUp, HighsDistinct, BitmapOk;
    var cs := Bitmaps(b).value;
    KeysOk(b[8..], Get64(b));
    FilledJoined(cs);
    EachBeforeIs(Filled(cs));
    HighsUpIs(Filled(cs));
  }

  // ---- writing -------------------------------------------------------------------------------------

  /** Addresses of which every span with the same high bits is ascending, in whatever order the spans are. */
  ghost predicate SpansAscend(ids: seq<nat>) {
    forall i :: 0 <= i < |Containers(ids, U32)| ==> Ascending(Containers(ids, U32)[i].lows)
  }

  /** Groups as any addresses are cut into. */
  ghost predicate GroupsOk(gs: seq<Container>) {
    forall i :: 0 <= i < |gs| ==> gs[i].high < U32 && Below(gs[i].lows, U32)
  }

  ghost predicate GroupsAscend(gs: seq<Container>) {
    forall i :: 0 <= i < |gs| ==> Ascending(gs[i].lows)
  }

  ghost function KeyBytes(gs: seq<Container>): seq<byte> {
    if gs == [] then [] else Put32(gs[0].high) + Encoded(gs[0].lows) + KeyBytes(gs[1..])
  }

  lemma {:induction false} HighsBelow(ids: seq<nat>, m: nat, top: nat)
    requires m > 0 && forall i :: 0 <= i < |ids| ==> Quot(ids[i], m) < top
    ensures forall i :: 0 <= i < |Containers(ids, m)| ==> Containers(ids, m)[i].high < top
    decreases |ids|
  {
    hide Quot, Lows;
    if ids != [] { HighsBelow(ids[SpanLength(ids, m)..], m, top); }
  }

  lemma GroupsAreOk(ids: seq<nat>)
    requires Below(ids, U64)
    ensures GroupsOk(Containers(ids, U32)) && |Containers(ids, U32)| <= |ids|
  {
    forall i | 0 <= i < |ids| ensures Quot(ids[i], U32) < U32 { }
    ContainersCut(ids, U32);
    HighsBelow(ids, U32, U32);
    FewContainers(ids, U32);
  }

  /** The bytes `encode_treemap` writes for some addresses. */
  ghost function Encoded64(ids: seq<nat>): seq<byte> {
    Put64(|Containers(ids, U32)|) + KeyBytes(Containers(ids, U32))
  }

  lemma {:induction false} KeysLong(gs: seq<Container>)
    ensures |KeyBytes(gs)| >= 4 * |gs|
    decreases |gs|
  {
    hide Encoded, Put32;
    if gs != [] { KeysLong(gs[1..]); }
  }

  lemma {:induction false} KeysRead(gs: seq<Container>, rest: seq<byte>)
    requires GroupsOk(gs) && GroupsAscend(gs)
    ensures ReadKeys(KeyBytes(gs) + rest, |gs|) == Some(gs)
    decreases |gs|
  {
    hide Encoded, Put32, Get32, DecodePrefix, Below, Ascending;
    if gs == [] {
    } else {
      var g, more := gs[0], KeyBytes(gs[1..]) + rest;
      assert Encodable(g.lows);
      var low := Encoded(g.lows) + more;
      assert KeyBytes(gs) + rest == Put32(g.high) + low;
      Get32Put(g.high, low);
      RoundTrip(g.lows, more);
      KeysRead(gs[1..], rest);
      assert Container(g.high, g.lows) == g && [g] + gs[1..] == gs;
    }
  }

  /** What `encode_treemap` writes, `decode_treemap` reads as the same addresses when every span of equal high bits
      is ascending. */
  lemma RoundTrip64(ids: seq<nat>, rest: seq<byte>)
    requires Below(ids, U64) && |ids| < U64 && SpansAscend(ids)
    ensures Decode64(Encoded64(ids) + rest) == Some(ids)
  {
    hide KeyBytes, Put64, Get64, ReadKeys, Containers, AllJoined, Below;
    GroupsAreOk(ids);
    var gs := Containers(ids, U32);
    assert Encoded64(ids) + rest == Put64(|gs|) + (KeyBytes(gs) + rest);
    Get64Put(|gs|, KeyBytes(gs) + rest);
    KeysLong(gs);
    KeysRead(gs, rest);
    JoinedBack(ids, U32);
  }

  // ---- and only then -------------------------------------------------------------------------------

  ghost predicate AllCounted(gs: seq<Container>) {
    forall i :: 0 <= i < |gs| ==> gs[i].high < U32 && Counted(gs[i].lows)
  }

  /** The same keys with as many values each. */
  ghost predicate Alike(gs: seq<Container>, out: seq<Container>) {
    |out| == |gs| && forall i :: 0 <= i < |gs| ==> out[i].high == gs[i].high && |out[i].lows| == |gs[i].lows|
  }

  lemma {:induction false} KeysAlike(gs: seq<Container>, rest: seq<byte>)
    requires AllCounted(gs) && ReadKeys(KeyBytes(gs) + rest, |gs|).Some?
    ensures Alike(gs, ReadKeys(KeyBytes(gs) + rest, |gs|).value)
    decreases |gs|
  {
    hide Encoded, Put32, Get32, DecodePrefix, Counted;
    if gs != [] {
      var g, more := gs[0], KeyBytes(gs[1..]) + rest;
      var low := Encoded(g.lows) + more;
      assert KeyBytes(gs) + rest == Put32(g.high) + low;
      Get32Put(g.high, low);
      ReadAlike(g.lows, more);
      KeysAlike(gs[1..], rest);
    }
  }

  lemma {:induction false} AlikeSame(gs: seq<Container>, out: seq<Container>)
    requires Alike(gs, out) && AllJoined(gs, U32) == AllJoined(out, U32)
    ensures gs == out
    decreases |gs|
  {
    hide Joined;
    if gs != [] {
      var a, b := Joined(gs[0], U32), Joined(out[0], U32);
      var x, y := AllJoined(gs[1..], U32), AllJoined(out[1..], U32);
      SamePieces(a, x, b, y);
      JoinedSame(gs[0], out[0]);
      AlikeSame(gs[1..], out[1..]);
      assert gs == [gs[0]] + gs[1..] && out == [out[0]] + out[1..];
    }
  }

  lemma SamePieces(a: seq<nat>, x: seq<nat>, b: seq<nat>, y: seq<nat>)
    requires |a| == |b| && a + x == b + y
    ensures a == b && x == y
  {
    assert a == (a + x)[..|a|] && b == (b + y)[..|b|] && x == (a + x)[|a|..] && y == (b + y)[|b|..];
  }

  lemma JoinedSame(c: Container, d: Container)
    requires c.high == d.high && |c.lows| == |d.lows| && Joined(c, U32) == Joined(d, U32)
    ensures c == d
  {
    forall i | 0 <= i < |c.lows| ensures c.lows[i] == d.lows[i] { assert Joined(c, U32)[i] == Joined(d, U32)[i]; }
  }

  /** Addresses whose spans the bitmaps' headers can count. */
  ghost predicate Counted64(ids: seq<nat>) {
    Below(ids, U64) && |ids| < U64 && AllCounted(Containers(ids, U32))
  }

  /** Written addresses are read back if and only if every span of equal high bits is ascending. */
  lemma RoundTrip64Iff(ids: seq<nat>)
    requires Counted64(ids)
    ensures Decode64(Encoded64(ids)) == Some(ids) <==> SpansAscend(ids)
  {
    hide KeyBytes, Put64, Get64, ReadKeys, Containers, AllJoined, Below, Counted, Ascending;
    var gs := Containers(ids, U32);
    assert Encoded64(ids) + [] == Encoded64(ids);
    if SpansAscend(ids) { RoundTrip64(ids, []); }
    if Decode64(Encoded64(ids)) == Some(ids) {
      GroupsAreOk(ids);
      Get64Put(|gs|, KeyBytes(gs));
      assert KeyBytes(gs) + [] == KeyBytes(gs);
      KeysAlike(gs, []);
      KeysOk(KeyBytes(gs), |gs|);
      JoinedBack(ids, U32);
      var out := ReadKeys(KeyBytes(gs), |gs|).value;
      AlikeSame(gs, out);
      forall i | 0 <= i < |gs| ensures Ascending(gs[i].lows) { assert out[i] in out && BitmapOk(out[i]); }
    }
  }

  /** Ascending addresses have ascending spans. */
  lemma AscendingSpans(ids: seq<nat>)
    requires Ascending(ids) && Below(ids, U64)
    ensures SpansAscend(ids)
  {
    forall i | 0 <= i < |ids| ensures Quot(ids[i], U32) < U32 { }
    ContainersLows(ids, U32, U32);
  }

  /** `encode_treemap`: the count of keys is filled in at the end. */
  method Encode64(ids: seq<nat>) returns (out: seq<byte>)
    ensures out == Encoded64(ids)
  {
    hide SpanLength, Quot, Lows, Encoded, Put32, Put64, Containers, KeyBytes;
    out := [];
    var keys, i := 0, 0;
    ghost var gs := Containers(ids, U32);
    assert ids[0..] == ids && gs[0..] == gs;
    while i < |ids|
      invariant 0 <= i <= |ids| && 0 <= keys <= |gs| && Containers(ids[i..], U32) == gs[keys..]
      invariant out + KeyBytes(gs[keys..]) == KeyBytes(gs)
      decreases |ids| - i
    {
      var high := Quot(ids[i], U32);
      var j := SpanEnd(ids, U32, i);
      var low := Lows(ids[i..j], U32);
      ContainersAt(ids, U32, i, j);
      assert gs[keys] == Container(high, low) && gs[keys + 1..] == Containers(ids[j..], U32);
      var bitmap := Encode(low);
      KeyFirst(out, gs, keys);
      out := out + Put32(high) + bitmap;
      keys := keys + 1;
      i := j;
    }
    NothingLeft(ids, i, gs, keys);
    out := Put64(keys) + out;
  }

  lemma KeyFirst(out: seq<byte>, gs: seq<Container>, k: nat)
    requires k < |gs|
    ensures out + KeyBytes(gs[k..]) == (out + Put32(gs[k].high) + Encoded(gs[k].lows)) + KeyBytes(gs[k + 1..])
  {
    hide Encoded, Put32;
    assert gs[k..][1..] == gs[k + 1..];
  }

  lemma NothingLeft(ids: seq<nat>, i: nat, gs: seq<Container>, k: nat)
    requires i == |ids| && k <= |gs| && Containers(ids[i..], U32) == gs[k..]
    ensures k == |gs| && KeyBytes(gs[k..]) == []
  {
    assert ids[i..] == [];
  }
}
