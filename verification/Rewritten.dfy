/** The rewritten addresses as `build_step` of src/table/frag_reuse.cpp gets them, read from a treemap: which of
    the treemaps its reader accepts leave some rewritten rows unfound. */
module Rewritten {
  import opened Order
  import opened Options
  import opened FragBuild
  import FragReuse
  import Bytes
  import Roaring
  import Treemap

  /** The values of the bitmaps under this key, in order. */
  function LowsUnder(cs: seq<Roaring.Container>, id: nat): seq<nat> {
    if cs == [] then [] else (if cs[0].high == id then cs[0].lows else []) + LowsUnder(cs[1..], id)
  }

  lemma {:induction false} KeptConcat(x: seq<nat>, y: seq<nat>, id: nat)
    ensures KeptOf(x + y, id) == KeptOf(x, id) + KeptOf(y, id)
    decreases |y|
  {
    if y == [] {
      assert x + y == x;
    } else {
      var n := |y| - 1;
      KeptConcat(x, y[..n], id);
      assert x + y == (x + y[..n]) + [y[n]];
      KeptPush(x + y[..n], y[n], id);
    }
  }

  lemma {:induction false} KeptJoined(high: nat, lows: seq<nat>, id: nat)
    requires forall v :: v in lows ==> v < Roaring.U32
    ensures KeptOf(Roaring.Joined(Roaring.Container(high, lows), Roaring.U32), id) == if high == id then lows else []
    decreases |lows|
  {
    if lows != [] {
      var n := |lows| - 1;
      assert lows == lows[..n] + [lows[n]] && lows[n] in lows;
      assert forall v :: v in lows[..n] ==> v in lows;
      KeptJoined(high, lows[..n], id);
      var all, front := Roaring.Joined(Roaring.Container(high, lows), Roaring.U32),
                        Roaring.Joined(Roaring.Container(high, lows[..n]), Roaring.U32);
      assert all == front + [all[n]];
      KeptPush(front, all[n], id);
      Parts(high, lows[n]);
    }
  }

  lemma Parts(high: nat, low: nat)
    requires low < Roaring.U32
    ensures Roaring.Whole(high, low, Roaring.U32) / FragReuse.U32 == high
    ensures Roaring.Whole(high, low, Roaring.U32) % FragReuse.U32 == low
  {
  }

  lemma {:induction false} KeptAllJoined(cs: seq<Roaring.Container>, id: nat)
    requires Treemap.BitmapsOk(cs)
    ensures KeptOf(Roaring.AllJoined(cs, Roaring.U32), id) == LowsUnder(cs, id)
    decreases |cs|
  {
    hide KeptOf, Roaring.Joined;
    if cs == [] {
      KeptNone(id);
    } else {
      assert cs[0] in cs;
      KeptConcat(Roaring.Joined(cs[0], Roaring.U32), Roaring.AllJoined(cs[1..], Roaring.U32), id);
      KeptJoined(cs[0].high, cs[0].lows, id);
      assert Roaring.Container(cs[0].high, cs[0].lows) == cs[0];
      KeptAllJoined(cs[1..], id);
    }
  }

  lemma KeptNone(id: nat)
    ensures KeptOf([], id) == []
  {
  }

  /** Whatever the order of the keys, the rows of a fragment are those of its bitmaps, in their order. */
  lemma KeptOfDecoded(b: seq<Bytes.byte>, id: nat)
    requires Treemap.Bitmaps(b).Some?
    ensures KeptOf(Treemap.Decode64(b).value, id) == LowsUnder(Treemap.Bitmaps(b).value, id)
  {
    hide KeptOf, Treemap.ReadKeys;
    Treemap.KeysOk(b[8..], Treemap.Get64(b));
    KeptAllJoined(Treemap.Bitmaps(b).value, id);
  }

  lemma {:induction false} LowsFilled(cs: seq<Roaring.Container>, id: nat)
    ensures LowsUnder(Treemap.Filled(cs), id) == LowsUnder(cs, id)
    decreases |cs|
  {
    if cs != [] {
      LowsFilled(cs[1..], id);
      if cs[0].lows == [] {
        assert Treemap.Filled(cs) == Treemap.Filled(cs[1..]);
      } else {
        assert Treemap.Filled(cs)[1..] == Treemap.Filled(cs[1..]);
      }
    }
  }

  lemma {:induction false} LowsNone(cs: seq<Roaring.Container>, id: nat)
    requires forall c :: c in cs ==> c.high != id
    ensures LowsUnder(cs, id) == []
    decreases |cs|
  {
    if cs != [] {
      assert cs[0] in cs;
      LowsNone(cs[1..], id);
    }
  }

  /** Under a key that comes once there is one bitmap. */
  lemma {:induction false} LowsOnce(cs: seq<Roaring.Container>, id: nat)
    requires Treemap.BitmapsOk(cs) && Treemap.HighsDistinct(cs)
    ensures Ascending(LowsUnder(cs, id))
    decreases |cs|
  {
    hide Treemap.BitmapOk;
    if cs == [] {
    } else {
      var rest := cs[1..];
      forall i, j | 0 <= i < j < |rest| ensures rest[i].high != rest[j].high {
        assert cs[i + 1].high != cs[j + 1].high;
      }
      LowsOnce(rest, id);
      if cs[0].high == id {
        forall c | c in rest ensures c.high != id {
          var i :| 0 <= i < |rest| && rest[i] == c;
          assert cs[i + 1] == c;
        }
        LowsNone(rest, id);
        assert LowsUnder(cs, id) == cs[0].lows;
        assert cs[0] in cs;
        BitmapAscends(cs[0]);
      } else {
        assert LowsUnder(cs, id) == LowsUnder(rest, id);
      }
    }
  }

  lemma BitmapAscends(c: Roaring.Container)
    requires Treemap.BitmapOk(c)
    ensures Ascending(c.lows)
  {
  }

  /** Only a key that comes twice does harm: with the keys of the bitmaps that hold anything all different, in
      whatever order, an accepted group has every old fragment's rows in order. */
  lemma DistinctKeysInOrder(b: seq<Bytes.byte>, rg: RawGroup, frags: map<nat, FragReuse.OldFragment>)
    requires Treemap.Bitmaps(b).Some? && Treemap.Decode64(b) == Some(rg.changed) && Accepted(rg, frags)
    requires Treemap.HighsDistinct(Treemap.Filled(Treemap.Bitmaps(b).value))
    ensures InOrder(rg)
  {
    hide KeptOf, Treemap.Bitmaps, Treemap.HighsDistinct, Treemap.BitmapOk, Accepted, LowsUnder;
    var cs := Treemap.Bitmaps(b).value;
    assert Treemap.BitmapsOk(cs) by { DecodedOk(b); }
    forall d | d in rg.oldFrags ensures FragReuse.KeptOk(KeptOf(rg.changed, d.id), d.physical) {
      KeptOfDecoded(b, d.id);
      LowsFilled(cs, d.id);
      LowsOnce(Treemap.Filled(cs), d.id);
      AscendingInside(rg, d, frags);
    }
  }

  lemma AscendingInside(rg: RawGroup, d: Digest, frags: map<nat, FragReuse.OldFragment>)
    requires Accepted(rg, frags) && d in rg.oldFrags && Ascending(KeptOf(rg.changed, d.id))
    ensures FragReuse.KeptOk(KeptOf(rg.changed, d.id), d.physical)
  {
    hide KeptOf;
    assert OldAccepted(rg, d, frags);
  }

  lemma DecodedOk(b: seq<Bytes.byte>)
    requires Treemap.Bitmaps(b).Some?
    ensures Treemap.BitmapsOk(Treemap.Bitmaps(b).value)
  {
    Treemap.KeysOk(b[8..], Treemap.Get64(b));
  }
}
