/** The levels of src/encoding/repdef.cpp lose nothing: rows with the same levels are the same rows. */
module Lossless {
  import opened Options
  import opened Levels
  import opened Unravel
  import opened RepDef
  import opened UnravelPage
  import opened Columns
  import opened Serialize
  import opened Nested

  /** A place of a layer: a value, or what a null struct around masks. */
  type Place = Option<Node>

  ghost predicate PlacesOk(sh: Shape, xs: seq<Place>, k: nat)
    requires ShapeOk(sh)
  {
    forall i :: 0 <= i < |xs| && xs[i].Some? ==> Ok(sh, xs[i].value, k)
  }

  ghost function PlaceEntries(sh: Shape, x: Place, k: nat, t: nat): seq<Entry> {
    if x.Some? then EntriesAt(sh, x.value, k, t) else if Between(sh, k, t) == 0 then [Entry(false, 0)] else []
  }

  ghost function AllEntries(sh: Shape, xs: seq<Place>, k: nat, t: nat): seq<Entry>
    decreases |xs|
  {
    if xs == [] then [] else PlaceEntries(sh, xs[0], k, t) + AllEntries(sh, xs[1..], k, t)
  }

  /** The places one layer further in. */
  ghost function Inside(x: Place, isList: bool): seq<Place> {
    if x.None? then if isList then [] else [None]
    else
      match x.value
      case Struct(c) => [Some(c)]
      case NullStruct => [None]
      case List(cs) => seq(|cs|, i requires 0 <= i < |cs| => Some(cs[i]))
      case _ => []
  }

  ghost function AllInside(xs: seq<Place>, isList: bool): seq<Place> {
    if xs == [] then [] else Inside(xs[0], isList) + AllInside(xs[1..], isList)
  }

  // ---- going one layer in --------------------------------------------------------------------------

  lemma {:induction false} EntriesPlus(sh: Shape, a: seq<Place>, b: seq<Place>, k: nat, t: nat)
    ensures AllEntries(sh, a + b, k, t) == AllEntries(sh, a, k, t) + AllEntries(sh, b, k, t)
    decreases |a|
  {
    hide PlaceEntries;
    if a == [] {
      assert a + b == b;
    } else {
      assert (a + b)[1..] == a[1..] + b;
      EntriesPlus(sh, a[1..], b, k, t);
    }
  }

  lemma {:induction false} ValuesEntries(sh: Shape, cs: seq<Node>, k: nat, t: nat)
    ensures AllEntries(sh, seq(|cs|, i requires 0 <= i < |cs| => Some(cs[i])), k, t) == EntriesOf(sh, cs, k, t)
    decreases |cs|
  {
    hide EntriesAt;
    var xs: seq<Place> := seq(|cs|, i requires 0 <= i < |cs| => Some(cs[i]));
    if cs != [] {
      var rest: seq<Place> := seq(|cs[1..]|, i requires 0 <= i < |cs[1..]| => Some(cs[1..][i]));
      assert xs[1..] == rest;
      ValuesEntries(sh, cs[1..], k, t);
    }
  }

  lemma InsideEntries(sh: Shape, x: Place, k: nat, t: nat)
    requires ShapeOk(sh) && k < t <= Items(sh) && (x.Some? ==> Ok(sh, x.value, k))
    ensures PlaceEntries(sh, x, k, t) == AllEntries(sh, Inside(x, sh.lists[k]), k + 1, t)
  {
    BetweenFirst(sh, k, t);
    var inside := Inside(x, sh.lists[k]);
    if x.Some? && x.value.List? {
      ValuesEntries(sh, x.value.children, k + 1, t);
    } else if inside != [] {
      assert inside[1..] == [];
      assert AllEntries(sh, inside, k + 1, t) == PlaceEntries(sh, inside[0], k + 1, t) + [];
    }
  }

  lemma {:induction false} AllInsideEntries(sh: Shape, xs: seq<Place>, k: nat, t: nat)
    requires ShapeOk(sh) && k < t <= Items(sh) && PlacesOk(sh, xs, k)
    ensures AllEntries(sh, xs, k, t) == AllEntries(sh, AllInside(xs, sh.lists[k]), k + 1, t)
    decreases |xs|
  {
    hide PlaceEntries, Inside, Ok;
    if xs != [] {
      InsideEntries(sh, xs[0], k, t);
      AllInsideEntries(sh, xs[1..], k, t);
      EntriesPlus(sh, Inside(xs[0], sh.lists[k]), AllInside(xs[1..], sh.lists[k]), k + 1, t);
    }
  }

  lemma {:induction false} InsideOk(sh: Shape, xs: seq<Place>, k: nat)
    requires ShapeOk(sh) && k < Items(sh) && PlacesOk(sh, xs, k)
    ensures PlacesOk(sh, AllInside(xs, sh.lists[k]), k + 1)
    decreases |xs|
  {
    if xs != [] {
      InsideOk(sh, xs[1..], k);
      assert PlacesOk(sh, Inside(xs[0], sh.lists[k]), k + 1);
    }
  }

  // ---- telling places apart ------------------------------------------------------------------------

  /** What a reader sees of layer t. */
  ghost function Seen(sh: Shape, es: seq<Entry>, t: nat): Layer
    requires ShapeOk(sh) && t <= Items(sh)
  {
    if IsFlat(sh, t) then Flat(Shown(es, sh.nulls[t])) else Lists(Starts(es, 0) + [Total(es)], Valids(es))
  }

  /** One entry a place in its own layer. */
  lemma {:induction false} OwnEntries(sh: Shape, xs: seq<Place>, k: nat)
    ensures |AllEntries(sh, xs, k, k)| == |xs|
    ensures forall i :: 0 <= i < |xs| ==>
      AllEntries(sh, xs, k, k)[i] == if xs[i].Some? then Summary(xs[i].value) else Entry(false, 0)
    decreases |xs|
  {
    if xs != [] {
      OwnEntries(sh, xs[1..], k);
      assert AllEntries(sh, xs, k, k) == PlaceEntries(sh, xs[0], k, k) + AllEntries(sh, xs[1..], k, k);
    }
  }

  ghost function Offsets(es: seq<Entry>, from: nat): seq<nat> {
    Starts(es, from) + [from + Total(es)]
  }

  /** Offsets tell the counts. */
  lemma {:induction false} StartsTell(a: seq<Entry>, b: seq<Entry>, from: nat)
    requires Offsets(a, from) == Offsets(b, from)
    ensures |a| == |b| && forall i :: 0 <= i < |a| ==> a[i].count == b[i].count
    decreases |a|
  {
    OffsetsLength(a, from);
    OffsetsLength(b, from);
    if a != [] {
      hide Offsets;
      NextStart(a, from);
      NextStart(b, from);
      FirstStart(a[1..], from + a[0].count);
      FirstStart(b[1..], from + b[0].count);
      StartsTell(a[1..], b[1..], from + a[0].count);
    }
  }

  lemma OffsetsLength(a: seq<Entry>, from: nat)
    ensures |Offsets(a, from)| == |a| + 1
  {
  }

  lemma NextStart(a: seq<Entry>, from: nat)
    requires a != []
    ensures |Offsets(a, from)| > 1 && Offsets(a, from)[1..] == Offsets(a[1..], from + a[0].count)
  {
    hide Starts, Total;
    StartsFrom(a, from);
    Shifted(from, Starts(a[1..], from + a[0].count), [from + Total(a)]);
  }

  lemma Shifted(x: nat, s: seq<nat>, t: seq<nat>)
    requires t != []
    ensures ([x] + s + t)[1..] == s + t
  {
    assert [x] + s + t == [x] + (s + t);
  }

  lemma StartsFrom(a: seq<Entry>, from: nat)
    requires a != []
    ensures Starts(a, from) == [from] + Starts(a[1..], from + a[0].count)
    ensures from + Total(a) == from + a[0].count + Total(a[1..])
  {
  }

  lemma FirstStart(a: seq<Entry>, from: nat)
    ensures |Offsets(a, from)| > 0 && Offsets(a, from)[0] == from
  {
  }

  /** Same kind of value, and lists of the same length. */
  ghost predicate Alike(x: Place, y: Place) {
    (x.None? <==> y.None?) &&
    (x.Some? && y.Some? ==>
       match x.value
       case Item(v) => y.value == Item(v)
       case Struct(_) => y.value.Struct?
       case NullStruct => y.value.NullStruct?
       case NullList => y.value.NullList?
       case EmptyList => y.value.EmptyList?
       case List(cs) => y.value.List? && |y.value.children| == |cs|)
  }

  lemma SeenAlike(sh: Shape, xs: seq<Place>, ys: seq<Place>, k: nat, i: nat)
    requires ShapeOk(sh) && k <= Items(sh) && PlacesOk(sh, xs, k) && PlacesOk(sh, ys, k)
    requires |xs| == |ys| && i < |xs| && (xs[i].None? <==> ys[i].None?)
    requires Seen(sh, AllEntries(sh, xs, k, k), k) == Seen(sh, AllEntries(sh, ys, k, k), k)
    ensures Alike(xs[i], ys[i])
  {
    hide Starts, Total;
    var a, b := AllEntries(sh, xs, k, k), AllEntries(sh, ys, k, k);
    OwnEntries(sh, xs, k);
    OwnEntries(sh, ys, k);
    if IsFlat(sh, k) {
      assert Shown(a, sh.nulls[k])[i] == Shown(b, sh.nulls[k])[i];
    } else {
      assert Valids(a)[i] == Valids(b)[i];
      assert Offsets(a, 0) == Offsets(b, 0);
      StartsTell(a, b, 0);
    }
  }

  // ---- putting places together ---------------------------------------------------------------------

  /** Places alike, with the same inside, are the same. */
  lemma {:induction false} SameInside(xs: seq<Place>, ys: seq<Place>, isList: bool)
    requires |xs| == |ys| && (forall i :: 0 <= i < |xs| ==> Alike(xs[i], ys[i]))
    requires AllInside(xs, isList) == AllInside(ys, isList)
    ensures xs == ys
    decreases |xs|
  {
    hide Alike, Inside;
    if xs != [] {
      var a, b := Inside(xs[0], isList), Inside(ys[0], isList);
      var c, d := AllInside(xs[1..], isList), AllInside(ys[1..], isList);
      assert Alike(xs[0], ys[0]);
      SameLength(xs[0], ys[0], isList);
      assert a == (a + c)[..|a|] && b == (b + d)[..|b|] && c == (a + c)[|a|..] && d == (b + d)[|b|..];
      SameFirst(xs[0], ys[0], isList);
      SameInside(xs[1..], ys[1..], isList);
      assert xs == [xs[0]] + xs[1..] && ys == [ys[0]] + ys[1..];
    }
  }

  lemma SameLength(x: Place, y: Place, isList: bool)
    requires Alike(x, y)
    ensures |Inside(x, isList)| == |Inside(y, isList)|
  {
  }

  lemma SameFirst(x: Place, y: Place, isList: bool)
    requires Alike(x, y) && Inside(x, isList) == Inside(y, isList)
    ensures x == y
  {
    if x.Some? {
      match x.value
      case Struct(c) => assert Inside(x, isList)[0] == Some(c);
      case List(cs) =>
        forall i | 0 <= i < |cs| ensures cs[i] == y.value.children[i] {
          assert Inside(x, isList)[i] == Some(cs[i]) && Inside(y, isList)[i] == Some(y.value.children[i]);
        }
        assert cs == y.value.children;
      case _ =>
    }
  }

  lemma {:induction false} InsideMasks(xs: seq<Place>, ys: seq<Place>, isList: bool)
    requires |xs| == |ys| && forall i :: 0 <= i < |xs| ==> Alike(xs[i], ys[i])
    ensures |AllInside(xs, isList)| == |AllInside(ys, isList)|
    ensures forall i :: 0 <= i < |AllInside(xs, isList)| ==>
      (AllInside(xs, isList)[i].None? <==> AllInside(ys, isList)[i].None?)
    decreases |xs|
  {
    if xs != [] {
      assert Alike(xs[0], ys[0]);
      InsideMasks(xs[1..], ys[1..], isList);
    }
  }

  /** Places whose layers all look the same are the same. */
  lemma {:induction false} LayersTell(sh: Shape, xs: seq<Place>, ys: seq<Place>, k: nat)
    requires ShapeOk(sh) && k <= Items(sh) && PlacesOk(sh, xs, k) && PlacesOk(sh, ys, k)
    requires |xs| == |ys| && forall i :: 0 <= i < |xs| ==> (xs[i].None? <==> ys[i].None?)
    requires forall t :: k <= t <= Items(sh) ==>
            Seen(sh, AllEntries(sh, xs, k, t), t) == Seen(sh, AllEntries(sh, ys, k, t), t)
    ensures xs == ys
    decreases Items(sh) - k
  {
    hide Seen, Ok, AllEntries, AllInside;
    forall i | 0 <= i < |xs| ensures Alike(xs[i], ys[i]) {
      SeenAlike(sh, xs, ys, k, i);
    }
    if k == Items(sh) {
      forall i | 0 <= i < |xs| ensures xs[i] == ys[i] { SameItem(sh, xs[i], ys[i], k); }
    } else {
      var isList := sh.lists[k];
      var a, b, inner := AllInside(xs, isList), AllInside(ys, isList), k + 1;
      InsideOk(sh, xs, k);
      InsideOk(sh, ys, k);
      InsideMasks(xs, ys, isList);
      forall t | inner <= t <= Items(sh)
        ensures Seen(sh, AllEntries(sh, a, inner, t), t) == Seen(sh, AllEntries(sh, b, inner, t), t)
      {
        AllInsideEntries(sh, xs, k, t);
        AllInsideEntries(sh, ys, k, t);
      }
      LayersTell(sh, a, b, inner);
      SameInside(xs, ys, isList);
    }
  }

  lemma SameItem(sh: Shape, x: Place, y: Place, k: nat)
    requires ShapeOk(sh) && k == Items(sh) && Alike(x, y)
    requires (x.Some? ==> Ok(sh, x.value, k)) && (y.Some? ==> Ok(sh, y.value, k))
    ensures x == y
  {
  }

  // ---- rows ----------------------------------------------------------------------------------------

  function Places(rows: seq<Node>): (xs: seq<Place>)
    ensures |xs| == |rows| && forall i :: 0 <= i < |xs| ==> xs[i] == Some(rows[i])
  {
    seq(|rows|, i requires 0 <= i < |rows| => Some(rows[i]))
  }

  /** Rows of the same shape with the same layers are the same rows. */
  lemma RowsTold(sh: Shape, a: seq<Node>, b: seq<Node>)
    requires ShapeOk(sh) && AllOk(sh, a, 0) && AllOk(sh, b, 0)
    requires LayersFrom(sh, a, Items(sh)) == LayersFrom(sh, b, Items(sh))
    ensures a == b
  {
    hide LayersFrom, EntriesOf, Starts, Total, Ok, AllEntries;
    var xs, ys := Places(a), Places(b);
    forall t | 0 <= t <= Items(sh)
      ensures Seen(sh, AllEntries(sh, xs, 0, t), t) == Seen(sh, AllEntries(sh, ys, 0, t), t)
    {
      ValuesEntries(sh, a, 0, t);
      ValuesEntries(sh, b, 0, t);
      assert Places(a) == seq(|a|, i requires 0 <= i < |a| => Some(a[i]));
      assert Places(b) == seq(|b|, i requires 0 <= i < |b| => Some(b[i]));
      LayerIn(sh, a, t, Items(sh));
      LayerIn(sh, b, t, Items(sh));
    }
    OwnEntries(sh, xs, 0);
    OwnEntries(sh, ys, 0);
    SameCount(sh, AllEntries(sh, xs, 0, 0), AllEntries(sh, ys, 0, 0), 0);
    LayersTell(sh, xs, ys, 0);
    forall i | 0 <= i < |a| ensures a[i] == b[i] { assert xs[i] == Some(a[i]) && ys[i] == Some(b[i]); }
  }

  lemma SameCount(sh: Shape, a: seq<Entry>, b: seq<Entry>, t: nat)
    requires ShapeOk(sh) && t <= Items(sh) && Seen(sh, a, t) == Seen(sh, b, t)
    ensures |a| == |b|
  {
    hide Starts, Total;
    if IsFlat(sh, t) {
      assert |Shown(a, sh.nulls[t])| == |Shown(b, sh.nulls[t])|;
    } else {
      assert |Valids(a)| == |Valids(b)|;
    }
  }

  /** The kinds tell the shape. */
  lemma KindsTell(a: Shape, b: Shape)
    requires ShapeOk(a) && ShapeOk(b) && KindsOf(a) == KindsOf(b)
    ensures a == b
  {
    assert |KindsOf(a)| == Items(a) + 1 && |KindsOf(b)| == Items(b) + 1;
    forall k | 0 <= k <= Items(a)
      ensures a.nulls[k] == b.nulls[k] && a.empties[k] == b.empties[k]
      ensures k < Items(a) ==> a.lists[k] == b.lists[k]
    {
      assert KindsOf(a)[Items(a) - k] == KindOf(a, k) && KindsOf(b)[Items(b) - k] == KindOf(b, k);
    }
    assert a.nulls == b.nulls && a.empties == b.empties && a.lists == b.lists;
  }

  /** For any two columns and any runs of their rows: the same levels, kinds and number of slots mean the same nested
      rows. */
  lemma SameLevelsSameRows(a: Column, i: nat, j: nat, b: Column, k: nat, l: nat)
    requires i <= j && NodesAt(a, 0, i, j).Some? && k <= l && NodesAt(b, 0, k, l).Some?
    requires
      var x, y := SerializedOf(a, i, j), SerializedOf(b, k, l);
      x.rep == y.rep && x.def == y.def && x.kinds == y.kinds && x.hasRep == y.hasRep && x.hasDef == y.hasDef
      && |x.items| == |y.items|
    ensures NodesAt(a, 0, i, j) == NodesAt(b, 0, k, l)
  {
    hide NodesAt, FlagsOf, LayersFrom, UnravelOf, KindsOf, AllOk, SlotsIn;
    var shape := ShapeOf(a, FlagsOf(a, i, j));
    var n := |SerializedOf(a, i, j).items|;
    RoundTrip(a, i, j, Some(n));
    RoundTrip(b, k, l, Some(n));
    KindsTell(shape, ShapeOf(b, FlagsOf(b, k, l)));
    RowsOk(a, i, j);
    RowsOk(b, k, l);
    RowsTold(shape, NodesAt(a, 0, i, j).value, NodesAt(b, 0, k, l).value);
  }
}
