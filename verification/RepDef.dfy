/** The whole of `unravel` in src/encoding/repdef.cpp over all layers, and what it finds in the levels of a forest. */
module RepDef {
  import opened Options
  import opened Levels
  import opened Unravel

  datatype Kind =
    | AllValidItem
    | AllValidList
    | NullableItem
    | NullableList
    | EmptyableList
    | NullAndEmptyList
    | Unknown(code: nat)

  predicate IsItemKind(kind: Kind) {
    kind.AllValidItem? || kind.NullableItem?
  }

  /** One layer of the result: items and structs have validity only, lists also offsets. */
  datatype Layer = Flat(valid: seq<bool>) | Lists(offsets: seq<nat>, valid: seq<bool>)

  predicate HasNull(kind: Kind) {
    kind.NullableItem? || kind.NullableList? || kind.NullAndEmptyList?
  }

  predicate HasEmpty(kind: Kind) {
    kind.EmptyableList? || kind.NullAndEmptyList?
  }

  /** How many of the item layers from li outward, up to the next list, are nullable. */
  function NullableAround(kinds: seq<Kind>, li: nat): nat
    decreases |kinds| - li
  {
    if li >= |kinds| || !IsItemKind(kinds[li]) then 0
    else One(kinds[li].NullableItem?) + NullableAround(kinds, li + 1)
  }

  function MarksFor(kinds: seq<Kind>, li: nat, used: nat): Marks
    requires li < |kinds|
  {
    var nullLevel := if HasNull(kinds[li]) then used + 1 else 0;
    var own := used + One(HasNull(kinds[li])) + One(HasEmpty(kinds[li]));
    Marks(nullLevel, if HasEmpty(kinds[li]) then own else 0, own, own + NullableAround(kinds, li + 1))
  }

  /** Layer by layer: `used` definition levels and `depth` lists are inside layer li, whose inner neighbour has
      `inner` entries. */
  ghost function Peel(kinds: seq<Kind>, li: nat, table: seq<nat>, ls: seq<Level>, used: nat, depth: nat, inner: nat,
                      numItems: Option<nat>): Option<seq<Layer>>
    decreases |kinds| - li
  {
    if li >= |kinds| then Some([])
    else if IsItemKind(kinds[li]) then
      var nullable := kinds[li].NullableItem?;
      var bits := ItemBits(table, depth, nullable, used, ls);
      if li == 0 && numItems.Some? && |bits| != numItems.value then None
      else if li != 0 && |bits| != inner then None
      else Push(Flat(bits), Peel(kinds, li + 1, table, ls, used + One(nullable), depth, |bits|, numItems))
    else
      var m := MarksFor(kinds, li, used);
      var p := Run(Pass([], 0, [], []), m, ls);
      if p.children != inner then None
      else Push(Lists(p.offsets + [p.children], p.valid),
                Peel(kinds, li + 1, table, p.out, m.own, depth + 1, |p.valid|, numItems))
  }

  function Push(layer: Layer, rest: Option<seq<Layer>>): Option<seq<Layer>> {
    match rest
    case None => None
    case Some(layers) => Some([layer] + layers)
  }

  lemma FlatStep(kinds: seq<Kind>, li: nat, table: seq<nat>, ls: seq<Level>, used: nat, depth: nat, inner: nat,
                 numItems: Option<nat>, bits: seq<bool>, around: seq<Layer>)
    requires li < |kinds| && IsItemKind(kinds[li])
    requires bits == ItemBits(table, depth, kinds[li].NullableItem?, used, ls)
    requires li == 0 && numItems.Some? ==> numItems.value == |bits|
    requires li != 0 ==> |bits| == inner
    requires Peel(kinds, li + 1, table, ls, used + One(kinds[li].NullableItem?), depth, |bits|, numItems)
            == Some(around)
    ensures Peel(kinds, li, table, ls, used, depth, inner, numItems) == Some([Flat(bits)] + around)
  {
    hide ItemBits;
  }

  lemma ListStep(kinds: seq<Kind>, li: nat, table: seq<nat>, ls: seq<Level>, used: nat, depth: nat, inner: nat,
                 numItems: Option<nat>, m: Marks, p: Pass, around: seq<Layer>)
    requires li < |kinds| && !IsItemKind(kinds[li]) && m == MarksFor(kinds, li, used)
    requires p == Run(Pass([], 0, [], []), m, ls) && p.children == inner
    requires Peel(kinds, li + 1, table, p.out, m.own, depth + 1, |p.valid|, numItems) == Some(around)
    ensures Peel(kinds, li, table, ls, used, depth, inner, numItems)
         == Some([Lists(p.offsets + [p.children], p.valid)] + around)
  {
    hide Run, MarksFor;
  }

  // ---- the kinds of a shape ------------------------------------------------------------------------

  function KindOf(sh: Shape, k: nat): Kind
    requires ShapeOk(sh) && k <= Items(sh)
  {
    if k == Items(sh) || !sh.lists[k] then if sh.nulls[k] then NullableItem else AllValidItem
    else if sh.nulls[k] then if sh.empties[k] then NullAndEmptyList else NullableList
    else if sh.empties[k] then EmptyableList else AllValidList
  }

  /** The descriptor's layer list: innermost first. */
  function KindsOf(sh: Shape): (kinds: seq<Kind>)
    requires ShapeOk(sh)
    ensures |kinds| == Items(sh) + 1
    ensures forall li :: 0 <= li <= Items(sh) ==> kinds[li] == KindOf(sh, Items(sh) - li)
  {
    seq(Items(sh) + 1, li requires 0 <= li <= Items(sh) => KindOf(sh, Items(sh) - li))
  }

  lemma {:induction false} NullableWrap(sh: Shape, t: nat)
    requires ShapeOk(sh) && t <= Items(sh)
    ensures Used(sh, t) + NullableAround(KindsOf(sh), Items(sh) - t + 1) == Used(sh, Wrap(sh, t))
    decreases t
  {
    hide Used, KindsOf, NullableAround;
    var li := Items(sh) - t + 1;
    AroundStep(KindsOf(sh), li);
    if t > 0 {
      assert KindsOf(sh)[li] == KindOf(sh, t - 1);
      if !sh.lists[t - 1] {
        UsedStep(sh, t - 1);
        NullableWrap(sh, t - 1);
      }
    }
  }

  lemma AroundStep(kinds: seq<Kind>, li: nat)
    ensures NullableAround(kinds, li) ==
      if li >= |kinds| || !IsItemKind(kinds[li]) then 0
      else One(kinds[li].NullableItem?) + NullableAround(kinds, li + 1)
  {
  }

  lemma MarksAgree(sh: Shape, t: nat)
    requires ShapeOk(sh) && t < Items(sh) && sh.lists[t]
    ensures MarksFor(KindsOf(sh), Items(sh) - t, Used(sh, t + 1)) == MarksOf(sh, t)
  {
    hide Used, NullableAround, Wrap;
    UsedStep(sh, t);
    NullableWrap(sh, t);
    assert KindsOf(sh)[Items(sh) - t] == KindOf(sh, t);
  }

  // ---- the layers of a forest ----------------------------------------------------------------------

  ghost function LayerOf(sh: Shape, rows: seq<Node>, t: nat): Layer
    requires ShapeOk(sh) && t <= Items(sh)
  {
    var es := EntriesOf(sh, rows, 0, t);
    if IsFlat(sh, t) then Flat(Shown(es, sh.nulls[t])) else Lists(Starts(es, 0) + [Total(es)], Valids(es))
  }

  /** The layers from t outward. */
  ghost function LayersFrom(sh: Shape, rows: seq<Node>, t: nat): seq<Layer>
    requires ShapeOk(sh) && t <= Items(sh)
    decreases t
  {
    [LayerOf(sh, rows, t)] + if t == 0 then [] else LayersFrom(sh, rows, t - 1)
  }

  lemma {:induction false} LayerIn(sh: Shape, rows: seq<Node>, t: nat, from: nat)
    requires ShapeOk(sh) && t <= from <= Items(sh)
    ensures |LayersFrom(sh, rows, from)| == from + 1 && LayersFrom(sh, rows, from)[from - t] == LayerOf(sh, rows, t)
    decreases from
  {
    hide LayerOf;
    if t < from { LayerIn(sh, rows, t, from - 1); } else if from > 0 { LayerIn(sh, rows, from - 1, from - 1); }
  }

  /** The rows' levels, cut at layer t. */
  ghost function StreamAt(sh: Shape, rows: seq<Node>, t: nat): seq<Level>
    requires ShapeOk(sh) && t <= Items(sh)
  {
    CutOf(sh, rows, 0, t, Between(sh, 0, t), Between(sh, 0, t))
  }

  // ---- structs pass levels through -----------------------------------------------------------------

  lemma BetweenSame(sh: Shape, k: nat, t: nat)
    requires k <= t < Items(sh) && !sh.lists[t]
    ensures Between(sh, k, t + 1) == Between(sh, k, t)
  {
    BetweenSplit(sh, k, t, t + 1);
    assert Between(sh, t + 1, t + 1) == 0;
  }

  lemma {:induction false} CutStruct(sh: Shape, node: Node, k: nat, t: nat, rep: nat)
    requires ShapeOk(sh) && k <= t < Items(sh) && !sh.lists[t] && Ok(sh, node, k)
    ensures Cut(sh, node, k, t + 1, rep) == Cut(sh, node, k, t, rep)
    decreases t - k, 0
  {
    if k < t {
      if node.Struct? {
        CutStruct(sh, node.child, k + 1, t, rep);
      } else if node.List? {
        BetweenSame(sh, k, t);
        CutStructs(sh, node.children, k + 1, t, rep, Between(sh, k, t) - 1);
      }
    }
  }

  lemma {:induction false} CutStructs(sh: Shape, nodes: seq<Node>, k: nat, t: nat, first: nat, rest: int)
    requires ShapeOk(sh) && k <= t < Items(sh) && !sh.lists[t] && AllOk(sh, nodes, k)
    ensures CutOf(sh, nodes, k, t + 1, first, rest) == CutOf(sh, nodes, k, t, first, rest)
    decreases t - k, |nodes| + 1
  {
    if nodes != [] {
      CutStruct(sh, nodes[0], k, t, first);
      CutStructs(sh, nodes[1..], k, t, if rest >= 0 then rest else 0, rest);
    }
  }

  // ---- counts agree --------------------------------------------------------------------------------

  /** A list layer's children are the entries of the layer inside it; a struct has one entry inside it. */
  lemma {:induction false} CountInside(sh: Shape, node: Node, k: nat, t: nat)
    requires ShapeOk(sh) && k <= t < Items(sh) && Ok(sh, node, k)
    ensures |EntriesAt(sh, node, k, t + 1)| ==
      if sh.lists[t] then Total(EntriesAt(sh, node, k, t)) else |EntriesAt(sh, node, k, t)|
    decreases t - k, 0
  {
    if k == t {
      assert [Summary(node)][1..] == [];
      if node.List? { OneEach(sh, node.children, t + 1); }
    } else if node.Struct? {
      CountInside(sh, node.child, k + 1, t);
    } else if node.List? {
      CountsInside(sh, node.children, k + 1, t);
    } else {
      NullInside(sh, k, t);
    }
  }

  lemma NullInside(sh: Shape, k: nat, t: nat)
    requires k < t < Items(sh)
    ensures sh.lists[t] ==> Between(sh, k + 1, t + 1) != 0
    ensures !sh.lists[t] ==> Between(sh, k + 1, t + 1) == Between(sh, k + 1, t)
    ensures Total([Entry(false, 0)]) == 0
  {
    BetweenSplit(sh, k + 1, t, t + 1);
    assert Between(sh, t + 1, t + 1) == 0;
    assert [Entry(false, 0)][1..] == [];
  }

  lemma {:induction false} OneEach(sh: Shape, nodes: seq<Node>, t: nat)
    ensures |EntriesOf(sh, nodes, t, t)| == |nodes|
    decreases |nodes|
  {
    if nodes != [] { OneEach(sh, nodes[1..], t); }
  }

  lemma {:induction false} CountsInside(sh: Shape, nodes: seq<Node>, k: nat, t: nat)
    requires ShapeOk(sh) && k <= t < Items(sh) && AllOk(sh, nodes, k)
    ensures |EntriesOf(sh, nodes, k, t + 1)| ==
      if sh.lists[t] then Total(EntriesOf(sh, nodes, k, t)) else |EntriesOf(sh, nodes, k, t)|
    decreases t - k, |nodes| + 1
  {
    if nodes != [] {
      CountInside(sh, nodes[0], k, t);
      CountsInside(sh, nodes[1..], k, t);
      TotalPlus(EntriesAt(sh, nodes[0], k, t), EntriesOf(sh, nodes[1..], k, t));
    }
  }

  // ---- unravelling a forest's levels ---------------------------------------------------------------

  /** The levels peeled down to layer t give the layers from t outward. */
  lemma {:induction false} PeelLayers(sh: Shape, rows: seq<Node>, t: nat, numItems: Option<nat>)
    requires ShapeOk(sh) && t <= Items(sh) && AllOk(sh, rows, 0)
    requires numItems.Some? ==> numItems.value == |EntriesOf(sh, rows, 0, Items(sh))|
    ensures
      var n := Items(sh);
      Peel(KindsOf(sh), n - t, DepthTable(sh, 0), StreamAt(sh, rows, if t < n then t + 1 else n), Used(sh, t + 1),
           Between(sh, t + 1, n), if t < n then |EntriesOf(sh, rows, 0, t + 1)| else 0, numItems)
      == Some(LayersFrom(sh, rows, t))
    decreases t, 2
  {
    if IsFlat(sh, t) {
      PeelFlat(sh, rows, t, numItems);
    } else {
      PeelLists(sh, rows, t, numItems);
    }
  }

  /** What follows layer t: the layers around it. */
  lemma {:induction false} PeelOutward(sh: Shape, rows: seq<Node>, t: nat, numItems: Option<nat>)
    requires ShapeOk(sh) && t <= Items(sh) && AllOk(sh, rows, 0)
    requires numItems.Some? ==> numItems.value == |EntriesOf(sh, rows, 0, Items(sh))|
    ensures
      Peel(KindsOf(sh), Items(sh) - t + 1, DepthTable(sh, 0), StreamAt(sh, rows, t), Used(sh, t),
           Between(sh, t, Items(sh)), |EntriesOf(sh, rows, 0, t)|, numItems)
      == Some(if t == 0 then [] else LayersFrom(sh, rows, t - 1))
    decreases t, 0
  {
    hide DepthTable, Used, Between, StreamAt, EntriesOf, Peel, LayersFrom, KindsOf;
    if t > 0 {
      PeelLayers(sh, rows, t - 1, numItems);
    } else {
      PeelDone(KindsOf(sh), Items(sh) + 1, DepthTable(sh, 0), StreamAt(sh, rows, t), Used(sh, t),
               Between(sh, t, Items(sh)), |EntriesOf(sh, rows, 0, t)|, numItems);
    }
  }

  lemma PeelDone(kinds: seq<Kind>, li: nat, table: seq<nat>, ls: seq<Level>, used: nat, depth: nat, inner: nat,
                 numItems: Option<nat>)
    requires li >= |kinds|
    ensures Peel(kinds, li, table, ls, used, depth, inner, numItems) == Some([])
  {
  }

  lemma {:induction false} PeelFlat(sh: Shape, rows: seq<Node>, t: nat, numItems: Option<nat>)
    requires ShapeOk(sh) && IsFlat(sh, t) && AllOk(sh, rows, 0)
    requires numItems.Some? ==> numItems.value == |EntriesOf(sh, rows, 0, Items(sh))|
    ensures
      var n := Items(sh);
      Peel(KindsOf(sh), n - t, DepthTable(sh, 0), StreamAt(sh, rows, if t < n then t + 1 else n), Used(sh, t + 1),
           Between(sh, t + 1, n), if t < n then |EntriesOf(sh, rows, 0, t + 1)| else 0, numItems)
      == Some(LayersFrom(sh, rows, t))
    decreases t, 1
  {
    hide DepthTable, Used, Between, EntriesOf, StreamAt, ItemBits, Peel, KindsOf, Shown;
    var n := Items(sh);
    FlatStream(sh, rows, t);
    UsedStep(sh, t);
    FlatKind(sh, t);
    PeelOutward(sh, rows, t, numItems);
    FlatStep(KindsOf(sh), n - t, DepthTable(sh, 0), StreamAt(sh, rows, t), Used(sh, t + 1), Between(sh, t + 1, n),
             if t < n then |EntriesOf(sh, rows, 0, t + 1)| else 0, numItems,
             Shown(EntriesOf(sh, rows, 0, t), sh.nulls[t]), if t == 0 then [] else LayersFrom(sh, rows, t - 1));
  }

  /** An item or struct layer sees the levels cut at it, and changes none. */
  lemma FlatStream(sh: Shape, rows: seq<Node>, t: nat)
    requires ShapeOk(sh) && IsFlat(sh, t) && AllOk(sh, rows, 0)
    ensures Between(sh, t + 1, Items(sh)) == Between(sh, t, Items(sh))
    ensures t < Items(sh) ==>
      StreamAt(sh, rows, t + 1) == StreamAt(sh, rows, t)
      && |EntriesOf(sh, rows, 0, t + 1)| == |EntriesOf(sh, rows, 0, t)|
    ensures ItemBits(DepthTable(sh, 0), Between(sh, t, Items(sh)), sh.nulls[t], Used(sh, t + 1), StreamAt(sh, rows, t))
         == Shown(EntriesOf(sh, rows, 0, t), sh.nulls[t])
  {
    hide DepthTable, Used, Between, EntriesOf, CutOf, ItemBits;
    var B := Between(sh, 0, t);
    if t < Items(sh) {
      BetweenSame(sh, 0, t);
      CutStructs(sh, rows, 0, t, B, B);
      CountsInside(sh, rows, 0, t);
      BetweenFirst(sh, t, Items(sh));
    } else {
      NoneInside(sh);
    }
    ItemsPass(sh, rows, 0, t, B, B);
  }

  lemma FlatKind(sh: Shape, t: nat)
    requires ShapeOk(sh) && IsFlat(sh, t)
    ensures var kind := KindsOf(sh)[Items(sh) - t];
            IsItemKind(kind) && (kind.NullableItem? <==> sh.nulls[t]) && !sh.empties[t]
  {
    assert KindsOf(sh)[Items(sh) - t] == KindOf(sh, t);
  }

  lemma NoneInside(sh: Shape)
    ensures Between(sh, Items(sh) + 1, Items(sh)) == 0 && Between(sh, Items(sh), Items(sh)) == 0
  {
  }

  lemma {:induction false} PeelLists(sh: Shape, rows: seq<Node>, t: nat, numItems: Option<nat>)
    requires ShapeOk(sh) && t < Items(sh) && sh.lists[t] && AllOk(sh, rows, 0)
    requires numItems.Some? ==> numItems.value == |EntriesOf(sh, rows, 0, Items(sh))|
    ensures
      Peel(KindsOf(sh), Items(sh) - t, DepthTable(sh, 0), StreamAt(sh, rows, t + 1), Used(sh, t + 1),
           Between(sh, t + 1, Items(sh)), |EntriesOf(sh, rows, 0, t + 1)|, numItems)
      == Some(LayersFrom(sh, rows, t))
    decreases t, 1
  {
    hide DepthTable, Used, Between, EntriesOf, StreamAt, Run, Starts, Total, Valids, Peel, KindsOf, MarksFor;
    var n, es := Items(sh), EntriesOf(sh, rows, 0, t);
    var m := MarksFor(KindsOf(sh), n - t, Used(sh, t + 1));
    ListStream(sh, rows, t);
    PeelOutward(sh, rows, t, numItems);
    ListStep(KindsOf(sh), n - t, DepthTable(sh, 0), StreamAt(sh, rows, t + 1), Used(sh, t + 1), Between(sh, t + 1, n),
             |EntriesOf(sh, rows, 0, t + 1)|, numItems, m,
             Pass(Starts(es, 0), Total(es), Valids(es), StreamAt(sh, rows, t)),
             if t == 0 then [] else LayersFrom(sh, rows, t - 1));
  }

  /** A list layer finds its lists in the levels cut inside it, and leaves the levels cut at it. */
  lemma ListStream(sh: Shape, rows: seq<Node>, t: nat)
    requires ShapeOk(sh) && t < Items(sh) && sh.lists[t] && AllOk(sh, rows, 0)
    ensures
      var m := MarksFor(KindsOf(sh), Items(sh) - t, Used(sh, t + 1));
      var es := EntriesOf(sh, rows, 0, t);
      && Run(Pass([], 0, [], []), m, StreamAt(sh, rows, t + 1))
         == Pass(Starts(es, 0), Total(es), Valids(es), StreamAt(sh, rows, t))
      && Total(es) == |EntriesOf(sh, rows, 0, t + 1)| && m.own == Used(sh, t)
      && !IsItemKind(KindsOf(sh)[Items(sh) - t])
    ensures Between(sh, t, Items(sh)) == Between(sh, t + 1, Items(sh)) + 1
  {
    hide Used, Between, EntriesOf, CutOf, Run, Starts, Total, Valids, KindsOf, MarksOf, MarksFor;
    var B, p0, es := Between(sh, 0, t), Pass([], 0, [], []), EntriesOf(sh, rows, 0, t);
    BetweenSplit(sh, 0, t, t + 1);
    ListItself(sh, t);
    ListsPass(sh, rows, 0, t, B + 1, B + 1, p0);
    assert Extend(p0, es, StreamAt(sh, rows, t)) == Pass(Starts(es, 0), Total(es), Valids(es), StreamAt(sh, rows, t));
    CountsInside(sh, rows, 0, t);
    MarksAgree(sh, t);
    MarksOwn(sh, t);
    BetweenFirst(sh, t, Items(sh));
  }

  lemma MarksOwn(sh: Shape, t: nat)
    requires ShapeOk(sh) && t < Items(sh) && sh.lists[t]
    ensures MarksOf(sh, t).own == Used(sh, t) && !IsItemKind(KindsOf(sh)[Items(sh) - t])
  {
    assert KindsOf(sh)[Items(sh) - t] == KindOf(sh, t);
  }

  lemma ListItself(sh: Shape, t: nat)
    requires t < Items(sh) && sh.lists[t]
    ensures Between(sh, t, t + 1) == 1
  {
    assert Between(sh, t + 1, t + 1) == 0;
  }
}
