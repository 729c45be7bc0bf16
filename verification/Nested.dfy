/** Nested columns written and read back: `unravel` after `serialize` of src/encoding/repdef.cpp. */
module Nested {
  import opened Options
  import opened Levels
  import opened Unravel
  import opened RepDef
  import opened UnravelPage
  import opened Columns
  import opened Serialize

  /** `isSlot` says of every level whether it owns the next of the slots in `items`. */
  datatype Serialized = Serialized(rep: seq<nat>, def: seq<nat>, isSlot: seq<bool>, kinds: seq<Kind>, items: seq<nat>,
                                   hasRep: bool, hasDef: bool)

  // ---- serialize -----------------------------------------------------------------------------------

  /** What occurs in rows [first, end): a layer is nullable only if one of its entries is null, emptyable only if one is
      empty. */
  ghost function FlagsOf(col: Column, first: nat, end: nat): (f: Flags)
    ensures FlagsFit(col, f) && ShapeOk(ShapeOf(col, f))
    ensures forall j :: 0 <= j <= Depth(col) ==> (f.nulls[j] <==> NullInAny(col, 0, first, end, j))
    ensures forall j :: 0 <= j <= Depth(col) ==> (f.empties[j] <==> EmptyInAny(col, 0, first, end, j))
  {
    var n := Depth(col) + 1;
    var f := Flags(seq(n, j requires 0 <= j < n => NullInAny(col, 0, first, end, j)),
                   seq(n, j requires 0 <= j < n => EmptyInAny(col, 0, first, end, j)));
    assert ShapeOk(ShapeOf(col, f)) by {
      forall j | 0 <= j <= Depth(col) && f.empties[j] ensures j < Depth(col) && col.layers[j].isList {
        assert EmptyInAny(col, 0, first, end, j);
        var c: nat :| first <= c < end && EmptyIn(col, 0, c, j);
        EmptyIsList(col, 0, c, j);
      }
    }
    f
  }

  lemma {:induction false} EmptyIsList(col: Column, k: nat, idx: nat, j: nat)
    requires EmptyIn(col, k, idx, j)
    ensures j < Depth(col) && col.layers[j].isList
    decreases Depth(col) - k
  {
    var layer := col.layers[k];
    if !layer.isList {
      EmptyIsList(col, k + 1, idx, j);
    } else if layer.offsets[idx] != layer.offsets[idx + 1] {
      var inner := k + 1;
      assert EmptyInAny(col, inner, layer.offsets[idx], layer.offsets[idx + 1], j);
      var c: nat :| layer.offsets[idx] <= c < layer.offsets[idx + 1] && EmptyIn(col, inner, c, j);
      EmptyIsList(col, inner, c, j);
    }
  }

  /** `check`: every list has offsets, and the rows are inside an outermost list. */
  predicate Checked(col: Column, first: nat, num: nat) {
    && (forall k :: 0 <= k < |col.layers| && col.layers[k].isList ==> col.layers[k].offsets != [])
    && (col.layers != [] && col.layers[0].isList ==> first + num + 1 <= |col.layers[0].offsets|)
  }

  ghost function RowLevels(col: Column, first: nat, end: nat): seq<Level>
    requires NodesAt(col, 0, first, end).Some?
  {
    LevelsIn(col, FlagsOf(col, first, end), 0, first, end, ListsFrom(col, 0), ListsFrom(col, 0))
  }

  ghost function SerializedOf(col: Column, first: nat, end: nat): Serialized
    requires NodesAt(col, 0, first, end).Some?
  {
    var sh, ls := ShapeOf(col, FlagsOf(col, first, end)), RowLevels(col, first, end);
    var hasRep, hasDef := ListsFrom(col, 0) != 0, Used(sh, 0) > 0;
    Serialized(if hasRep then Reps(ls) else [], if hasDef then Defs(ls) else [],
               if hasRep || hasDef then MarksIn(col, 0, first, end) else [], KindsOf(sh), SlotsIn(col, 0, first, end),
               hasRep, hasDef)
  }

  lemma FlagsAre(col: Column, first: nat, end: nat, none: Flags, f: Flags)
    requires FlagsFit(col, none) && forall j :: 0 <= j <= Depth(col) ==> !none.nulls[j] && !none.empties[j]
    requires NotedAll(col, 0, first, end, none, f)
    ensures f == FlagsOf(col, first, end)
  {
    hide NullInAny, EmptyInAny;
    var g := FlagsOf(col, first, end);
    assert f.nulls == g.nulls && f.empties == g.empties;
  }

  lemma WholeOver<T>(s: seq<T>, xs: seq<T>)
    requires |s| == |xs|
    ensures Over(s, 0, xs) == xs
  {
  }

  /** `serialize`. */
  method SerializeRows(col: Column, first: nat, num: nat) returns (r: Option<Serialized>)
    ensures r.Some? <==> Checked(col, first, num) && NodesAt(col, 0, first, first + num).Some?
    ensures r.Some? ==> r.value == SerializedOf(col, first, first + num)
  {
    hide NodesAt, SlotsIn, MarksIn, CutOf, AnyShape, NotedAll, Used, KindsOf, ListsFrom, FlagsOf, AllOk, Wrote, Room;
    if !Checked(col, first, num) {
      return None;
    }
    var s := new Serializer(col);
    ghost var none := s.flags;
    var ok := s.MarkAll(0, first, first + num);
    if !ok {
      return None;
    }
    FlagsAre(col, first, first + num, none, s.flags);
    s.AssignLevels();
    RowsOk(col, first, first + num);
    var rowRep := ListsFrom(col, 0);
    RowCount(col, first, first + num);
    MarksAllCount(col, 0, first, first + num);
    WholeWrote(s.out, RowLevels(col, first, first + num), MarksIn(col, 0, first, first + num),
               SlotsIn(col, 0, first, first + num));
    ok := s.EmitAll(0, first, first + num, rowRep, rowRep);
    r := Some(Serialized(s.out.rep, s.out.def, s.out.isSlot, s.kinds, s.out.items, s.out.hasRep, s.out.hasDef));
  }

  lemma RowCount(col: Column, first: nat, end: nat)
    requires NodesAt(col, 0, first, end).Some?
    ensures |RowLevels(col, first, end)| == CountIn(col, 0, first, end)
  {
    hide CutOf, NodesAt, FlagsOf, AnyShape;
    var D := ListsFrom(col, 0);
    CutsLength(ShapeOf(col, FlagsOf(col, first, end)), AnyShape(col), NodesAt(col, 0, first, end).value, 0, Depth(col),
               D, D, 0, 0);
  }

  /** Writing as much as there is room for leaves nothing of what was there. */
  lemma WholeWrote(o: Out, ls: seq<Level>, marks: seq<bool>, slots: seq<nat>)
    requires o.levelAt == 0 && o.itemAt == 0 && |o.items| == |slots| && |marks| == |ls|
    requires |o.rep| == (if o.hasRep then |ls| else 0) && |o.def| == (if o.hasDef then |ls| else 0)
    requires |o.isSlot| == if o.hasRep || o.hasDef then |ls| else 0
    ensures Room(o, |ls|, |slots|)
    ensures var w := Wrote(o, ls, marks, slots);
      && w.hasRep == o.hasRep && w.hasDef == o.hasDef && w.items == slots
      && w.rep == (if o.hasRep then Reps(ls) else []) && w.def == (if o.hasDef then Defs(ls) else [])
      && w.isSlot == (if o.hasRep || o.hasDef then marks else [])
  {
    if o.hasRep { WholeOver(o.rep, Reps(ls)); }
    if o.hasDef { WholeOver(o.def, Defs(ls)); }
    if o.hasRep || o.hasDef { WholeOver(o.isSlot, marks); }
    WholeOver(o.items, slots);
  }

  lemma RowsOk(col: Column, first: nat, end: nat)
    requires NodesAt(col, 0, first, end).Some?
    ensures AllOk(ShapeOf(col, FlagsOf(col, first, end)), NodesAt(col, 0, first, end).value, 0)
  {
    hide NodesAt, AllOk;
    var sh := ShapeOf(col, FlagsOf(col, first, end));
    forall c | first <= c < end ensures Covers(sh, col, 0, c) { }
    CoveredAllOk(sh, col, 0, first, end);
  }

  /** How many levels are flagged. */
  function Flagged(marks: seq<bool>): nat {
    if marks == [] then 0 else Flagged(marks[..|marks| - 1]) + if marks[|marks| - 1] then 1 else 0
  }

  lemma {:induction false} FlaggedPlus(a: seq<bool>, b: seq<bool>)
    ensures Flagged(a + b) == Flagged(a) + Flagged(b)
    decreases |b|
  {
    if b == [] {
      assert a + b == a;
    } else {
      FlaggedPlus(a, b[..|b| - 1]);
      assert (a + b)[..|a + b| - 1] == a + b[..|b| - 1];
    }
  }

  /** There are as many flagged levels as slots, under every entry: so up to every row, and the slots of a level are
      those the flags before it count. */
  lemma {:induction false} FlagsAreSlots(col: Column, k: nat, idx: nat)
    requires k <= Depth(col) && NodeAt(col, k, idx).Some?
    ensures Flagged(MarksAt(col, k, idx)) == |SlotsAt(col, k, idx)|
    decreases Depth(col) - k, 0
  {
    hide NodesAt, MarksIn, SlotsIn;
    assert Flagged([true]) == 1 && Flagged([false]) == 0;
    if k < Depth(col) && ValidAt(col.layers[k].validity, idx) {
      var layer := col.layers[k];
      if !layer.isList {
        FlagsAreSlots(col, k + 1, idx);
      } else if layer.offsets[idx] < layer.offsets[idx + 1] {
        AllFlagsAreSlots(col, k + 1, layer.offsets[idx], layer.offsets[idx + 1]);
      } else {
        NothingIn(col, k + 1, layer.offsets[idx]);
      }
    }
  }

  lemma {:induction false} AllFlagsAreSlots(col: Column, k: nat, from: nat, to: nat)
    requires k <= Depth(col) && from <= to && NodesAt(col, k, from, to).Some?
    ensures Flagged(MarksIn(col, k, from, to)) == |SlotsIn(col, k, from, to)|
    decreases Depth(col) - k, 1 + to - from
  {
    hide NodeAt, MarksAt, SlotsAt;
    if from < to {
      AllFlagsAreSlots(col, k, from, to - 1);
      FlagsAreSlots(col, k, to - 1);
      FlaggedPlus(MarksIn(col, k, from, to - 1), MarksAt(col, k, to - 1));
    }
  }

  // ---- what every stream of levels satisfies -------------------------------------------------------

  ghost predicate Bounded(ls: seq<Level>, rep: nat, def: nat) {
    forall i :: 0 <= i < |ls| ==> ls[i].rep <= rep && ls[i].def <= def
  }

  lemma BoundedPlus(a: seq<Level>, b: seq<Level>, rep: nat, def: nat)
    requires Bounded(a, rep, def) && Bounded(b, rep, def)
    ensures Bounded(a + b, rep, def)
  {
  }

  lemma {:induction false} CutBounded(sh: Shape, node: Node, k: nat, rep: nat, top: nat)
    requires ShapeOk(sh) && k <= Items(sh) && Ok(sh, node, k) && rep <= top && Between(sh, k, Items(sh)) <= top
    ensures Bounded(Cut(sh, node, k, Items(sh), rep), top, Used(sh, 0))
    decreases Items(sh) - k, 0
  {
    FirstBound(sh, node, k);
    UsedMonotone(sh, 0, k);
    if k < Items(sh) {
      BetweenFirst(sh, k, Items(sh));
      match node
      case Struct(c) => CutBounded(sh, c, k + 1, rep, top);
      case List(cs) => CutsBounded(sh, cs, k + 1, rep, Between(sh, k, Items(sh)) - 1, top);
      case _ =>
    }
  }

  lemma {:induction false} CutsBounded(sh: Shape, nodes: seq<Node>, k: nat, first: nat, rest: nat, top: nat)
    requires ShapeOk(sh) && k <= Items(sh) && AllOk(sh, nodes, k)
    requires first <= top && rest <= top && Between(sh, k, Items(sh)) <= top
    ensures Bounded(CutOf(sh, nodes, k, Items(sh), first, rest), top, Used(sh, 0))
    decreases Items(sh) - k, |nodes| + 1
  {
    hide Bounded, Cut;
    if nodes == [] {
      assert Bounded([], top, Used(sh, 0)) by { BoundedNone(top, Used(sh, 0)); }
    } else {
      CutBounded(sh, nodes[0], k, first, top);
      CutsBounded(sh, nodes[1..], k, rest, rest, top);
      BoundedPlus(Cut(sh, nodes[0], k, Items(sh), first), CutOf(sh, nodes[1..], k, Items(sh), rest, rest), top,
                  Used(sh, 0));
    }
  }

  lemma BoundedNone(rep: nat, def: nat)
    ensures Bounded([], rep, def)
  {
  }

  /** A node's first level carries the repetition level it was given. */
  lemma {:induction false} CutHead(sh: Shape, node: Node, k: nat, t: nat, rep: nat)
    requires ShapeOk(sh) && k <= t <= Items(sh) && Ok(sh, node, k)
    ensures Cut(sh, node, k, t, rep) != [] && Cut(sh, node, k, t, rep)[0].rep == rep
    decreases t - k
  {
    if k < t {
      match node
      case Struct(c) => CutHead(sh, c, k + 1, t, rep);
      case List(cs) => CutHead(sh, cs[0], k + 1, t, rep);
      case _ =>
    }
  }

  /** Without lists every entry has one level and one item. */
  lemma {:induction false} OneLevelEach(sh: Shape, node: Node, k: nat, rep: nat)
    requires ShapeOk(sh) && k <= Items(sh) && Ok(sh, node, k) && Between(sh, k, Items(sh)) == 0
    ensures |Cut(sh, node, k, Items(sh), rep)| == 1 && |EntriesAt(sh, node, k, Items(sh))| == 1
    decreases Items(sh) - k
  {
    if k < Items(sh) {
      BetweenFirst(sh, k, Items(sh));
      if node.Struct? { OneLevelEach(sh, node.child, k + 1, rep); }
    }
  }

  lemma {:induction false} OneLevelAll(sh: Shape, nodes: seq<Node>, first: nat, rest: nat)
    requires ShapeOk(sh) && AllOk(sh, nodes, 0) && Between(sh, 0, Items(sh)) == 0
    ensures |CutOf(sh, nodes, 0, Items(sh), first, rest)| == |EntriesOf(sh, nodes, 0, Items(sh))| == |nodes|
    decreases |nodes|
  {
    if nodes != [] {
      OneLevelEach(sh, nodes[0], 0, first);
      OneLevelAll(sh, nodes[1..], rest, rest);
    }
  }

  // ---- the table -----------------------------------------------------------------------------------

  lemma {:induction false} ListsAgree(sh: Shape, k: nat)
    requires ShapeOk(sh) && k <= Items(sh) + 1
    ensures ListsIn(KindsOf(sh), Items(sh) + 1 - k) == Between(sh, k, Items(sh))
    decreases Items(sh) + 1 - k
  {
    hide KindsOf;
    if k <= Items(sh) {
      ListsAgree(sh, k + 1);
      assert KindsOf(sh)[Items(sh) - k] == KindOf(sh, k);
    }
  }

  /** levels_to_rep, built from the kinds, is the depth at which each level of the shape is seen. */
  lemma {:induction false} TablesAgree(sh: Shape, k: nat)
    requires ShapeOk(sh) && k <= Items(sh) + 1
    ensures TableOf(KindsOf(sh), Items(sh) + 1 - k) == DepthTable(sh, k)
    decreases Items(sh) + 1 - k
  {
    hide KindsOf, Between, ListsIn, Used, OneIf;
    if k <= Items(sh) {
      TablesAgree(sh, k + 1);
      ListsAgree(sh, k);
      assert KindsOf(sh)[Items(sh) - k] == KindOf(sh, k);
    }
  }

  // ---- slots are items -----------------------------------------------------------------------------

  lemma {:induction false} SlotPerItem(col: Column, f: Flags, k: nat, idx: nat)
    requires FlagsFit(col, f) && ShapeOk(ShapeOf(col, f)) && k <= Depth(col) && NodeAt(col, k, idx).Some?
    ensures |SlotsAt(col, k, idx)| == |EntriesAt(ShapeOf(col, f), NodeAt(col, k, idx).value, k, Depth(col))|
    decreases Depth(col) - k, 0
  {
    if k < Depth(col) {
      var layer := col.layers[k];
      ListsAre(col, f, k + 1);
      if ValidAt(layer.validity, idx) {
        if !layer.isList {
          SlotPerItem(col, f, k + 1, idx);
        } else {
          SlotsPerItem(col, f, k + 1, layer.offsets[idx], layer.offsets[idx + 1]);
        }
      }
    }
  }

  lemma {:induction false} SlotsPerItem(col: Column, f: Flags, k: nat, from: nat, end: nat)
    requires FlagsFit(col, f) && ShapeOk(ShapeOf(col, f)) && k <= Depth(col) && from <= end
            && NodesAt(col, k, from, end).Some?
    ensures |SlotsIn(col, k, from, end)|
            == |EntriesOf(ShapeOf(col, f), NodesAt(col, k, from, end).value, k, Depth(col))|
    decreases Depth(col) - k, 1 + end - from
  {
    if from < end {
      SlotsPerItem(col, f, k, from, end - 1);
      SlotPerItem(col, f, k, end - 1);
      EntriesPush(ShapeOf(col, f), NodesAt(col, k, from, end - 1).value, NodeAt(col, k, end - 1).value, k, Depth(col));
    }
  }

  lemma {:induction false} EntriesPush(sh: Shape, nodes: seq<Node>, node: Node, k: nat, t: nat)
    ensures EntriesOf(sh, nodes + [node], k, t) == EntriesOf(sh, nodes, k, t) + EntriesAt(sh, node, k, t)
    decreases |nodes|
  {
    hide EntriesAt;
    if nodes == [] {
      assert (nodes + [node])[1..] == [] && (nodes + [node])[0] == node;
      assert EntriesOf(sh, [], k, t) == [];
    } else {
      assert (nodes + [node])[1..] == nodes[1..] + [node];
      EntriesPush(sh, nodes[1..], node, k, t);
    }
  }

  // ---- the round trip ------------------------------------------------------------------------------

  /** Facts about the rows of a column and their levels. */
  lemma RowFacts(col: Column, first: nat, end: nat)
    requires first <= end && NodesAt(col, 0, first, end).Some?
    ensures
      var sh := ShapeOf(col, FlagsOf(col, first, end));
      var rows, ls, n := NodesAt(col, 0, first, end).value, RowLevels(col, first, end), Depth(col);
      && AllOk(sh, rows, 0) && ListsFrom(col, 0) == Between(sh, 0, n) && ls == StreamAt(sh, rows, n)
      && Bounded(ls, ListsFrom(col, 0), Used(sh, 0))
      && |SlotsIn(col, 0, first, end)| == |EntriesOf(sh, rows, 0, n)|
      && (ls != [] ==> ls[0].rep == ListsFrom(col, 0))
      && (ListsFrom(col, 0) == 0 ==> |ls| == |SlotsIn(col, 0, first, end)|)
  {
    hide CutOf, NodesAt, FlagsOf, EntriesOf, SlotsIn, Used, AllOk, Bounded;
    var f := FlagsOf(col, first, end);
    var sh, rows, n := ShapeOf(col, f), NodesAt(col, 0, first, end).value, Depth(col);
    RowsOk(col, first, end);
    ListsAre(col, f, 0);
    var D := Between(sh, 0, n);
    CutsBounded(sh, rows, 0, D, D, D);
    SlotsPerItem(col, f, 0, first, end);
    RowHead(sh, rows, D);
    if D == 0 { OneLevelAll(sh, rows, D, D); }
  }

  lemma RowHead(sh: Shape, rows: seq<Node>, rep: nat)
    requires ShapeOk(sh) && AllOk(sh, rows, 0)
    ensures var ls := CutOf(sh, rows, 0, Items(sh), rep, rep); ls != [] ==> ls[0].rep == rep
  {
    if rows != [] { CutHead(sh, rows[0], 0, Items(sh), rep); }
  }

  /** The two vectors, put together again, are the levels. */
  lemma StreamBack(ls: seq<Level>, hasRep: bool, hasDef: bool, top: nat, used: nat, numItems: Option<nat>)
    requires Bounded(ls, top, used) && (hasRep <==> top != 0) && (hasDef <==> used > 0)
    requires !hasRep && !hasDef ==> numItems == Some(|ls|)
    ensures PageLevels(if hasRep then Reps(ls) else [], hasRep, if hasDef then Defs(ls) else [], hasDef, numItems) == ls
  {
    var page := PageLevels(if hasRep then Reps(ls) else [], hasRep, if hasDef then Defs(ls) else [], hasDef, numItems);
    assert |page| == |ls|;
    forall i | 0 <= i < |ls| ensures page[i] == ls[i] { }
  }

  lemma RowsAccepted(col: Column, first: nat, end: nat, numItems: Option<nat>)
    requires first <= end && NodesAt(col, 0, first, end).Some?
    requires var s := SerializedOf(col, first, end);
      if numItems.Some? then numItems.value == |s.items| else s.hasRep || s.hasDef
    ensures var s := SerializedOf(col, first, end);
      Accepted(s.rep, s.hasRep, s.def, s.hasDef, s.kinds, numItems)
  {
    hide NodesAt, FlagsOf, RowLevels, SlotsIn, TableOf, ListsIn, Used, KindsOf, StreamAt, EntriesOf, AllOk;
    var sh := ShapeOf(col, FlagsOf(col, first, end));
    RowFacts(col, first, end);
    ListsAgree(sh, 0);
    TablesAgree(sh, 0);
    AllKnown(sh);
  }

  lemma AllKnown(sh: Shape)
    requires ShapeOk(sh)
    ensures KnownKinds(KindsOf(sh)) && IsItemKind(KindsOf(sh)[0])
  {
    forall li | 0 <= li <= Items(sh) ensures !KindsOf(sh)[li].Unknown? {
      assert KindsOf(sh)[li] == KindOf(sh, Items(sh) - li);
    }
    assert KindsOf(sh)[0] == KindOf(sh, Items(sh));
  }

  /** For every column that can be serialized, and every run of its rows: unravelling the levels gives the layers of
      those rows, from the items outward. */
  lemma RoundTrip(col: Column, first: nat, end: nat, numItems: Option<nat>)
    requires first <= end && NodesAt(col, 0, first, end).Some?
    requires var s := SerializedOf(col, first, end);
      if numItems.Some? then numItems.value == |s.items| else s.hasRep || s.hasDef
    ensures
      var s := SerializedOf(col, first, end);
      UnravelOf(s.rep, s.hasRep, s.def, s.hasDef, s.kinds, numItems)
      == Some(LayersFrom(ShapeOf(col, FlagsOf(col, first, end)), NodesAt(col, 0, first, end).value, Depth(col)))
  {
    hide NodesAt, FlagsOf, RowLevels, SlotsIn, TableOf, Used, KindsOf, StreamAt, EntriesOf, AllOk, Accepted, PageLevels,
      Peel, LayersFrom, Bounded;
    var sh := ShapeOf(col, FlagsOf(col, first, end));
    RowsAccepted(col, first, end, numItems);
    RowFacts(col, first, end);
    StreamBack(RowLevels(col, first, end), ListsFrom(col, 0) != 0, Used(sh, 0) > 0, ListsFrom(col, 0), Used(sh, 0),
               numItems);
    TablesAgree(sh, 0);
    UsedPast(sh);
    NoneInside(sh);
    PeelLayers(sh, NodesAt(col, 0, first, end).value, Depth(col), numItems);
  }
}
