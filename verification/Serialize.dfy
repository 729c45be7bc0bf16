/** `serialize` of src/encoding/repdef.cpp: a first pass finds what occurs and counts the output, the levels are
    numbered, and a second pass writes them. */
module Serialize {
  import opened Options
  import opened Levels
  import opened Unravel
  import opened RepDef
  import opened Columns

  /** Lists among the layers from k inward. */
  function ListsFrom(col: Column, k: nat): nat
    decreases Depth(col) - k
  {
    if k >= Depth(col) then 0 else One(col.layers[k].isList) + ListsFrom(col, k + 1)
  }

  /** The leaf entries that own a value slot: a null struct keeps one when no list is inside it. */
  ghost function SlotsAt(col: Column, k: nat, idx: nat): seq<nat>
    decreases Depth(col) - k, 0
  {
    if k >= Depth(col) then [idx]
    else
      var layer := col.layers[k];
      if !ValidAt(layer.validity, idx) then if layer.isList || ListsFrom(col, k + 1) > 0 then [] else [idx]
      else if !layer.isList then SlotsAt(col, k + 1, idx)
      else if idx + 1 >= |layer.offsets| then []
      else SlotsIn(col, k + 1, layer.offsets[idx], layer.offsets[idx + 1])
  }

  ghost function SlotsIn(col: Column, k: nat, from: nat, to: nat): seq<nat>
    decreases Depth(col) - k, 1 + to - from
  {
    if from >= to then [] else SlotsIn(col, k, from, to - 1) + SlotsAt(col, k, to - 1)
  }

  /** Which of the entry's levels own a slot. */
  ghost function MarksAt(col: Column, k: nat, idx: nat): seq<bool>
    decreases Depth(col) - k, 0
  {
    if k >= Depth(col) then [true]
    else
      var layer := col.layers[k];
      if !ValidAt(layer.validity, idx) then [!layer.isList && ListsFrom(col, k + 1) == 0]
      else if !layer.isList then MarksAt(col, k + 1, idx)
      else if idx + 1 >= |layer.offsets| then []
      else if layer.offsets[idx] == layer.offsets[idx + 1] then [false]
      else MarksIn(col, k + 1, layer.offsets[idx], layer.offsets[idx + 1])
  }

  ghost function MarksIn(col: Column, k: nat, from: nat, to: nat): seq<bool>
    decreases Depth(col) - k, 1 + to - from
  {
    if from >= to then [] else MarksIn(col, k, from, to - 1) + MarksAt(col, k, to - 1)
  }

  /** The column's lists, everything else allowed: enough to count levels. */
  ghost function AnyShape(col: Column): (sh: Shape)
    ensures ShapeOk(sh) && SameLists(sh, col)
  {
    var lists := seq(Depth(col), k requires 0 <= k < Depth(col) => col.layers[k].isList);
    Shape(lists, seq(Depth(col) + 1, _ => true), lists + [false])
  }

  ghost function CountAt(col: Column, k: nat, idx: nat): nat
    requires k <= Depth(col) && NodeAt(col, k, idx).Some?
  {
    |Cut(AnyShape(col), NodeAt(col, k, idx).value, k, Depth(col), 0)|
  }

  ghost function CountIn(col: Column, k: nat, from: nat, to: nat): nat
    requires k <= Depth(col) && NodesAt(col, k, from, to).Some?
  {
    |CutOf(AnyShape(col), NodesAt(col, k, from, to).value, k, Depth(col), 0, 0)|
  }

  /** How many levels a node has depends on nothing but the node. */
  lemma {:induction false} CutLength(a: Shape, b: Shape, node: Node, k: nat, t: nat, r: nat, s: nat)
    requires ShapeOk(a) && ShapeOk(b) && Items(a) == Items(b) && k <= t <= Items(a)
    ensures |Cut(a, node, k, t, r)| == |Cut(b, node, k, t, s)|
    decreases t - k, 0
  {
    if k < t {
      match node
      case Struct(c) => CutLength(a, b, c, k + 1, t, r, s);
      case List(cs) => CutsLength(a, b, cs, k + 1, t, r, Between(a, k, t) - 1, s, Between(b, k, t) - 1);
      case _ =>
    }
  }

  lemma {:induction false} CutsLength(a: Shape, b: Shape, nodes: seq<Node>, k: nat, t: nat, r: nat, x: int, s: nat,
                                      y: int)
    requires ShapeOk(a) && ShapeOk(b) && Items(a) == Items(b) && k <= t <= Items(a)
    ensures |CutOf(a, nodes, k, t, r, x)| == |CutOf(b, nodes, k, t, s, y)|
    decreases t - k, |nodes| + 1
  {
    if nodes != [] {
      CutLength(a, b, nodes[0], k, t, r, s);
      CutsLength(a, b, nodes[1..], k, t, if x >= 0 then x else 0, x, if y >= 0 then y else 0, y);
    }
  }

  /** One more child. */
  lemma {:induction false} CutPush(sh: Shape, nodes: seq<Node>, node: Node, k: nat, t: nat, first: nat, rest: nat)
    requires ShapeOk(sh) && k <= t <= Items(sh)
    ensures CutOf(sh, nodes + [node], k, t, first, rest)
         == CutOf(sh, nodes, k, t, first, rest) + Cut(sh, node, k, t, if nodes == [] then first else rest)
    decreases |nodes|
  {
    if nodes == [] {
      assert (nodes + [node])[1..] == [] && (nodes + [node])[0] == node;
      assert CutOf(sh, [], k, t, rest, rest) == [];
    } else {
      assert (nodes + [node])[1..] == nodes[1..] + [node];
      CutPush(sh, nodes[1..], node, k, t, rest, rest);
    }
  }

  lemma CountPush(col: Column, k: nat, from: nat, to: nat)
    requires k <= Depth(col) && from <= to && NodesAt(col, k, from, to + 1).Some?
    ensures NodesAt(col, k, from, to).Some? && NodeAt(col, k, to).Some?
    ensures NodesAt(col, k, from, to + 1).value == NodesAt(col, k, from, to).value + [NodeAt(col, k, to).value]
    ensures CountIn(col, k, from, to + 1) == CountIn(col, k, from, to) + CountAt(col, k, to)
  {
    hide Cut, CutOf, NodeAt;
    CutPush(AnyShape(col), NodesAt(col, k, from, to).value, NodeAt(col, k, to).value, k, Depth(col), 0, 0);
  }

  // ---- the output ----------------------------------------------------------------------------------

  /** The vectors, sized before anything is written to them, and where the next level and the next slot go. */
  datatype Out = Out(hasRep: bool, hasDef: bool, rep: seq<nat>, def: seq<nat>, isSlot: seq<bool>, items: seq<nat>,
                     levelAt: nat, itemAt: nat)

  ghost predicate Room(o: Out, levels: nat, slots: nat) {
    && (o.hasRep ==> o.levelAt + levels <= |o.rep|) && (o.hasDef ==> o.levelAt + levels <= |o.def|)
    && (o.hasRep || o.hasDef ==> o.levelAt + levels <= |o.isSlot|)
    && o.itemAt + slots <= |o.items|
  }

  function Over<T>(s: seq<T>, at: nat, xs: seq<T>): (r: seq<T>)
    requires at + |xs| <= |s|
    ensures |r| == |s|
  {
    s[..at] + xs + s[at + |xs|..]
  }

  lemma OverTwice<T>(s: seq<T>, at: nat, a: seq<T>, b: seq<T>)
    requires at + |a| + |b| <= |s|
    ensures Over(Over(s, at, a), at + |a|, b) == Over(s, at, a + b)
  {
  }

  lemma OverNothing<T>(s: seq<T>, at: nat)
    requires at <= |s|
    ensures Over(s, at, []) == s
  {
  }

  function Reps(ls: seq<Level>): (r: seq<nat>)
    ensures |r| == |ls| && forall i :: 0 <= i < |r| ==> r[i] == ls[i].rep
  {
    seq(|ls|, i requires 0 <= i < |ls| => ls[i].rep)
  }

  function Defs(ls: seq<Level>): (d: seq<nat>)
    ensures |d| == |ls| && forall i :: 0 <= i < |d| ==> d[i] == ls[i].def
  {
    seq(|ls|, i requires 0 <= i < |ls| => ls[i].def)
  }

  /** The output with these levels and slots written; `marks` says which levels own a slot. */
  ghost function Wrote(o: Out, ls: seq<Level>, marks: seq<bool>, slots: seq<nat>): (r: Out)
    requires Room(o, |ls|, |slots|) && |marks| == |ls|
  {
    Out(o.hasRep, o.hasDef,
        if o.hasRep then Over(o.rep, o.levelAt, Reps(ls)) else o.rep,
        if o.hasDef then Over(o.def, o.levelAt, Defs(ls)) else o.def,
        if o.hasRep || o.hasDef then Over(o.isSlot, o.levelAt, marks) else o.isSlot,
        Over(o.items, o.itemAt, slots),
        o.levelAt + (if o.hasRep || o.hasDef then |ls| else 0), o.itemAt + |slots|)
  }

  lemma WroteTwice(o: Out, a: seq<Level>, p: seq<bool>, x: seq<nat>, b: seq<Level>, q: seq<bool>, y: seq<nat>)
    requires Room(o, |a| + |b|, |x| + |y|) && |p| == |a| && |q| == |b|
    ensures Room(Wrote(o, a, p, x), |b|, |y|)
    ensures Wrote(Wrote(o, a, p, x), b, q, y) == Wrote(o, a + b, p + q, x + y)
  {
    hide Over;
    assert Reps(a + b) == Reps(a) + Reps(b) && Defs(a + b) == Defs(a) + Defs(b);
    if o.hasRep { OverTwice(o.rep, o.levelAt, Reps(a), Reps(b)); }
    if o.hasDef { OverTwice(o.def, o.levelAt, Defs(a), Defs(b)); }
    if o.hasRep || o.hasDef { OverTwice(o.isSlot, o.levelAt, p, q); }
    OverTwice(o.items, o.itemAt, x, y);
  }

  lemma WroteNothing(o: Out)
    requires Room(o, 0, 0)
    ensures Wrote(o, [], [], []) == o
  {
    hide Over;
    assert Reps([]) == [] && Defs([]) == [];
    if o.hasRep { OverNothing(o.rep, o.levelAt); }
    if o.hasDef { OverNothing(o.def, o.levelAt); }
    if o.hasRep || o.hasDef { OverNothing(o.isSlot, o.levelAt); }
    OverNothing(o.items, o.itemAt);
  }

  /** `push`: one level, and a slot if it owns one. */
  function Put(o: Out, l: Level, slot: Option<nat>): Out
    requires Room(o, 1, if slot.Some? then 1 else 0)
  {
    var o1 := o.(rep := if o.hasRep then o.rep[o.levelAt := l.rep] else o.rep,
                 def := if o.hasDef then o.def[o.levelAt := l.def] else o.def,
                 isSlot := if o.hasRep || o.hasDef then o.isSlot[o.levelAt := slot.Some?] else o.isSlot,
                 levelAt := if o.hasRep || o.hasDef then o.levelAt + 1 else o.levelAt);
    if slot.Some? then o1.(items := o.items[o.itemAt := slot.value], itemAt := o.itemAt + 1) else o1
  }

  lemma PutIs(o: Out, l: Level, slot: Option<nat>)
    requires Room(o, 1, if slot.Some? then 1 else 0)
    ensures Put(o, l, slot) == Wrote(o, [l], [slot.Some?], if slot.Some? then [slot.value] else [])
  {
    assert Reps([l]) == [l.rep] && Defs([l]) == [l.def];
  }

  // ---- the first pass ------------------------------------------------------------------------------

  /** Which layers a pass has met nulls and empty lists in. */
  datatype Flags = Flags(nulls: seq<bool>, empties: seq<bool>)

  ghost predicate FlagsFit(col: Column, f: Flags) {
    |f.nulls| == |f.empties| == Depth(col) + 1
  }

  /** The flags after entry idx of layer k: those before, and what occurs under it. */
  ghost predicate Noted(col: Column, k: nat, idx: nat, before: Flags, after: Flags) {
    && FlagsFit(col, before) && FlagsFit(col, after)
    && (forall j :: 0 <= j <= Depth(col) ==> (after.nulls[j] <==> before.nulls[j] || NullIn(col, k, idx, j)))
    && (forall j :: 0 <= j <= Depth(col) ==> (after.empties[j] <==> before.empties[j] || EmptyIn(col, k, idx, j)))
  }

  /** The same for entries [from, to). */
  ghost predicate NotedAll(col: Column, k: nat, from: nat, to: nat, before: Flags, after: Flags) {
    && FlagsFit(col, before) && FlagsFit(col, after)
    && (forall j :: 0 <= j <= Depth(col) ==> (after.nulls[j] <==> before.nulls[j] || NullInAny(col, k, from, to, j)))
    && (forall j :: 0 <= j <= Depth(col) ==>
          (after.empties[j] <==> before.empties[j] || EmptyInAny(col, k, from, to, j)))
  }

  lemma NotedNone(col: Column, k: nat, from: nat, f: Flags)
    requires FlagsFit(col, f)
    ensures NotedAll(col, k, from, from, f, f)
  {
    hide NullIn, EmptyIn;
  }

  lemma NotedMore(col: Column, k: nat, from: nat, to: nat, f: Flags, g: Flags, h: Flags)
    requires from <= to && NotedAll(col, k, from, to, f, g) && Noted(col, k, to, g, h)
    ensures NotedAll(col, k, from, to + 1, f, h)
  {
    hide NullIn, EmptyIn;
    forall j | 0 <= j <= Depth(col)
      ensures h.nulls[j] <==> f.nulls[j] || NullInAny(col, k, from, to + 1, j)
    {
      AnyNull(col, k, from, to, j);
    }
    forall j | 0 <= j <= Depth(col)
      ensures h.empties[j] <==> f.empties[j] || EmptyInAny(col, k, from, to + 1, j)
    {
      AnyEmpty(col, k, from, to, j);
    }
  }

  lemma AnyNull(col: Column, k: nat, from: nat, to: nat, j: nat)
    requires from <= to
    ensures NullInAny(col, k, from, to + 1, j) <==> NullInAny(col, k, from, to, j) || NullIn(col, k, to, j)
  {
    hide NullIn;
  }

  lemma AnyEmpty(col: Column, k: nat, from: nat, to: nat, j: nat)
    requires from <= to
    ensures EmptyInAny(col, k, from, to + 1, j) <==> EmptyInAny(col, k, from, to, j) || EmptyIn(col, k, to, j)
  {
    hide EmptyIn;
  }

  /** A valid list that is not empty is its children. */
  lemma NotedList(col: Column, k: nat, idx: nat, before: Flags, after: Flags)
    requires k < Depth(col) && col.layers[k].isList && idx + 1 < |col.layers[k].offsets|
    requires ValidAt(col.layers[k].validity, idx) && col.layers[k].offsets[idx] < col.layers[k].offsets[idx + 1]
    requires NotedAll(col, k + 1, col.layers[k].offsets[idx], col.layers[k].offsets[idx + 1], before, after)
    ensures Noted(col, k, idx, before, after)
  {
    hide NullInAny, EmptyInAny;
  }

  class Serializer {
    const col: Column
    var flags: Flags
    var levels: nat
    var slots: nat
    var nullLevel: seq<nat>
    var emptyLevel: seq<nat>
    var kinds: seq<Kind>
    var out: Out

    constructor (col: Column)
      ensures this.col == col && levels == 0 && slots == 0 && FlagsFit(col, flags)
      ensures forall j :: 0 <= j <= Depth(col) ==> !flags.nulls[j] && !flags.empties[j]
    {
      this.col := col;
      flags := Flags(seq(|col.layers| + 1, _ => false), seq(|col.layers| + 1, _ => false));
      levels, slots := 0, 0;
      nullLevel, emptyLevel, kinds, out := [], [], [], Out(false, false, [], [], [], [], 0, 0);
    }

    /** `mark_hidden_nulls`: the null bits under a null struct, down to the first list or the items. */
    method MarkHidden(k: nat, idx: nat)
      requires FlagsFit(col, flags) && k <= Depth(col)
      modifies this`flags
      ensures FlagsFit(col, flags) && flags.empties == old(flags.empties)
      ensures forall j :: 0 <= j <= Depth(col) ==>
                (flags.nulls[j] <==> old(flags.nulls)[j] || HiddenNull(col, k, idx, j))
    {
      var j := k;
      while j < |col.layers|
        invariant k <= j <= |col.layers| && FlagsFit(col, flags) && flags.empties == old(flags.empties)
        invariant forall i :: 0 <= i <= |col.layers| ==>
          (flags.nulls[i] || HiddenNull(col, j, idx, i) <==> old(flags.nulls)[i] || HiddenNull(col, k, idx, i))
      {
        if !ValidAt(col.layers[j].validity, idx) {
          flags := flags.(nulls := flags.nulls[j := true]);
        }
        if col.layers[j].isList {
          return;
        }
        j := j + 1;
      }
      if !ValidAt(col.items, idx) {
        flags := flags.(nulls := flags.nulls[|col.layers| := true]);
      }
    }

    /** Pass 1 over entry idx of layer k: what occurs under it, and how much the second pass will write for it. */
    method Mark(k: nat, idx: nat) returns (ok: bool)
      requires FlagsFit(col, flags) && k <= Depth(col)
      modifies this
      ensures FlagsFit(col, flags) && (ok <==> NodeAt(col, k, idx).Some?)
      ensures ok ==> Noted(col, k, idx, old(flags), flags)
      ensures ok ==> levels == old(levels) + CountAt(col, k, idx) && slots == old(slots) + |SlotsAt(col, k, idx)|
      decreases Depth(col) - k, 0
    {
      hide NullInAny, EmptyInAny, NodesAt, SlotsIn, CutOf, AnyShape;
      if k == |col.layers| {
        if !ValidAt(col.items, idx) {
          flags := flags.(nulls := flags.nulls[k := true]);
        }
        levels, slots := levels + 1, slots + 1;
        return true;
      }
      var layer := col.layers[k];
      var valid := ValidAt(layer.validity, idx);
      if !layer.isList {
        if !valid {
          flags := flags.(nulls := flags.nulls[k := true]);
          levels, slots := levels + 1, slots + if ListsFrom(col, k + 1) > 0 then 0 else 1;
          MarkHidden(k + 1, idx);
          return true;
        }
        ok := Mark(k + 1, idx);
        return;
      }
      if idx + 1 >= |layer.offsets| {
        return false;
      }
      if !valid {
        flags := flags.(nulls := flags.nulls[k := true]);
        levels := levels + 1;
        return true;
      }
      var begin, end := layer.offsets[idx], layer.offsets[idx + 1];
      if end < begin {
        return false;
      }
      if end == begin {
        flags := flags.(empties := flags.empties[k := true]);
        levels := levels + 1;
        NothingIn(col, k + 1, begin);
        NotedEmpty(col, k, idx, old(flags));
        return true;
      }
      ok := MarkAll(k + 1, begin, end);
      if ok {
        NotedList(col, k, idx, old(flags), flags);
        CountList(col, k, idx);
      }
    }

    method MarkAll(k: nat, from: nat, to: nat) returns (ok: bool)
      requires FlagsFit(col, flags) && k <= Depth(col) && from <= to
      modifies this
      ensures FlagsFit(col, flags) && (ok <==> NodesAt(col, k, from, to).Some?)
      ensures ok ==> NotedAll(col, k, from, to, old(flags), flags)
      ensures ok ==> levels == old(levels) + CountIn(col, k, from, to)
      ensures ok ==> slots == old(slots) + |SlotsIn(col, k, from, to)|
      decreases Depth(col) - k, 1
    {
      hide NullInAny, EmptyInAny, NodeAt, Noted, NotedAll, SlotsAt;
      NotedNone(col, k, from, flags);
      CountNone(col, k, from);
      for c := from to to
        invariant FlagsFit(col, flags) && NodesAt(col, k, from, c).Some? && NotedAll(col, k, from, c, old(flags), flags)
        invariant levels == old(levels) + CountIn(col, k, from, c) && slots == old(slots) + |SlotsIn(col, k, from, c)|
      {
        ghost var before := flags;
        var one := Mark(k, c);
        if !one {
          StaysNone(col, k, from, c, to);
          return false;
        }
        NotedMore(col, k, from, c, old(flags), before, flags);
        CountPush(col, k, from, c);
      }
      ok := true;
    }

    /** The levels stand for the layers as `unravel` numbers them. */
    ghost predicate Numbered()
      reads this
    {
      && FlagsFit(col, flags) && ShapeOk(ShapeOf(col, flags)) && |nullLevel| == |emptyLevel| == Depth(col) + 1
      && forall k :: 0 <= k <= Depth(col) ==> LevelsAt(ShapeOf(col, flags), k, nullLevel[k], emptyLevel[k])
    }

    /** `assign_levels`: every layer's kind, its levels numbered from the items outward, and the output sized. */
    method AssignLevels()
      requires FlagsFit(col, flags) && ShapeOk(ShapeOf(col, flags))
      modifies this`nullLevel, this`emptyLevel, this`kinds, this`out
      ensures Numbered() && kinds == KindsOf(ShapeOf(col, flags))
      ensures out.hasDef == (Used(ShapeOf(col, flags), 0) > 0) && out.hasRep == (ListsFrom(col, 0) != 0)
      ensures |out.rep| == (if out.hasRep then levels else 0) && |out.def| == (if out.hasDef then levels else 0)
      ensures |out.isSlot| == (if out.hasRep || out.hasDef then levels else 0) && |out.items| == slots
      ensures out.levelAt == 0 && out.itemAt == 0
    {
      hide KindsOf, KindOf, Used, LevelsAt;
      ghost var sh := ShapeOf(col, flags);
      var n := |col.layers|;
      nullLevel, emptyLevel := seq(n + 1, _ => 0), seq(n + 1, _ => 0);
      kinds := [];
      var next, k := 1, n + 1;
      UsedPast(sh);
      while k > 0
        invariant 0 <= k <= n + 1 && |nullLevel| == |emptyLevel| == n + 1 && next == Used(sh, k) + 1
        invariant forall j :: k <= j <= n ==> LevelsAt(sh, j, nullLevel[j], emptyLevel[j])
        invariant |kinds| == n + 1 - k && forall li :: 0 <= li < |kinds| ==> kinds[li] == KindOf(sh, n - li)
      {
        k := k - 1;
        UsedStep(sh, k);
        var flat := k == n || !col.layers[k].isList;
        var kind, nullAt, emptyAt, after := NumberLayer(flat, flags.nulls[k], flags.empties[k], next);
        LayerNumbered(sh, k, next, nullAt, emptyAt, kind);
        nullLevel, emptyLevel := nullLevel[k := nullAt], emptyLevel[k := emptyAt];
        kinds, next := kinds + [kind], after;
      }
      assert kinds == KindsOf(sh);
      var hasRep, hasDef := ListsFrom(col, 0) != 0, next > 1;
      out := Out(hasRep, hasDef, if hasRep then seq(levels, _ => 0) else [], if hasDef then seq(levels, _ => 0) else [],
                 if hasRep || hasDef then seq(levels, _ => false) else [], seq(slots, _ => 0), 0, 0);
    }

    /** Pass 2 over entry idx of layer k: its levels and its slots, in the room pass 1 counted for them. */
    method Emit(k: nat, idx: nat, rep: nat) returns (ok: bool)
      requires Numbered() && k <= Depth(col) && NodeAt(col, k, idx).Some?
      requires Ok(ShapeOf(col, flags), NodeAt(col, k, idx).value, k)
      requires Room(out, CountAt(col, k, idx), |SlotsAt(col, k, idx)|)
      modifies this`out
      ensures ok && |LevelsFor(col, flags, k, idx, rep)| == |MarksAt(col, k, idx)| == CountAt(col, k, idx)
      ensures out == Wrote(old(out), LevelsFor(col, flags, k, idx, rep), MarksAt(col, k, idx), SlotsAt(col, k, idx))
      decreases Depth(col) - k, 0
    {
      hide NodesAt, SlotsIn, MarksIn, CutOf, AnyShape, Wrote, Put, LevelsAt, Used, Room;
      ghost var sh := ShapeOf(col, flags);
      LevelsCount(col, flags, k, idx, rep);
      MarksCount(col, k, idx);
      assert LevelsAt(sh, k, nullLevel[k], emptyLevel[k]);
      if k == |col.layers| {
        var valid := ValidAt(col.items, idx);
        NumberedNull(sh, k, nullLevel[k], emptyLevel[k]);
        PutIs(out, Level(rep, if valid then 0 else nullLevel[k]), Some(idx));
        out := Put(out, Level(rep, if valid then 0 else nullLevel[k]), Some(idx));
        return true;
      }
      var layer := col.layers[k];
      var valid := ValidAt(layer.validity, idx);
      if !layer.isList {
        if !valid {
          NumberedNull(sh, k, nullLevel[k], emptyLevel[k]);
          var slot := if ListsFrom(col, k + 1) > 0 then None else Some(idx);
          PutIs(out, Level(rep, nullLevel[k]), slot);
          out := Put(out, Level(rep, nullLevel[k]), slot);
          return true;
        }
        ok := Emit(k + 1, idx, rep);
        return;
      }
      if idx + 1 >= |layer.offsets| {
        return false;
      }
      var begin, end := layer.offsets[idx], layer.offsets[idx + 1];
      if !valid {
        NumberedNull(sh, k, nullLevel[k], emptyLevel[k]);
        PutIs(out, Level(rep, nullLevel[k]), None);
        out := Put(out, Level(rep, nullLevel[k]), None);
        return true;
      }
      if end < begin {
        return false;
      }
      if end == begin {
        NumberedNull(sh, k, nullLevel[k], emptyLevel[k]);
        NothingIn(col, k + 1, begin);
        PutIs(out, Level(rep, emptyLevel[k]), None);
        out := Put(out, Level(rep, emptyLevel[k]), None);
        return true;
      }
      CountList(col, k, idx);
      ListsAre(col, flags, k);
      ok := EmitAll(k + 1, begin, end, rep, ListsFrom(col, k) - 1);
    }

    method EmitAll(k: nat, from: nat, end: nat, first: nat, rest: nat) returns (ok: bool)
      requires Numbered() && k <= Depth(col) && from <= end && NodesAt(col, k, from, end).Some?
      requires AllOk(ShapeOf(col, flags), NodesAt(col, k, from, end).value, k)
      requires Room(out, CountIn(col, k, from, end), |SlotsIn(col, k, from, end)|)
      modifies this`out
      ensures ok && |LevelsIn(col, flags, k, from, end, first, rest)| == CountIn(col, k, from, end)
      ensures |MarksIn(col, k, from, end)| == CountIn(col, k, from, end)
      ensures out == Wrote(old(out), LevelsIn(col, flags, k, from, end, first, rest), MarksIn(col, k, from, end),
                           SlotsIn(col, k, from, end))
      decreases Depth(col) - k, 1
    {
      hide NodeAt, SlotsAt, Cut, CutOf, AnyShape, Wrote, LevelsAt, Used, Ok, NodesAt, CountIn, CountAt, LevelsIn,
           LevelsFor, SlotsIn, MarksIn, MarksAt, Room;
      InNothing(col, flags, k, from, first, rest);
      RoomLess(out, CountIn(col, k, from, end), 0, |SlotsIn(col, k, from, end)|, 0);
      WroteNothing(out);
      for c := from to end
        invariant NodesAt(col, k, from, c).Some?
        invariant |LevelsIn(col, flags, k, from, c, first, rest)| == CountIn(col, k, from, c)
        invariant |MarksIn(col, k, from, c)| == CountIn(col, k, from, c)
        invariant Room(old(out), CountIn(col, k, from, c), |SlotsIn(col, k, from, c)|)
        invariant out == Wrote(old(out), LevelsIn(col, flags, k, from, c, first, rest), MarksIn(col, k, from, c),
                               SlotsIn(col, k, from, c))
      {
        OneMore(col, flags, k, from, c, end, first, rest);
        var r := if c == from then first else rest;
        LevelsCount(col, flags, k, c, r);
        MarksCount(col, k, c);
        RoomLess(old(out), CountIn(col, k, from, end), CountIn(col, k, from, c + 1),
                 |SlotsIn(col, k, from, end)|, |SlotsIn(col, k, from, c + 1)|);
        WroteTwice(old(out), LevelsIn(col, flags, k, from, c, first, rest), MarksIn(col, k, from, c),
                   SlotsIn(col, k, from, c), LevelsFor(col, flags, k, c, r), MarksAt(col, k, c), SlotsAt(col, k, c));
        var one := Emit(k, c, r);
      }
      ok := true;
    }
  }

  lemma NotedEmpty(col: Column, k: nat, idx: nat, f: Flags)
    requires k < Depth(col) && col.layers[k].isList && idx + 1 < |col.layers[k].offsets| && FlagsFit(col, f)
    requires ValidAt(col.layers[k].validity, idx) && col.layers[k].offsets[idx] == col.layers[k].offsets[idx + 1]
    ensures Noted(col, k, idx, f, f.(empties := f.empties[k := true]))
  {
    hide NullInAny, EmptyInAny;
    var at := col.layers[k].offsets[idx];
    forall j | 0 <= j <= Depth(col) ensures !NullIn(col, k, idx, j) {
      NothingIn(col, k + 1, at);
      assert !NullInAny(col, k + 1, at, at, j);
    }
  }

  lemma NothingIn(col: Column, k: nat, at: nat)
    ensures SlotsIn(col, k, at, at) == []
    ensures forall j :: !NullInAny(col, k, at, at, j)
  {
  }

  lemma CountNone(col: Column, k: nat, at: nat)
    requires k <= Depth(col)
    ensures NodesAt(col, k, at, at) == Some([]) && CountIn(col, k, at, at) == 0 && SlotsIn(col, k, at, at) == []
  {
  }

  /** An entry has a mark for each of its levels. */
  lemma {:induction false} MarksCount(col: Column, k: nat, idx: nat)
    requires k <= Depth(col) && NodeAt(col, k, idx).Some?
    ensures |MarksAt(col, k, idx)| == CountAt(col, k, idx)
    decreases Depth(col) - k, 0
  {
    hide CutOf, NodesAt, MarksIn, AnyShape;
    if k < Depth(col) && ValidAt(col.layers[k].validity, idx) {
      var layer := col.layers[k];
      if !layer.isList {
        MarksCount(col, k + 1, idx);
      } else if layer.offsets[idx] < layer.offsets[idx + 1] {
        MarksAllCount(col, k + 1, layer.offsets[idx], layer.offsets[idx + 1]);
        CountList(col, k, idx);
      }
    }
  }

  lemma {:induction false} MarksAllCount(col: Column, k: nat, from: nat, to: nat)
    requires k <= Depth(col) && from <= to && NodesAt(col, k, from, to).Some?
    ensures |MarksIn(col, k, from, to)| == CountIn(col, k, from, to)
    decreases Depth(col) - k, 1 + to - from
  {
    hide NodeAt, MarksAt, CountAt, CountIn;
    if from == to {
      CountNone(col, k, from);
    } else {
      CountPush(col, k, from, to - 1);
      MarksAllCount(col, k, from, to - 1);
      MarksCount(col, k, to - 1);
    }
  }

  lemma RoomLess(o: Out, levels: nat, fewer: nat, slots: nat, less: nat)
    requires Room(o, levels, slots) && fewer <= levels && less <= slots
    ensures Room(o, fewer, less)
  {
  }

  /** An entry that is refused refuses every range it is in. */
  lemma {:induction false} StaysNone(col: Column, k: nat, from: nat, c: nat, end: nat)
    requires from <= c < end && NodeAt(col, k, c).None?
    ensures NodesAt(col, k, from, end).None?
    decreases end - c
  {
    if c + 1 < end { StaysNone(col, k, from, c, end - 1); }
  }

  lemma CountList(col: Column, k: nat, idx: nat)
    requires k < Depth(col) && col.layers[k].isList && idx + 1 < |col.layers[k].offsets|
    requires ValidAt(col.layers[k].validity, idx) && col.layers[k].offsets[idx] < col.layers[k].offsets[idx + 1]
    requires NodesAt(col, k + 1, col.layers[k].offsets[idx], col.layers[k].offsets[idx + 1]).Some?
    ensures NodeAt(col, k, idx).Some?
    ensures CountAt(col, k, idx) == CountIn(col, k + 1, col.layers[k].offsets[idx], col.layers[k].offsets[idx + 1])
  {
    hide CutOf, NodesAt;
    var sh, n := AnyShape(col), Depth(col);
    var cs := NodesAt(col, k + 1, col.layers[k].offsets[idx], col.layers[k].offsets[idx + 1]).value;
    CutsLength(sh, sh, cs, k + 1, n, 0, Between(sh, k, n) - 1, 0, 0);
  }

  // ---- the second pass -----------------------------------------------------------------------------

  function ListsOf(col: Column): seq<bool> {
    seq(Depth(col), k requires 0 <= k < Depth(col) => col.layers[k].isList)
  }

  function ShapeOf(col: Column, f: Flags): (sh: Shape)
    ensures SameLists(sh, col)
  {
    Shape(ListsOf(col), f.nulls, f.empties)
  }

  ghost predicate LevelsAt(sh: Shape, k: nat, nullLevel: nat, emptyLevel: nat)
    requires ShapeOk(sh) && k <= Items(sh)
  {
    && nullLevel == (if sh.nulls[k] then NullLevel(sh, k) else 0)
    && emptyLevel == (if sh.empties[k] then EmptyLevel(sh, k) else 0)
  }

  /** One layer's kind and levels, from the next free level on. */
  method NumberLayer(flat: bool, hasNull: bool, hasEmpty: bool, next: nat)
    returns (kind: Kind, nullLevel: nat, emptyLevel: nat, after: nat)
    requires flat ==> !hasEmpty
    ensures nullLevel == (if hasNull then next else 0) && emptyLevel == (if hasEmpty then next + One(hasNull) else 0)
    ensures after == next + One(hasNull) + One(hasEmpty)
    ensures HasNull(kind) == hasNull && HasEmpty(kind) == hasEmpty && IsItemKind(kind) == flat && !kind.Unknown?
  {
    nullLevel, emptyLevel, after := 0, 0, next;
    if flat {
      kind := if hasNull then NullableItem else AllValidItem;
      if hasNull {
        nullLevel, after := next, next + 1;
      }
    } else if hasNull && hasEmpty {
      kind, nullLevel, emptyLevel, after := NullAndEmptyList, next, next + 1, next + 2;
    } else if hasNull {
      kind, nullLevel, after := NullableList, next, next + 1;
    } else if hasEmpty {
      kind, emptyLevel, after := EmptyableList, next, next + 1;
    } else {
      kind := AllValidList;
    }
  }

  lemma LayerNumbered(sh: Shape, k: nat, next: nat, nullLevel: nat, emptyLevel: nat, kind: Kind)
    requires ShapeOk(sh) && k <= Items(sh) && next == Used(sh, k + 1) + 1
    requires nullLevel == (if sh.nulls[k] then next else 0)
    requires emptyLevel == (if sh.empties[k] then next + One(sh.nulls[k]) else 0)
    requires HasNull(kind) == sh.nulls[k] && HasEmpty(kind) == sh.empties[k] && !kind.Unknown?
    requires IsItemKind(kind) == (k == Items(sh) || !sh.lists[k])
    ensures LevelsAt(sh, k, nullLevel, emptyLevel) && kind == KindOf(sh, k)
  {
  }

  lemma NumberedNull(sh: Shape, k: nat, nullLevel: nat, emptyLevel: nat)
    requires ShapeOk(sh) && k <= Items(sh) && LevelsAt(sh, k, nullLevel, emptyLevel)
    ensures (sh.nulls[k] ==> nullLevel == NullLevel(sh, k)) && (sh.empties[k] ==> emptyLevel == EmptyLevel(sh, k))
  {
  }

  lemma UsedPast(sh: Shape)
    requires ShapeOk(sh)
    ensures Used(sh, Items(sh) + 1) == 0
  {
  }

  /** The levels of an entry. */
  ghost function LevelsFor(col: Column, f: Flags, k: nat, idx: nat, rep: nat): seq<Level>
    requires FlagsFit(col, f) && ShapeOk(ShapeOf(col, f)) && k <= Depth(col) && NodeAt(col, k, idx).Some?
  {
    Cut(ShapeOf(col, f), NodeAt(col, k, idx).value, k, Depth(col), rep)
  }

  ghost function LevelsIn(col: Column, f: Flags, k: nat, from: nat, end: nat, first: nat, rest: nat): seq<Level>
    requires FlagsFit(col, f) && ShapeOk(ShapeOf(col, f)) && k <= Depth(col) && NodesAt(col, k, from, end).Some?
  {
    CutOf(ShapeOf(col, f), NodesAt(col, k, from, end).value, k, Depth(col), first, rest)
  }

  lemma LevelsCount(col: Column, f: Flags, k: nat, idx: nat, rep: nat)
    requires FlagsFit(col, f) && ShapeOk(ShapeOf(col, f)) && k <= Depth(col) && NodeAt(col, k, idx).Some?
    ensures |LevelsFor(col, f, k, idx, rep)| == CountAt(col, k, idx)
  {
    CutLength(ShapeOf(col, f), AnyShape(col), NodeAt(col, k, idx).value, k, Depth(col), rep, 0);
  }

  lemma {:induction false} ListsAre(col: Column, f: Flags, k: nat)
    requires k <= Depth(col)
    ensures ListsFrom(col, k) == Between(ShapeOf(col, f), k, Depth(col))
    decreases Depth(col) - k
  {
    if k < Depth(col) { ListsAre(col, f, k + 1); }
  }

  lemma InNothing(col: Column, f: Flags, k: nat, from: nat, first: nat, rest: nat)
    requires FlagsFit(col, f) && ShapeOk(ShapeOf(col, f)) && k <= Depth(col)
    ensures NodesAt(col, k, from, from).Some? && LevelsIn(col, f, k, from, from, first, rest) == []
    ensures CountIn(col, k, from, from) == 0 && SlotsIn(col, k, from, from) == [] && MarksIn(col, k, from, from) == []
  {
  }

  lemma {:induction false} PrefixThere(col: Column, k: nat, from: nat, c: nat, end: nat)
    requires from <= c <= end && NodesAt(col, k, from, end).Some?
    ensures NodesAt(col, k, from, c).Some?
            && NodesAt(col, k, from, c).value == NodesAt(col, k, from, end).value[..c - from]
    decreases end - c
  {
    if c < end { PrefixThere(col, k, from, c, end - 1); }
  }

  lemma {:induction false} CountGrows(col: Column, k: nat, from: nat, c: nat, end: nat)
    requires k <= Depth(col) && from <= c <= end && NodesAt(col, k, from, end).Some?
    ensures NodesAt(col, k, from, c).Some? && CountIn(col, k, from, c) <= CountIn(col, k, from, end)
    ensures |SlotsIn(col, k, from, c)| <= |SlotsIn(col, k, from, end)|
    decreases end - c
  {
    hide NodeAt, SlotsAt, CountIn, CountAt;
    if c < end {
      CountPush(col, k, from, end - 1);
      CountGrows(col, k, from, c, end - 1);
    }
  }

  /** Entry c of a range: its levels follow those before it. */
  lemma OneMore(col: Column, f: Flags, k: nat, from: nat, c: nat, end: nat, first: nat, rest: nat)
    requires FlagsFit(col, f) && ShapeOk(ShapeOf(col, f)) && k <= Depth(col) && from <= c < end
    requires NodesAt(col, k, from, end).Some? && AllOk(ShapeOf(col, f), NodesAt(col, k, from, end).value, k)
    ensures NodesAt(col, k, from, c + 1).Some? && NodesAt(col, k, from, c).Some? && NodeAt(col, k, c).Some?
    ensures Ok(ShapeOf(col, f), NodeAt(col, k, c).value, k)
    ensures LevelsIn(col, f, k, from, c + 1, first, rest)
         == LevelsIn(col, f, k, from, c, first, rest) + LevelsFor(col, f, k, c, if c == from then first else rest)
    ensures CountIn(col, k, from, c + 1) == CountIn(col, k, from, c) + CountAt(col, k, c)
    ensures SlotsIn(col, k, from, c + 1) == SlotsIn(col, k, from, c) + SlotsAt(col, k, c)
    ensures MarksIn(col, k, from, c + 1) == MarksIn(col, k, from, c) + MarksAt(col, k, c)
    ensures CountIn(col, k, from, c + 1) <= CountIn(col, k, from, end)
    ensures |SlotsIn(col, k, from, c + 1)| <= |SlotsIn(col, k, from, end)|
  {
    hide NodeAt, SlotsAt, MarksAt, Ok, Cut, CutOf, CountIn, CountAt;
    PrefixThere(col, k, from, c + 1, end);
    CountPush(col, k, from, c);
    CountGrows(col, k, from, c + 1, end);
    var nodes := NodesAt(col, k, from, end).value;
    assert nodes[c - from] == NodeAt(col, k, c).value;
    CutPush(ShapeOf(col, f), NodesAt(col, k, from, c).value, NodeAt(col, k, c).value, k, Depth(col), first, rest);
  }
}
