/** What `serialize` of src/encoding/repdef.cpp notes of a column, by the entries met from the rows: which layers hold
    a null or an empty list, and which levels own a value slot. */
module Occurrences {
  import opened Options
  import opened Levels
  import opened Unravel
  import opened Columns
  import opened Serialize
  import opened Nested
  import opened Values

  // ---- nulls ---------------------------------------------------------------------------------------

  /** The entry's own bit says null, whatever is around it. */
  predicate NullBit(col: Column, j: nat, x: Spot)
    requires j <= Depth(col)
  {
    !ValidAt(if j == Depth(col) then col.items else col.layers[j].validity, x.idx)
  }

  ghost predicate AnyNull(col: Column, j: nat, xs: seq<Spot>)
    requires j <= Depth(col)
  {
    exists i :: 0 <= i < |xs| && NullBit(col, j, xs[i])
  }

  lemma AnyNullPlus(col: Column, j: nat, a: seq<Spot>, b: seq<Spot>)
    requires j <= Depth(col)
    ensures AnyNull(col, j, a + b) <==> AnyNull(col, j, a) || AnyNull(col, j, b)
  {
    hide NullBit;
    if AnyNull(col, j, a) {
      var i :| 0 <= i < |a| && NullBit(col, j, a[i]);
      assert (a + b)[i] == a[i];
    }
    if AnyNull(col, j, b) {
      var i :| 0 <= i < |b| && NullBit(col, j, b[i]);
      assert (a + b)[|a| + i] == b[i];
    }
  }

  lemma AnyNullOne(col: Column, j: nat, x: Spot)
    requires j <= Depth(col)
    ensures AnyNull(col, j, [x]) <==> NullBit(col, j, x)
  {
    assert [x][0] == x;
  }

  /** From one masked entry: the bits of the same index, down to the first list or the items. */
  lemma {:induction false} HiddenDown(col: Column, k: nat, idx: nat, j: nat)
    requires k <= j <= Depth(col)
    ensures HiddenNull(col, k, idx, j) <==> AnyNull(col, j, Down(col, k, j, [Spot(idx, true)]))
    decreases j - k
  {
    hide AnyNull;
    AnyNullOne(col, j, Spot(idx, true));
    if k == j {
      NotFurther(col, k, idx);
    } else {
      OneInside(col, k, Spot(idx, true));
      if col.layers[k].isList {
        DownNothing(col, k + 1, j);
        assert !AnyNull(col, j, []) by { NoneNull(col, j); }
      } else {
        HiddenDown(col, k + 1, idx, j);
      }
    }
  }

  lemma NoneNull(col: Column, j: nat)
    requires j <= Depth(col)
    ensures !AnyNull(col, j, [])
  {
  }

  /** Nothing of a layer outside is hidden inside. */
  lemma {:induction false} NotOutside(col: Column, k: nat, idx: nat, j: nat)
    requires j < k <= Depth(col)
    ensures !HiddenNull(col, k, idx, j)
    decreases Depth(col) - k
  {
    if k < Depth(col) { NotOutside(col, k + 1, idx, j); }
  }

  lemma NotFurther(col: Column, k: nat, idx: nat)
    requires k <= Depth(col)
    ensures HiddenNull(col, k, idx, k) <==> NullBit(col, k, Spot(idx, true))
  {
    if k < Depth(col) { NotOutside(col, k + 1, idx, k); }
  }

  lemma {:induction false} NoneOutside(col: Column, k: nat, idx: nat, j: nat)
    requires j < k <= Depth(col)
    ensures !NullIn(col, k, idx, j) && !EmptyIn(col, k, idx, j)
    decreases Depth(col) - k, 0
  {
    hide NullInAny, EmptyInAny;
    if k < Depth(col) {
      NotOutside(col, k + 1, idx, j);
      NoneOutside(col, k + 1, idx, j);
      if idx + 1 < |col.layers[k].offsets| {
        NoneOutsideAny(col, k + 1, col.layers[k].offsets[idx], col.layers[k].offsets[idx + 1], j);
      }
    }
  }

  lemma {:induction false} NoneOutsideAny(col: Column, k: nat, from: nat, end: nat, j: nat)
    requires j < k <= Depth(col)
    ensures !NullInAny(col, k, from, end, j) && !EmptyInAny(col, k, from, end, j)
    decreases Depth(col) - k, 1
  {
    hide NullIn, EmptyIn;
    forall c: nat ensures !NullIn(col, k, c, j) && !EmptyIn(col, k, c, j) { NoneOutside(col, k, c, j); }
  }

  /** A null of layer j is met under an entry exactly when an entry met there has a null bit. */
  lemma {:induction false} NullDown(col: Column, k: nat, idx: nat, j: nat)
    requires k <= j <= Depth(col) && NodeAt(col, k, idx).Some?
    ensures NullIn(col, k, idx, j) <==> AnyNull(col, j, Down(col, k, j, [Spot(idx, false)]))
    decreases j - k, 0
  {
    hide NodesAt, AnyNull, Down, AllInside, NullInAny, HiddenNull;
    DownStep(col, k, j, idx);
    if k == j {
      AnyNullOne(col, j, Spot(idx, false));
      OwnNull(col, k, idx);
    } else {
      var layer := col.layers[k];
      if !ValidAt(layer.validity, idx) {
        if layer.isList {
          DownNothing(col, k + 1, j);
          NoneNull(col, j);
        } else {
          HiddenDown(col, k + 1, idx, j);
        }
      } else if !layer.isList {
        NullDown(col, k + 1, idx, j);
      } else {
        ChildrenThere(col, k, idx);
        NullRun(col, k + 1, layer.offsets[idx], layer.offsets[idx + 1], j);
      }
    }
  }

  lemma OwnNull(col: Column, k: nat, idx: nat)
    requires k <= Depth(col)
    ensures NullIn(col, k, idx, k) <==> NullBit(col, k, Spot(idx, false))
  {
    hide NullInAny;
    if k < Depth(col) {
      NotOutside(col, k + 1, idx, k);
      NoneOutside(col, k + 1, idx, k);
      if idx + 1 < |col.layers[k].offsets| {
        NoneOutsideAny(col, k + 1, col.layers[k].offsets[idx], col.layers[k].offsets[idx + 1], k);
      }
    }
  }

  lemma {:induction false} NullRun(col: Column, k: nat, from: nat, end: nat, j: nat)
    requires k <= j <= Depth(col) && from <= end && NodesAt(col, k, from, end).Some?
    ensures NullInAny(col, k, from, end, j) <==> AnyNull(col, j, Down(col, k, j, RunOf(from, end)))
    decreases j - k, 1 + end - from
  {
    hide NodeAt, NullIn, AnyNull, Down;
    if from == end {
      assert RunOf(from, end) == [];
      DownNothing(col, k, j);
      NoneNull(col, j);
    } else {
      var a, b := RunOf(from, end - 1), [Spot(end - 1, false)];
      assert RunOf(from, end) == a + b;
      NullRun(col, k, from, end - 1, j);
      NullDown(col, k, end - 1, j);
      DownPlus(col, k, j, a, b);
      AnyNullPlus(col, j, Down(col, k, j, a), Down(col, k, j, b));
    }
  }

  // ---- empty lists ---------------------------------------------------------------------------------

  /** A list that is there and holds nothing. */
  predicate IsEmpty(col: Column, j: nat, x: Spot) {
    j < Depth(col) && col.layers[j].isList && !x.masked && ValidAt(col.layers[j].validity, x.idx)
    && x.idx + 1 < |col.layers[j].offsets| && col.layers[j].offsets[x.idx] == col.layers[j].offsets[x.idx + 1]
  }

  ghost predicate AnyEmpty(col: Column, j: nat, xs: seq<Spot>) {
    exists i :: 0 <= i < |xs| && IsEmpty(col, j, xs[i])
  }

  lemma AnyEmptyPlus(col: Column, j: nat, a: seq<Spot>, b: seq<Spot>)
    ensures AnyEmpty(col, j, a + b) <==> AnyEmpty(col, j, a) || AnyEmpty(col, j, b)
  {
    hide IsEmpty;
    if AnyEmpty(col, j, a) {
      var i :| 0 <= i < |a| && IsEmpty(col, j, a[i]);
      assert (a + b)[i] == a[i];
    }
    if AnyEmpty(col, j, b) {
      var i :| 0 <= i < |b| && IsEmpty(col, j, b[i]);
      assert (a + b)[|a| + i] == b[i];
    }
  }

  lemma AnyEmptyOne(col: Column, j: nat, x: Spot)
    ensures !AnyEmpty(col, j, []) && (AnyEmpty(col, j, [x]) <==> IsEmpty(col, j, x))
  {
    assert [x][0] == x;
  }

  lemma {:induction false} EmptyDown(col: Column, k: nat, idx: nat, j: nat)
    requires k <= j <= Depth(col) && NodeAt(col, k, idx).Some?
    ensures EmptyIn(col, k, idx, j) <==> AnyEmpty(col, j, Down(col, k, j, [Spot(idx, false)]))
    decreases j - k, 0
  {
    hide NodesAt, AnyEmpty, Down, AllInside, EmptyInAny, IsEmpty;
    DownStep(col, k, j, idx);
    AnyEmptyOne(col, j, Spot(idx, false));
    AnyEmptyOne(col, j, Spot(idx, true));
    if k == j {
      OwnEmpty(col, k, idx);
    } else {
      var layer := col.layers[k];
      if !ValidAt(layer.validity, idx) {
        if layer.isList {
          DownNothing(col, k + 1, j);
        } else {
          MaskedHoldsNone(col, k + 1, j, idx);
        }
      } else if !layer.isList {
        EmptyDown(col, k + 1, idx, j);
      } else {
        ChildrenThere(col, k, idx);
        EmptyRun(col, k + 1, layer.offsets[idx], layer.offsets[idx + 1], j);
        if layer.offsets[idx] == layer.offsets[idx + 1] {
          DownNothing(col, k + 1, j);
          assert RunOf(layer.offsets[idx], layer.offsets[idx]) == [];
        }
      }
    }
  }

  lemma OwnEmpty(col: Column, k: nat, idx: nat)
    requires k <= Depth(col)
    ensures EmptyIn(col, k, idx, k) <==> IsEmpty(col, k, Spot(idx, false))
  {
    hide EmptyInAny;
    if k < Depth(col) {
      NoneOutside(col, k + 1, idx, k);
      if idx + 1 < |col.layers[k].offsets| {
        NoneOutsideAny(col, k + 1, col.layers[k].offsets[idx], col.layers[k].offsets[idx + 1], k);
      }
    }
  }

  lemma {:induction false} MaskedHoldsNone(col: Column, k: nat, j: nat, idx: nat)
    requires k <= j <= Depth(col)
    ensures !AnyEmpty(col, j, Down(col, k, j, [Spot(idx, true)]))
    decreases j - k
  {
    hide AnyEmpty;
    AnyEmptyOne(col, j, Spot(idx, true));
    if k < j {
      OneInside(col, k, Spot(idx, true));
      if col.layers[k].isList {
        DownNothing(col, k + 1, j);
      } else {
        MaskedHoldsNone(col, k + 1, j, idx);
      }
    }
  }

  lemma {:induction false} EmptyRun(col: Column, k: nat, from: nat, end: nat, j: nat)
    requires k <= j <= Depth(col) && from <= end && NodesAt(col, k, from, end).Some?
    ensures EmptyInAny(col, k, from, end, j) <==> AnyEmpty(col, j, Down(col, k, j, RunOf(from, end)))
    decreases j - k, 1 + end - from
  {
    hide NodeAt, EmptyIn, AnyEmpty, Down;
    AnyEmptyOne(col, j, Spot(0, false));
    if from == end {
      assert RunOf(from, end) == [];
      DownNothing(col, k, j);
    } else {
      var a, b := RunOf(from, end - 1), [Spot(end - 1, false)];
      assert RunOf(from, end) == a + b;
      EmptyRun(col, k, from, end - 1, j);
      EmptyDown(col, k, end - 1, j);
      DownPlus(col, k, j, a, b);
      AnyEmptyPlus(col, j, Down(col, k, j, a), Down(col, k, j, b));
    }
  }

  /** What the first pass notes: a layer is nullable exactly when an entry met there, masked or not, has a null bit,
      and emptyable exactly when a list met there is there and holds nothing. */
  lemma FlagsMet(col: Column, first: nat, end: nat, j: nat)
    requires first <= end && NodesAt(col, 0, first, end).Some? && j <= Depth(col)
    ensures FlagsOf(col, first, end).nulls[j] <==> AnyNull(col, j, Down(col, 0, j, RunOf(first, end)))
    ensures FlagsOf(col, first, end).empties[j] <==> AnyEmpty(col, j, Down(col, 0, j, RunOf(first, end)))
  {
    hide NodesAt, AnyNull, AnyEmpty, Down, NullInAny, EmptyInAny;
    NullRun(col, 0, first, end, j);
    EmptyRun(col, 0, first, end, j);
  }

  // ---- which levels own a slot ---------------------------------------------------------------------

  /** A level the reader's item pass sees. */
  ghost predicate InSight(sh: Shape, l: Level)
    requires ShapeOk(sh)
  {
    l.def < |DepthTable(sh, 0)| && DepthTable(sh, 0)[l.def] == 0
  }

  ghost predicate Sighted(sh: Shape, ls: seq<Level>, marks: seq<bool>)
    requires ShapeOk(sh)
  {
    |marks| == |ls| && forall i :: 0 <= i < |ls| ==> (marks[i] <==> InSight(sh, ls[i]))
  }

  lemma SightedPlus(sh: Shape, a: seq<Level>, p: seq<bool>, b: seq<Level>, q: seq<bool>)
    requires ShapeOk(sh) && Sighted(sh, a, p) && Sighted(sh, b, q)
    ensures Sighted(sh, a + b, p + q)
  {
    hide InSight;
  }

  lemma ZeroInSight(sh: Shape, rep: nat)
    requires ShapeOk(sh)
    ensures InSight(sh, Level(rep, 0))
  {
    TablePrefix(sh, 0, Items(sh) + 1, 0);
  }

  lemma OwnInSight(sh: Shape, k: nat, rep: nat, d: nat)
    requires ShapeOk(sh) && k <= Items(sh) && Used(sh, k + 1) < d <= Used(sh, k)
    ensures InSight(sh, Level(rep, d)) <==> Between(sh, k, Items(sh)) == 0
  {
    TableAt(sh, k, d);
  }

  /** A level owns a slot exactly when the reader's item pass sees it. */
  lemma {:induction false} MarksSeen(sh: Shape, col: Column, k: nat, idx: nat, rep: nat)
    requires ShapeOk(sh) && SameLists(sh, col) && k <= Depth(col) && Good(sh, col, k, idx)
    ensures Sighted(sh, Cut(sh, NodeAt(col, k, idx).value, k, Depth(col), rep), MarksAt(col, k, idx))
    decreases Depth(col) - k, 0
  {
    hide NodesAt, MarksIn, CutOf, InSight, Used, DepthTable;
    ZeroInSight(sh, rep);
    UsedStep(sh, k);
    if k == Depth(col) {
      if !ValidAt(col.items, idx) { OwnInSight(sh, k, rep, NullLevel(sh, k)); }
    } else {
      var layer := col.layers[k];
      ListsBetween(sh, col, k + 1);
      BetweenFirst(sh, k, Depth(col));
      if !ValidAt(layer.validity, idx) {
        OwnInSight(sh, k, rep, NullLevel(sh, k));
      } else if !layer.isList {
        MarksSeen(sh, col, k + 1, idx, rep);
      } else {
        ChildrenThere(col, k, idx);
        if layer.offsets[idx] == layer.offsets[idx + 1] {
          OwnInSight(sh, k, rep, EmptyLevel(sh, k));
        } else {
          ChildrenOk(sh, col, k, idx);
          MarksSeenRun(sh, col, k + 1, layer.offsets[idx], layer.offsets[idx + 1], rep, Between(sh, k, Depth(col)) - 1);
        }
      }
    }
  }

  lemma {:induction false} MarksSeenRun(sh: Shape, col: Column, k: nat, from: nat, end: nat, first: nat, rest: nat)
    requires ShapeOk(sh) && SameLists(sh, col) && k <= Depth(col) && from <= end && AllGood(sh, col, k, from, end)
    requires NodesAt(col, k, from, end).Some?
    ensures Sighted(sh, CutOf(sh, NodesAt(col, k, from, end).value, k, Depth(col), first, rest),
                    MarksIn(col, k, from, end))
    decreases Depth(col) - k, 1 + end - from
  {
    hide NodeAt, MarksAt, Cut, Sighted, Good;
    if from == end {
      assert CutOf(sh, [], k, Depth(col), first, rest) == [];
      NoneSighted(sh);
    } else {
      var m := end - 1;
      var r := if from == m then first else rest;
      assert Good(sh, col, k, m);
      MarksSeenRun(sh, col, k, from, m, first, rest);
      MarksSeen(sh, col, k, m, r);
      CutPush(sh, NodesAt(col, k, from, m).value, NodeAt(col, k, m).value, k, Depth(col), first, rest);
      SightedPlus(sh, CutOf(sh, NodesAt(col, k, from, m).value, k, Depth(col), first, rest), MarksIn(col, k, from, m),
                  Cut(sh, NodeAt(col, k, m).value, k, Depth(col), r), MarksAt(col, k, m));
    }
  }

  lemma NoneSighted(sh: Shape)
    requires ShapeOk(sh)
    ensures Sighted(sh, [], [])
  {
  }

  /** For every run of rows. */
  lemma SlotFlagsSeen(col: Column, first: nat, end: nat)
    requires first <= end && NodesAt(col, 0, first, end).Some?
    ensures Sighted(ShapeOf(col, FlagsOf(col, first, end)), RowLevels(col, first, end), MarksIn(col, 0, first, end))
  {
    hide NodesAt, FlagsOf, CutOf, MarksIn, Sighted, AllGood;
    RowsGood(col, first, end);
    MarksSeenRun(ShapeOf(col, FlagsOf(col, first, end)), col, 0, first, end, ListsFrom(col, 0), ListsFrom(col, 0));
  }
}
