/** A nested column as src/encoding/repdef.cpp is given it: list offsets and validity by layer. Its rows as nested
    values, and what occurs in them. */
module Columns {
  import opened Options
  import opened Levels

  datatype ColumnLayer = ColumnLayer(isList: bool, offsets: seq<nat>, validity: seq<bool>)

  /** Layers outermost first; the validity of the items. */
  datatype Column = Column(layers: seq<ColumnLayer>, items: seq<bool>)

  /** `valid_at`: no bitmap means all valid; past its end nothing is. */
  function ValidAt(validity: seq<bool>, i: nat): bool {
    validity == [] || (i < |validity| && validity[i])
  }

  function Depth(col: Column): nat {
    |col.layers|
  }

  // ---- rows as nested values -----------------------------------------------------------------------

  /** Entry idx of layer k; None when a list has too few or decreasing offsets. What lies under a null is not looked
      at. */
  ghost function NodeAt(col: Column, k: nat, idx: nat): Option<Node>
    decreases Depth(col) - k, 0
  {
    if k >= Depth(col) then Some(Item(ValidAt(col.items, idx)))
    else
      var layer := col.layers[k];
      if !layer.isList then
        if !ValidAt(layer.validity, idx) then Some(NullStruct)
        else
          match NodeAt(col, k + 1, idx)
          case None => None
          case Some(c) => Some(Struct(c))
      else if idx + 1 >= |layer.offsets| then None
      else if !ValidAt(layer.validity, idx) then Some(NullList)
      else if layer.offsets[idx + 1] < layer.offsets[idx] then None
      else if layer.offsets[idx + 1] == layer.offsets[idx] then Some(EmptyList)
      else
        match NodesAt(col, k + 1, layer.offsets[idx], layer.offsets[idx + 1])
        case None => None
        case Some(cs) => Some(List(cs))
  }

  /** Entries [from, to) of layer k. */
  ghost function NodesAt(col: Column, k: nat, from: nat, to: nat): (r: Option<seq<Node>>)
    ensures r.Some? ==> |r.value| == if from < to then to - from else 0
    decreases Depth(col) - k, 1 + to - from
  {
    if from >= to then Some([])
    else
      match NodesAt(col, k, from, to - 1)
      case None => None
      case Some(before) =>
        match NodeAt(col, k, to - 1)
        case None => None
        case Some(node) => Some(before + [node])
  }

  // ---- what occurs ---------------------------------------------------------------------------------

  /** A null of layer j is met under entry idx of layer k, or hidden under a null struct met there. */
  ghost predicate NullIn(col: Column, k: nat, idx: nat, j: nat)
    decreases Depth(col) - k, 0
  {
    if k >= Depth(col) then j == Depth(col) && !ValidAt(col.items, idx)
    else
      var layer := col.layers[k];
      if !ValidAt(layer.validity, idx) then j == k || (!layer.isList && HiddenNull(col, k + 1, idx, j))
      else if !layer.isList then NullIn(col, k + 1, idx, j)
      else idx + 1 < |layer.offsets| && NullInAny(col, k + 1, layer.offsets[idx], layer.offsets[idx + 1], j)
  }

  ghost predicate NullInAny(col: Column, k: nat, from: nat, to: nat, j: nat)
    decreases Depth(col) - k, 1
  {
    exists c :: from <= c < to && NullIn(col, k, c, j)
  }

  /** A null bit of layer j at the same entry, in the layers from k down to the first list or the items. */
  predicate HiddenNull(col: Column, k: nat, idx: nat, j: nat)
    decreases Depth(col) - k
  {
    if k >= Depth(col) then j == Depth(col) && !ValidAt(col.items, idx)
    else (j == k && !ValidAt(col.layers[k].validity, idx)) || (!col.layers[k].isList && HiddenNull(col, k + 1, idx, j))
  }

  /** An empty list of layer j is met under entry idx of layer k. */
  ghost predicate EmptyIn(col: Column, k: nat, idx: nat, j: nat)
    decreases Depth(col) - k, 0
  {
    if k >= Depth(col) then false
    else
      var layer := col.layers[k];
      if !ValidAt(layer.validity, idx) then false
      else if !layer.isList then EmptyIn(col, k + 1, idx, j)
      else
        idx + 1 < |layer.offsets|
        && if layer.offsets[idx] == layer.offsets[idx + 1] then j == k
           else EmptyInAny(col, k + 1, layer.offsets[idx], layer.offsets[idx + 1], j)
  }

  ghost predicate EmptyInAny(col: Column, k: nat, from: nat, to: nat, j: nat)
    decreases Depth(col) - k, 1
  {
    exists c :: from <= c < to && EmptyIn(col, k, c, j)
  }

  /** The shape has the column's lists and covers what occurs under an entry. */
  ghost predicate Covers(sh: Shape, col: Column, k: nat, idx: nat)
    requires ShapeOk(sh) && Items(sh) == Depth(col)
  {
    forall j :: 0 <= j <= Depth(col) ==>
      (NullIn(col, k, idx, j) ==> sh.nulls[j]) && (EmptyIn(col, k, idx, j) ==> sh.empties[j])
  }

  ghost predicate SameLists(sh: Shape, col: Column) {
    Items(sh) == Depth(col) && forall k :: 0 <= k < Depth(col) ==> sh.lists[k] == col.layers[k].isList
  }

  /** A covered entry is a value of the shape. */
  lemma {:induction false} CoveredOk(sh: Shape, col: Column, k: nat, idx: nat)
    requires ShapeOk(sh) && SameLists(sh, col) && k <= Depth(col)
    requires NodeAt(col, k, idx).Some? && Covers(sh, col, k, idx)
    ensures Ok(sh, NodeAt(col, k, idx).value, k)
    decreases Depth(col) - k, 0
  {
    if k == Depth(col) {
      assert !ValidAt(col.items, idx) ==> NullIn(col, k, idx, k);
    } else {
      var layer := col.layers[k];
      if !ValidAt(layer.validity, idx) {
        assert NullIn(col, k, idx, k);
      } else if !layer.isList {
        CoveredOk(sh, col, k + 1, idx);
      } else if layer.offsets[idx] == layer.offsets[idx + 1] {
        assert EmptyIn(col, k, idx, k);
      } else {
        var inner := k + 1;
        forall c | layer.offsets[idx] <= c < layer.offsets[idx + 1] ensures Covers(sh, col, inner, c) {
          CoversChild(sh, col, k, idx, c);
        }
        CoveredAllOk(sh, col, inner, layer.offsets[idx], layer.offsets[idx + 1]);
      }
    }
  }

  lemma CoversChild(sh: Shape, col: Column, k: nat, idx: nat, c: nat)
    requires ShapeOk(sh) && SameLists(sh, col) && k < Depth(col) && Covers(sh, col, k, idx)
    requires var layer := col.layers[k];
      layer.isList && ValidAt(layer.validity, idx) && idx + 1 < |layer.offsets|
      && layer.offsets[idx] <= c < layer.offsets[idx + 1]
    ensures Covers(sh, col, k + 1, c)
  {
    forall j | 0 <= j <= Depth(col)
      ensures (NullIn(col, k + 1, c, j) ==> sh.nulls[j]) && (EmptyIn(col, k + 1, c, j) ==> sh.empties[j])
    {
      assert NullIn(col, k + 1, c, j) ==> NullIn(col, k, idx, j);
      assert EmptyIn(col, k + 1, c, j) ==> EmptyIn(col, k, idx, j);
    }
  }

  lemma {:induction false} CoveredAllOk(sh: Shape, col: Column, k: nat, from: nat, to: nat)
    requires ShapeOk(sh) && SameLists(sh, col) && k <= Depth(col) && NodesAt(col, k, from, to).Some?
    requires forall c :: from <= c < to ==> Covers(sh, col, k, c)
    ensures AllOk(sh, NodesAt(col, k, from, to).value, k)
    decreases Depth(col) - k, 1 + to - from
  {
    if from < to {
      CoveredAllOk(sh, col, k, from, to - 1);
      CoveredOk(sh, col, k, to - 1);
    }
  }
}
