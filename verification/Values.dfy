/** Nested values written and read back with their leaves: the slots `serialize` of src/encoding/repdef.cpp lists are
    the leaves of the rows from left to right, so values gathered by them and read with the unravelled layers are the
    values of the rows. */
module Values {
  import opened Options
  import opened Levels
  import opened Unravel
  import opened RepDef
  import opened UnravelPage
  import opened Columns
  import opened Serialize
  import opened Nested

  // ---- values --------------------------------------------------------------------------------------

  /** A nested value with its leaves. */
  datatype Value<V> = Null | Leaf(leaf: V) | Record(child: Value<V>) | Several(children: seq<Value<V>>)

  /** Entry idx of layer k of a column whose leaves are `leaf`. */
  ghost function ValueAt<V>(col: Column, leaf: nat -> V, k: nat, idx: nat): Option<Value<V>>
    decreases Depth(col) - k, 0
  {
    if k >= Depth(col) then Some(if ValidAt(col.items, idx) then Leaf(leaf(idx)) else Null)
    else
      var layer := col.layers[k];
      if !layer.isList then
        if !ValidAt(layer.validity, idx) then Some(Null)
        else
          match ValueAt(col, leaf, k + 1, idx)
          case None => None
          case Some(v) => Some(Record(v))
      else if idx + 1 >= |layer.offsets| then None
      else if !ValidAt(layer.validity, idx) then Some(Null)
      else if layer.offsets[idx + 1] < layer.offsets[idx] then None
      else
        match ValuesAt(col, leaf, k + 1, layer.offsets[idx], layer.offsets[idx + 1])
        case None => None
        case Some(vs) => Some(Several(vs))
  }

  ghost function ValuesAt<V>(col: Column, leaf: nat -> V, k: nat, from: nat, end: nat): Option<seq<Value<V>>>
    decreases Depth(col) - k, 1 + end - from
  {
    if from >= end then Some([])
    else
      match ValuesAt(col, leaf, k, from, end - 1)
      case None => None
      case Some(before) =>
        match ValueAt(col, leaf, k, end - 1)
        case None => None
        case Some(v) => Some(before + [v])
  }

  // ---- the entries of a layer, by their place in the column ----------------------------------------

  /** An entry of a layer that is met from the rows: its index in the column's layer, and whether a null struct
      around masks it. */
  datatype Spot = Spot(idx: nat, masked: bool)

  function RunOf(from: nat, end: nat): (r: seq<Spot>)
    requires from <= end
    ensures |r| == end - from && forall j :: 0 <= j < |r| ==> r[j] == Spot(from + j, false)
  {
    seq(end - from, j requires 0 <= j => Spot(from + j, false))
  }

  /** What is one layer further in: a struct's entry is that of the same index, a list's are those between its
      offsets, and a list that is null or masked has none. */
  function Inside(col: Column, k: nat, x: Spot): seq<Spot>
    requires k < Depth(col)
  {
    var layer := col.layers[k];
    var valid := !x.masked && ValidAt(layer.validity, x.idx);
    if !layer.isList then [Spot(x.idx, !valid)]
    else if valid && x.idx + 1 < |layer.offsets| && layer.offsets[x.idx] <= layer.offsets[x.idx + 1]
    then RunOf(layer.offsets[x.idx], layer.offsets[x.idx + 1])
    else []
  }

  function AllInside(col: Column, k: nat, xs: seq<Spot>): seq<Spot>
    requires k < Depth(col)
  {
    if xs == [] then [] else Inside(col, k, xs[0]) + AllInside(col, k, xs[1..])
  }

  /** From layer k in to layer t. */
  function Down(col: Column, k: nat, t: nat, xs: seq<Spot>): seq<Spot>
    requires t <= Depth(col)
    decreases t - k
  {
    if k >= t then xs else Down(col, k + 1, t, AllInside(col, k, xs))
  }

  lemma {:induction false} InsidePlus(col: Column, k: nat, a: seq<Spot>, b: seq<Spot>)
    requires k < Depth(col)
    ensures AllInside(col, k, a + b) == AllInside(col, k, a) + AllInside(col, k, b)
    decreases |a|
  {
    hide Inside;
    if a == [] {
      assert a + b == b;
    } else {
      assert (a + b)[1..] == a[1..] + b;
      InsidePlus(col, k, a[1..], b);
    }
  }

  lemma {:induction false} DownPlus(col: Column, k: nat, t: nat, a: seq<Spot>, b: seq<Spot>)
    requires t <= Depth(col)
    ensures Down(col, k, t, a + b) == Down(col, k, t, a) + Down(col, k, t, b)
    decreases t - k
  {
    hide AllInside;
    if k < t {
      InsidePlus(col, k, a, b);
      DownPlus(col, k + 1, t, AllInside(col, k, a), AllInside(col, k, b));
    }
  }

  lemma {:induction false} DownNext(col: Column, k: nat, t: nat, xs: seq<Spot>)
    requires k <= t < Depth(col)
    ensures Down(col, k, t + 1, xs) == AllInside(col, t, Down(col, k, t, xs))
    decreases t - k
  {
    hide AllInside;
    if k < t {
      DownNext(col, k + 1, t, AllInside(col, k, xs));
    } else {
      assert Down(col, t + 1, t + 1, AllInside(col, t, xs)) == AllInside(col, t, xs);
    }
  }

  lemma {:induction false} DownNothing(col: Column, k: nat, t: nat)
    requires t <= Depth(col)
    ensures Down(col, k, t, []) == []
    decreases t - k
  {
    if k < t { DownNothing(col, k + 1, t); }
  }

  lemma OneInside(col: Column, k: nat, x: Spot)
    requires k < Depth(col)
    ensures AllInside(col, k, [x]) == Inside(col, k, x)
  {
    hide Inside;
    assert [x][1..] == [] && AllInside(col, k, []) == [];
  }

  /** What is masked stays masked, down to the first list. */
  lemma {:induction false} DownMasked(sh: Shape, col: Column, k: nat, t: nat, idx: nat)
    requires SameLists(sh, col) && k <= t <= Depth(col)
    ensures Down(col, k, t, [Spot(idx, true)]) == if Between(sh, k, t) == 0 then [Spot(idx, true)] else []
    decreases t - k
  {
    if k < t {
      OneInside(col, k, Spot(idx, true));
      if sh.lists[k] {
        DownNothing(col, k + 1, t);
      } else {
        DownMasked(sh, col, k + 1, t, idx);
      }
    }
  }

  // ---- entries of a layer --------------------------------------------------------------------------

  /** What a layer's entry says of itself. */
  function EntryOf(col: Column, t: nat, x: Spot): Entry
    requires t <= Depth(col)
  {
    if t == Depth(col) then Entry(!x.masked && ValidAt(col.items, x.idx), 0)
    else
      var layer := col.layers[t];
      Entry(!x.masked && ValidAt(layer.validity, x.idx), if layer.isList then |Inside(col, t, x)| else 0)
  }

  function EntriesFor(col: Column, t: nat, xs: seq<Spot>): (es: seq<Entry>)
    requires t <= Depth(col)
    ensures |es| == |xs| && forall i :: 0 <= i < |es| ==> es[i] == EntryOf(col, t, xs[i])
  {
    seq(|xs|, i requires 0 <= i < |xs| => EntryOf(col, t, xs[i]))
  }

  lemma EntriesForPlus(col: Column, t: nat, a: seq<Spot>, b: seq<Spot>)
    requires t <= Depth(col)
    ensures EntriesFor(col, t, a + b) == EntriesFor(col, t, a) + EntriesFor(col, t, b)
  {
    hide EntryOf;
  }

  /** The entries of layer t under an entry of layer k. */
  lemma {:induction false} EntriesDown(sh: Shape, col: Column, k: nat, t: nat, idx: nat)
    requires SameLists(sh, col) && k <= t <= Depth(col) && NodeAt(col, k, idx).Some?
    ensures EntriesAt(sh, NodeAt(col, k, idx).value, k, t) == EntriesFor(col, t, Down(col, k, t, [Spot(idx, false)]))
    decreases t - k, 0
  {
    hide NodesAt, EntriesOf, Down, AllInside;
    DownStep(col, k, t, idx);
    if k == t {
      assert EntriesFor(col, t, [Spot(idx, false)]) == [EntryOf(col, t, Spot(idx, false))];
    } else {
      var layer := col.layers[k];
      if !layer.isList {
        if ValidAt(layer.validity, idx) {
          EntriesDown(sh, col, k + 1, t, idx);
        } else {
          DownMasked(sh, col, k + 1, t, idx);
          MaskedEntry(col, t, idx, Between(sh, k + 1, t) == 0);
        }
      } else if ValidAt(layer.validity, idx) {
        NoEntries(sh, col, k + 1, t, layer.offsets[idx]);
        EntriesRun(sh, col, k + 1, t, layer.offsets[idx], layer.offsets[idx + 1]);
      } else {
        DownNothing(col, k + 1, t);
      }
    }
  }

  lemma MaskedEntry(col: Column, t: nat, idx: nat, one: bool)
    requires t <= Depth(col)
    ensures EntriesFor(col, t, if one then [Spot(idx, true)] else []) == if one then [Entry(false, 0)] else []
  {
  }

  lemma DownStep(col: Column, k: nat, t: nat, idx: nat)
    requires k <= t <= Depth(col)
    ensures Down(col, k, t, [Spot(idx, false)])
         == if k == t then [Spot(idx, false)] else Down(col, k + 1, t, Inside(col, k, Spot(idx, false)))
  {
    if k < t { OneInside(col, k, Spot(idx, false)); }
  }

  lemma NoEntries(sh: Shape, col: Column, k: nat, t: nat, from: nat)
    requires t <= Depth(col)
    ensures NodesAt(col, k, from, from) == Some([]) && EntriesOf(sh, [], k, t) == []
    ensures EntriesFor(col, t, Down(col, k, t, RunOf(from, from))) == []
  {
    DownNothing(col, k, t);
    assert RunOf(from, from) == [];
  }

  lemma {:induction false} EntriesRun(sh: Shape, col: Column, k: nat, t: nat, from: nat, end: nat)
    requires SameLists(sh, col) && k <= t <= Depth(col) && from <= end && NodesAt(col, k, from, end).Some?
    ensures EntriesOf(sh, NodesAt(col, k, from, end).value, k, t)
         == EntriesFor(col, t, Down(col, k, t, RunOf(from, end)))
    decreases t - k, 1 + end - from
  {
    hide NodeAt, EntriesAt, Down;
    if from == end {
      NoEntries(sh, col, k, t, from);
    } else {
      var a, b := RunOf(from, end - 1), [Spot(end - 1, false)];
      assert RunOf(from, end) == a + b;
      EntriesRun(sh, col, k, t, from, end - 1);
      EntriesDown(sh, col, k, t, end - 1);
      EntriesPush(sh, NodesAt(col, k, from, end - 1).value, NodeAt(col, k, end - 1).value, k, t);
      DownPlus(col, k, t, a, b);
      EntriesForPlus(col, t, Down(col, k, t, a), Down(col, k, t, b));
    }
  }

  // ---- slots ---------------------------------------------------------------------------------------

  function Indices(xs: seq<Spot>): (r: seq<nat>)
    ensures |r| == |xs| && forall i :: 0 <= i < |r| ==> r[i] == xs[i].idx
  {
    seq(|xs|, i requires 0 <= i < |xs| => xs[i].idx)
  }

  lemma {:induction false} SlotsDown(sh: Shape, col: Column, k: nat, idx: nat)
    requires SameLists(sh, col) && k <= Depth(col) && NodeAt(col, k, idx).Some?
    ensures SlotsAt(col, k, idx) == Indices(Down(col, k, Depth(col), [Spot(idx, false)]))
    decreases Depth(col) - k, 0
  {
    hide NodesAt, SlotsIn, Down, AllInside;
    DownStep(col, k, Depth(col), idx);
    if k < Depth(col) {
      var layer := col.layers[k];
      if !ValidAt(layer.validity, idx) {
        if !layer.isList {
          DownMasked(sh, col, k + 1, Depth(col), idx);
          ListsBetween(sh, col, k + 1);
        } else {
          DownNothing(col, k + 1, Depth(col));
        }
      } else if !layer.isList {
        SlotsDown(sh, col, k + 1, idx);
      } else {
        NoEntries(sh, col, k + 1, Depth(col), layer.offsets[idx]);
        SlotsRun(sh, col, k + 1, layer.offsets[idx], layer.offsets[idx + 1]);
      }
    }
  }

  lemma {:induction false} ListsBetween(sh: Shape, col: Column, k: nat)
    requires SameLists(sh, col)
    ensures ListsFrom(col, k) == Between(sh, k, Depth(col))
    decreases Depth(col) - k
  {
    if k < Depth(col) { ListsBetween(sh, col, k + 1); }
  }

  /** The slots are the leaves met from the rows, from left to right; a null struct without a list inside has the one
      of its own index. */
  lemma {:induction false} SlotsRun(sh: Shape, col: Column, k: nat, from: nat, end: nat)
    requires SameLists(sh, col) && k <= Depth(col) && from <= end && NodesAt(col, k, from, end).Some?
    ensures SlotsIn(col, k, from, end) == Indices(Down(col, k, Depth(col), RunOf(from, end)))
    decreases Depth(col) - k, 1 + end - from
  {
    hide NodeAt, SlotsAt, Down;
    if from == end {
      DownNothing(col, k, Depth(col));
      assert RunOf(from, end) == [];
    } else {
      var a, b := RunOf(from, end - 1), [Spot(end - 1, false)];
      assert RunOf(from, end) == a + b;
      SlotsRun(sh, col, k, from, end - 1);
      SlotsDown(sh, col, k, end - 1);
      DownPlus(col, k, Depth(col), a, b);
    }
  }

  // ---- reading -------------------------------------------------------------------------------------

  function LayerAsRead(layer: Layer): ColumnLayer {
    match layer
    case Flat(valid) => ColumnLayer(false, [], valid)
    case Lists(offsets, valid) => ColumnLayer(true, offsets, valid)
  }

  /** The column an unravelled page is: the layers come from the items outward. */
  function ColumnOf(layers: seq<Layer>): (col: Column)
    requires layers != []
    ensures Depth(col) == |layers| - 1 && col.items == layers[0].valid
    ensures forall k :: 0 <= k < Depth(col) ==> col.layers[k] == LayerAsRead(layers[|layers| - 1 - k])
  {
    Column(seq(|layers| - 1, k requires 0 <= k < |layers| - 1 => LayerAsRead(layers[|layers| - 1 - k])),
           layers[0].valid)
  }

  /** Where the inside of an element begins, when each has its own. */
  function Before(col: Column, k: nat, xs: seq<Spot>, e: nat): nat
    requires k < Depth(col) && e <= |xs|
  {
    |AllInside(col, k, xs[..e])|
  }

  lemma InsideAt(col: Column, k: nat, xs: seq<Spot>, e: nat)
    requires k < Depth(col) && e < |xs|
    ensures var at, inside := Before(col, k, xs, e), Inside(col, k, xs[e]);
            at + |inside| <= |AllInside(col, k, xs)| && AllInside(col, k, xs)[at..at + |inside|] == inside
  {
    hide Inside, AllInside;
    var a, b := xs[..e], xs[e + 1..];
    assert xs == a + ([xs[e]] + b);
    InsidePlus(col, k, a, [xs[e]] + b);
    InsidePlus(col, k, [xs[e]], b);
    OneInside(col, k, xs[e]);
  }

  lemma BeforeNext(col: Column, k: nat, xs: seq<Spot>, e: nat)
    requires k < Depth(col) && e < |xs|
    ensures Before(col, k, xs, e + 1) == Before(col, k, xs, e) + |Inside(col, k, xs[e])|
  {
    hide Inside, AllInside;
    assert xs[..e + 1] == xs[..e] + [xs[e]];
    InsidePlus(col, k, xs[..e], [xs[e]]);
    OneInside(col, k, xs[e]);
  }

  lemma {:induction false} BeforeStruct(col: Column, k: nat, xs: seq<Spot>, e: nat)
    requires k < Depth(col) && !col.layers[k].isList && e <= |xs|
    ensures Before(col, k, xs, e) == e
    decreases e
  {
    if e == 0 {
      assert xs[..0] == [];
    } else {
      BeforeStruct(col, k, xs, e - 1);
      BeforeNext(col, k, xs, e - 1);
    }
  }

  /** The offsets of a list layer are where the insides begin. */
  lemma {:induction false} StartsBefore(col: Column, k: nat, xs: seq<Spot>, from: nat, e: nat)
    requires k < Depth(col) && col.layers[k].isList && e <= |xs|
    ensures var es := EntriesFor(col, k, xs);
            (Starts(es, from) + [from + Total(es)])[e] == from + Before(col, k, xs, e)
    decreases |xs|
  {
    hide Inside, EntryOf;
    var es := EntriesFor(col, k, xs);
    if e == 0 {
      assert xs[..0] == [];
      assert xs == [] ==> es == [];
    } else {
      var rest, n := xs[1..], |Inside(col, k, xs[0])|;
      assert es[1..] == EntriesFor(col, k, rest);
      assert es[0].count == n by { ListEntry(col, k, xs[0]); }
      StartsBefore(col, k, rest, from + n, e - 1);
      assert xs[..e] == [xs[0]] + rest[..e - 1];
      assert xs[..e][1..] == rest[..e - 1];
    }
  }

  lemma ListEntry(col: Column, k: nat, x: Spot)
    requires k < Depth(col) && col.layers[k].isList
    ensures EntryOf(col, k, x).count == |Inside(col, k, x)|
  {
  }

  /** The rows of a column, and the column read back: what its layers say of the entries met. */
  ghost predicate ReadAs(col: Column, rows: seq<Spot>, back: Column, sh: Shape) {
    && ShapeOk(sh) && SameLists(sh, col) && Depth(back) == Depth(col)
    && (forall t :: 0 <= t <= Depth(col) ==> LayerRead(col, Down(col, 0, t, rows), back, sh, t))
  }

  ghost predicate LayerRead(col: Column, xs: seq<Spot>, back: Column, sh: Shape, t: nat)
    requires ShapeOk(sh) && SameLists(sh, col) && t <= Depth(col) && Depth(back) == Depth(col)
  {
    var es := EntriesFor(col, t, xs);
    if t == Depth(col) then back.items == Shown(es, sh.nulls[t])
    else if !col.layers[t].isList then !back.layers[t].isList && back.layers[t].validity == Shown(es, sh.nulls[t])
    else back.layers[t] == ColumnLayer(true, Starts(es, 0) + [Total(es)], Valids(es))
  }

  /** The entry can be written, and the shape covers it. */
  ghost predicate Good(sh: Shape, col: Column, t: nat, idx: nat)
    requires ShapeOk(sh)
  {
    NodeAt(col, t, idx).Some? && Ok(sh, NodeAt(col, t, idx).value, t)
  }

  ghost predicate AllGood(sh: Shape, col: Column, t: nat, from: nat, end: nat)
    requires ShapeOk(sh)
  {
    forall c :: from <= c < end ==> Good(sh, col, t, c)
  }

  /** The entries from `begin` on are met side by side, from place `at` on. */
  ghost predicate Stands(xs: seq<Spot>, at: nat, begin: nat, n: nat) {
    at + n <= |xs| && xs[at..at + n] == RunOf(begin, begin + n)
  }

  /** Gathered by the slots: the leaf read at each is the one of its index. */
  ghost predicate Gathered<V>(slots: seq<nat>, leaf: nat -> V, read: nat -> V) {
    forall j :: 0 <= j < |slots| ==> read(j) == leaf(slots[j])
  }

  /** An entry that is met and not masked reads as the value of its place in the column. */
  lemma {:induction false} ReadSpot<V>(col: Column, rows: seq<Spot>, back: Column, sh: Shape, leaf: nat -> V,
                                       read: nat -> V, t: nat, e: nat)
    requires ReadAs(col, rows, back, sh) && t <= Depth(col) && e < |Down(col, 0, t, rows)|
    requires !Down(col, 0, t, rows)[e].masked && Good(sh, col, t, Down(col, 0, t, rows)[e].idx)
    requires Gathered(Indices(Down(col, 0, Depth(col), rows)), leaf, read)
    ensures ValueAt(back, read, t, e).Some?
    ensures ValueAt(back, read, t, e) == ValueAt(col, leaf, t, Down(col, 0, t, rows)[e].idx)
    decreases Depth(col) - t, 0
  {
    hide Down, NodesAt, ValuesAt, Inside, AllInside, Starts, Total, ReadAs;
    var xs := Down(col, 0, t, rows);
    LayerIs(col, rows, back, sh, t);
    if t < Depth(col) {
      DownNext(col, 0, t, rows);
      var idx := xs[e].idx;
      if !col.layers[t].isList {
        if ValidAt(col.layers[t].validity, idx) {
          StructSpot(col, xs, t, e);
          ReadSpot(col, rows, back, sh, leaf, read, t + 1, e);
        }
      } else if ValidAt(col.layers[t].validity, idx) {
        ChildrenThere(col, t, idx);
        var begin := col.layers[t].offsets[idx];
        var n := col.layers[t].offsets[idx + 1] - begin;
        ListSpot(col, xs, t, e);
        ListOffsets(col, xs, back, sh, t, e);
        ChildrenOk(sh, col, t, idx);
        ReadRun(col, rows, back, sh, leaf, read, t + 1, Before(col, t, xs, e), begin, n);
      }
    }
  }

  lemma LayerIs(col: Column, rows: seq<Spot>, back: Column, sh: Shape, t: nat)
    requires ReadAs(col, rows, back, sh) && t <= Depth(col)
    ensures ShapeOk(sh) && SameLists(sh, col) && Depth(back) == Depth(col)
    ensures LayerRead(col, Down(col, 0, t, rows), back, sh, t)
  {
    hide Down, LayerRead;
  }

  lemma StructSpot(col: Column, xs: seq<Spot>, t: nat, e: nat)
    requires t < Depth(col) && !col.layers[t].isList && e < |xs| && !xs[e].masked
    requires ValidAt(col.layers[t].validity, xs[e].idx)
    ensures e < |AllInside(col, t, xs)| && AllInside(col, t, xs)[e] == xs[e]
  {
    hide AllInside;
    BeforeStruct(col, t, xs, e);
    InsideAt(col, t, xs, e);
    assert AllInside(col, t, xs)[e..e + 1][0] == Inside(col, t, xs[e])[0];
  }

  /** A list's children are met side by side. */
  lemma ListSpot(col: Column, xs: seq<Spot>, t: nat, e: nat)
    requires t < Depth(col) && col.layers[t].isList && e < |xs| && !xs[e].masked
    requires ValidAt(col.layers[t].validity, xs[e].idx) && xs[e].idx + 1 < |col.layers[t].offsets|
    requires col.layers[t].offsets[xs[e].idx] <= col.layers[t].offsets[xs[e].idx + 1]
    ensures var begin, end := col.layers[t].offsets[xs[e].idx], col.layers[t].offsets[xs[e].idx + 1];
            |Inside(col, t, xs[e])| == end - begin
            && Stands(AllInside(col, t, xs), Before(col, t, xs, e), begin, end - begin)
  {
    hide AllInside;
    InsideAt(col, t, xs, e);
  }

  lemma ListOffsets(col: Column, xs: seq<Spot>, back: Column, sh: Shape, t: nat, e: nat)
    requires ShapeOk(sh) && SameLists(sh, col) && t < Depth(col) && Depth(back) == Depth(col)
    requires col.layers[t].isList && LayerRead(col, xs, back, sh, t) && e < |xs|
    ensures back.layers[t].isList && e + 1 < |back.layers[t].offsets|
    ensures back.layers[t].offsets[e] == Before(col, t, xs, e)
    ensures back.layers[t].offsets[e + 1] == Before(col, t, xs, e) + |Inside(col, t, xs[e])|
    ensures ValidAt(back.layers[t].validity, e) <==> EntryOf(col, t, xs[e]).valid
  {
    hide Inside, AllInside, Starts, Total, EntryOf, Before;
    StartsBefore(col, t, xs, 0, e);
    StartsBefore(col, t, xs, 0, e + 1);
    BeforeNext(col, t, xs, e);
  }

  lemma ChildrenThere(col: Column, t: nat, idx: nat)
    requires t < Depth(col) && col.layers[t].isList && ValidAt(col.layers[t].validity, idx)
    requires NodeAt(col, t, idx).Some?
    ensures idx + 1 < |col.layers[t].offsets| && col.layers[t].offsets[idx] <= col.layers[t].offsets[idx + 1]
    ensures NodesAt(col, t + 1, col.layers[t].offsets[idx], col.layers[t].offsets[idx + 1]).Some?
  {
  }

  lemma ChildrenOk(sh: Shape, col: Column, t: nat, idx: nat)
    requires ShapeOk(sh) && SameLists(sh, col) && t < Depth(col)
    requires col.layers[t].isList && ValidAt(col.layers[t].validity, idx)
    requires Good(sh, col, t, idx)
    ensures idx + 1 < |col.layers[t].offsets|
    ensures AllGood(sh, col, t + 1, col.layers[t].offsets[idx], col.layers[t].offsets[idx + 1])
  {
    hide NodesAt;
    ChildrenThere(col, t, idx);
    var from, end := col.layers[t].offsets[idx], col.layers[t].offsets[idx + 1];
    var inner := t + 1;
    forall c | from <= c < end ensures Good(sh, col, inner, c) {
      NodeOfRun(col, inner, from, end, c);
    }
  }

  lemma {:induction false} NodeOfRun(col: Column, k: nat, from: nat, end: nat, c: nat)
    requires from <= c < end && NodesAt(col, k, from, end).Some?
    ensures NodeAt(col, k, c).Some? && NodesAt(col, k, from, end).value[c - from] == NodeAt(col, k, c).value
    decreases end
  {
    hide NodeAt;
    if c < end - 1 { NodeOfRun(col, k, from, end - 1, c); }
  }

  lemma {:induction false} ReadRun<V>(col: Column, rows: seq<Spot>, back: Column, sh: Shape, leaf: nat -> V,
                                      read: nat -> V, t: nat, at: nat, begin: nat, n: nat)
    requires ReadAs(col, rows, back, sh) && t <= Depth(col)
    requires Stands(Down(col, 0, t, rows), at, begin, n) && AllGood(sh, col, t, begin, begin + n)
    requires Gathered(Indices(Down(col, 0, Depth(col), rows)), leaf, read)
    ensures ValuesAt(back, read, t, at, at + n).Some?
    ensures ValuesAt(back, read, t, at, at + n) == ValuesAt(col, leaf, t, begin, begin + n)
    decreases Depth(col) - t, n + 1
  {
    hide Down, NodeAt, ValueAt, ReadAs, Good, Gathered;
    if n > 0 {
      var xs, m := Down(col, 0, t, rows), n - 1;
      assert xs[at..at + m] == xs[at..at + n][..m] && RunOf(begin, begin + m) == RunOf(begin, begin + n)[..m];
      assert xs[at + m] == xs[at..at + n][m];
      ReadRun(col, rows, back, sh, leaf, read, t, at, begin, m);
      ReadSpot(col, rows, back, sh, leaf, read, t, at + m);
    }
  }

  // ---- the round trip ------------------------------------------------------------------------------

  /** The column of the layers of some rows says of each layer what its entries are. */
  lemma ColumnReads(col: Column, first: nat, end: nat, sh: Shape)
    requires ShapeOk(sh) && SameLists(sh, col) && first <= end && NodesAt(col, 0, first, end).Some?
    ensures LayersFrom(sh, NodesAt(col, 0, first, end).value, Depth(col)) != []
    ensures ReadAs(col, RunOf(first, end), ColumnOf(LayersFrom(sh, NodesAt(col, 0, first, end).value, Depth(col))), sh)
  {
    hide NodesAt, LayersFrom, LayerOf, LayerRead, Down;
    var nodes, n := NodesAt(col, 0, first, end).value, Depth(col);
    LayerIn(sh, nodes, n, n);
    var back := ColumnOf(LayersFrom(sh, nodes, n));
    forall t | 0 <= t <= n ensures LayerRead(col, Down(col, 0, t, RunOf(first, end)), back, sh, t) {
      LayerIn(sh, nodes, t, n);
      EntriesRun(sh, col, 0, t, first, end);
      OneLayerRead(col, Down(col, 0, t, RunOf(first, end)), back, sh, nodes, t);
    }
  }

  lemma OneLayerRead(col: Column, xs: seq<Spot>, back: Column, sh: Shape, nodes: seq<Node>, t: nat)
    requires ShapeOk(sh) && SameLists(sh, col) && t <= Depth(col) && Depth(back) == Depth(col)
    requires EntriesOf(sh, nodes, 0, t) == EntriesFor(col, t, xs)
    requires if t == Depth(col) then back.items == LayerOf(sh, nodes, t).valid
             else back.layers[t] == LayerAsRead(LayerOf(sh, nodes, t))
    ensures LayerRead(col, xs, back, sh, t)
  {
    hide EntriesOf, EntriesFor, Starts, Total;
  }

  /** For every column that can be serialized, every run of its rows and all leaf values: the values gathered by the
      slots, read with the unravelled layers, are the rows' own values, each with its nulls, lists and leaves. */
  lemma ValuesBack<V>(col: Column, first: nat, end: nat, numItems: Option<nat>, leaf: nat -> V, read: nat -> V)
    requires first <= end && NodesAt(col, 0, first, end).Some?
    requires var s := SerializedOf(col, first, end);
      if numItems.Some? then numItems.value == |s.items| else s.hasRep || s.hasDef
    requires Gathered(SerializedOf(col, first, end).items, leaf, read)
    ensures
      var s := SerializedOf(col, first, end);
      var layers := UnravelOf(s.rep, s.hasRep, s.def, s.hasDef, s.kinds, numItems);
      && layers.Some? && layers.value != []
      && ValuesAt(ColumnOf(layers.value), read, 0, 0, end - first).Some?
      && ValuesAt(ColumnOf(layers.value), read, 0, 0, end - first) == ValuesAt(col, leaf, 0, first, end)
  {
    hide NodesAt, NodeAt, FlagsOf, RowLevels, SlotsIn, UnravelOf, Down, ReadAs, LayersFrom, ColumnOf, ValuesAt,
         Gathered, AllOk, Used, KindsOf, MarksIn;
    var sh, n := ShapeOf(col, FlagsOf(col, first, end)), Depth(col);
    RoundTrip(col, first, end, numItems);
    ColumnReads(col, first, end, sh);
    SlotsRun(sh, col, 0, first, end);
    RowsGood(col, first, end);
    var rows := RunOf(first, end);
    TopStands(col, first, end);
    ReadRun(col, rows, ColumnOf(LayersFrom(sh, NodesAt(col, 0, first, end).value, n)), sh, leaf, read, 0, 0, first,
            end - first);
  }

  lemma TopStands(col: Column, first: nat, end: nat)
    requires first <= end
    ensures Stands(Down(col, 0, 0, RunOf(first, end)), 0, first, end - first)
  {
    var rows := RunOf(first, end);
    assert rows[0..end - first] == rows && first + (end - first) == end;
  }

  lemma RowsGood(col: Column, first: nat, end: nat)
    requires first <= end && NodesAt(col, 0, first, end).Some?
    ensures AllGood(ShapeOf(col, FlagsOf(col, first, end)), col, 0, first, end)
  {
    hide NodesAt, NodeAt, FlagsOf;
    var sh := ShapeOf(col, FlagsOf(col, first, end));
    RowsOk(col, first, end);
    forall c | first <= c < end ensures Good(sh, col, 0, c) {
      NodeOfRun(col, 0, first, end, c);
    }
  }
}
