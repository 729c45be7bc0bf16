/** `serialize` of src/encoding/repdef.cpp with threads to spare: both passes run over parts of the rows side by
    side, and the output is that of one pass over all the rows. */
module Parts {
  import opened Options
  import opened Levels
  import opened RepDef
  import opened Columns
  import opened Serialize
  import opened Nested
  import opened Interleave

  // ---- consecutive ranges of rows ------------------------------------------------------------------

  lemma {:induction false} NodesSplit(col: Column, k: nat, a: nat, b: nat, c: nat)
    requires a <= b <= c
    ensures NodesAt(col, k, a, c).Some? <==> NodesAt(col, k, a, b).Some? && NodesAt(col, k, b, c).Some?
    ensures NodesAt(col, k, a, c).Some? ==>
              NodesAt(col, k, a, c).value == NodesAt(col, k, a, b).value + NodesAt(col, k, b, c).value
    decreases c - b
  {
    hide NodeAt;
    if b == c {
      assert NodesAt(col, k, b, c) == Some([]);
    } else {
      NodesSplit(col, k, a, b, c - 1);
    }
  }

  lemma {:induction false} SlotsSplit(col: Column, k: nat, a: nat, b: nat, c: nat)
    requires a <= b <= c
    ensures SlotsIn(col, k, a, c) == SlotsIn(col, k, a, b) + SlotsIn(col, k, b, c)
    ensures MarksIn(col, k, a, c) == MarksIn(col, k, a, b) + MarksIn(col, k, b, c)
    decreases c - b
  {
    hide SlotsAt, MarksAt;
    if b < c { SlotsSplit(col, k, a, b, c - 1); }
  }

  /** Rows all start at the same repetition level, so the levels of rows are those of their parts. */
  lemma {:induction false} CutSplit(sh: Shape, x: seq<Node>, y: seq<Node>, k: nat, t: nat, rep: nat)
    requires ShapeOk(sh) && k <= t <= Items(sh)
    ensures CutOf(sh, x + y, k, t, rep, rep) == CutOf(sh, x, k, t, rep, rep) + CutOf(sh, y, k, t, rep, rep)
    decreases |y|
  {
    hide Cut, CutOf;
    if y == [] {
      assert x + y == x;
      assert CutOf(sh, y, k, t, rep, rep) == [] by { CutNone(sh, k, t, rep); }
    } else {
      var n := |y| - 1;
      CutSplit(sh, x, y[..n], k, t, rep);
      CutPush(sh, x + y[..n], y[n], k, t, rep, rep);
      CutPush(sh, y[..n], y[n], k, t, rep, rep);
      assert x + y == (x + y[..n]) + [y[n]] && y == y[..n] + [y[n]];
    }
  }

  lemma CutNone(sh: Shape, k: nat, t: nat, rep: nat)
    requires ShapeOk(sh) && k <= t <= Items(sh)
    ensures CutOf(sh, [], k, t, rep, rep) == []
  {
  }

  lemma LevelsSplit(col: Column, f: Flags, a: nat, b: nat, c: nat, rep: nat)
    requires FlagsFit(col, f) && ShapeOk(ShapeOf(col, f)) && a <= b <= c && NodesAt(col, 0, a, c).Some?
    ensures NodesAt(col, 0, a, b).Some? && NodesAt(col, 0, b, c).Some?
    ensures LevelsIn(col, f, 0, a, c, rep, rep)
            == LevelsIn(col, f, 0, a, b, rep, rep) + LevelsIn(col, f, 0, b, c, rep, rep)
    ensures CountIn(col, 0, a, c) == CountIn(col, 0, a, b) + CountIn(col, 0, b, c)
  {
    hide CutOf, NodesAt, AnyShape;
    NodesSplit(col, 0, a, b, c);
    var x, y := NodesAt(col, 0, a, b).value, NodesAt(col, 0, b, c).value;
    CutSplit(ShapeOf(col, f), x, y, 0, Depth(col), rep);
    CutSplit(AnyShape(col), x, y, 0, Depth(col), 0);
  }

  // ---- pass 1 --------------------------------------------------------------------------------------

  /** `row_of`: where part k starts. */
  function RowOf(first: nat, num: nat, parts: nat, k: nat): nat
    requires parts > 0
  {
    first + num * k / parts
  }

  lemma RowsUp(first: nat, num: nat, parts: nat, k: nat)
    requires parts > 0
    ensures RowOf(first, num, parts, k) <= RowOf(first, num, parts, k + 1)
  {
    assert num * k <= num * (k + 1);
    DivUp(num * k, num * (k + 1), parts);
  }

  lemma MulAtLeast(x: int, m: int)
    requires m > 0
    ensures (x >= 1 ==> x * m >= m) && (x <= -1 ==> x * m <= -m)
  {
  }

  lemma DivUp(a: nat, b: nat, m: nat)
    requires a <= b && m > 0
    ensures a / m <= b / m
  {
    var q, r := a / m, b / m;
    assert a == q * m + a % m && b == r * m + b % m;
    assert (q - r) * m == q * m - r * m;
    MulAtLeast(q - r, m);
  }

  lemma RowsEnds(first: nat, num: nat, parts: nat)
    requires parts > 0
    ensures RowOf(first, num, parts, 0) == first && RowOf(first, num, parts, parts) == first + num
  {
    var all := num * parts;
    assert all == all / parts * parts + all % parts;
    assert (num - all / parts) * parts == num * parts - all / parts * parts;
    MulAtLeast(num - all / parts, parts);
  }

  /** `merge_counts`: one part's flags added to another's. */
  function Merged(f: Flags, g: Flags): Flags
    requires |f.nulls| == |g.nulls| == |f.empties| == |g.empties|
  {
    var n := |f.nulls|;
    Flags(seq(n, j requires 0 <= j < n => f.nulls[j] || g.nulls[j]),
          seq(n, j requires 0 <= j < n => f.empties[j] || g.empties[j]))
  }

  lemma MergedIs(col: Column, a: nat, b: nat, c: nat, none: Flags, g: Flags)
    requires a <= b <= c && NotedAll(col, 0, b, c, none, g)
    requires FlagsFit(col, none) && forall j :: 0 <= j <= Depth(col) ==> !none.nulls[j] && !none.empties[j]
    ensures Merged(FlagsOf(col, a, b), g) == FlagsOf(col, a, c)
  {
    hide NullIn, EmptyIn;
    var f, h := FlagsOf(col, a, b), FlagsOf(col, a, c);
    var m := Merged(f, g);
    forall j | 0 <= j <= Depth(col) ensures m.nulls[j] == h.nulls[j] { AnyNullSplit(col, a, b, c, j); }
    forall j | 0 <= j <= Depth(col) ensures m.empties[j] == h.empties[j] { AnyEmptySplit(col, a, b, c, j); }
    assert m.nulls == h.nulls && m.empties == h.empties;
  }

  lemma AnyNullSplit(col: Column, a: nat, b: nat, c: nat, j: nat)
    requires a <= b <= c
    ensures NullInAny(col, 0, a, c, j) <==> NullInAny(col, 0, a, b, j) || NullInAny(col, 0, b, c, j)
  {
    hide NullIn;
  }

  lemma AnyEmptySplit(col: Column, a: nat, b: nat, c: nat, j: nat)
    requires a <= b <= c
    ensures EmptyInAny(col, 0, a, c, j) <==> EmptyInAny(col, 0, a, b, j) || EmptyInAny(col, 0, b, c, j)
  {
    hide EmptyIn;
  }

  /** Where each part's levels and slots go. */
  ghost predicate Placed(col: Column, first: nat, num: nat, parts: nat, k: nat, levelAt: seq<nat>, itemAt: seq<nat>)
    requires parts > 0
  {
    |levelAt| == |itemAt| == k && forall i :: 0 <= i < k ==> PlacedAt(col, first, num, parts, i, levelAt[i], itemAt[i])
  }

  ghost predicate PlacedAt(col: Column, first: nat, num: nat, parts: nat, i: nat, level: nat, item: nat)
    requires parts > 0
  {
    var row := RowOf(first, num, parts, i);
    NodesAt(col, 0, first, row).Some? && level == CountIn(col, 0, first, row) && item == |SlotsIn(col, 0, first, row)|
  }

  /** Pass 1 over the parts, their flags and counts merged: refused exactly when one pass over all the rows is, the
      same flags and counts, and every part placed after the ones before it. */
  method CountParts(col: Column, first: nat, num: nat, parts: nat)
    returns (ok: bool, flags: Flags, levels: nat, slots: nat, levelAt: seq<nat>, itemAt: seq<nat>)
    requires parts > 0
    ensures ok <==> NodesAt(col, 0, first, first + num).Some?
    ensures ok ==> flags == FlagsOf(col, first, first + num) && levels == CountIn(col, 0, first, first + num)
                   && slots == |SlotsIn(col, 0, first, first + num)|
                   && Placed(col, first, num, parts, parts, levelAt, itemAt)
  {
    hide NodesAt, SlotsIn, MarksIn, CountIn, FlagsOf, NotedAll, RowOf, PlacedAt;
    RowsEnds(first, num, parts);
    NoRows(col, first);
    ok, levels, slots, levelAt, itemAt := true, 0, 0, [], [];
    flags := Flags(seq(|col.layers| + 1, _ => false), seq(|col.layers| + 1, _ => false));
    assert flags == FlagsOf(col, first, first) by { NoFlags(col, first); }
    for k := 0 to parts
      invariant NodesAt(col, 0, first, RowOf(first, num, parts, k)).Some?
      invariant first <= RowOf(first, num, parts, k)
      invariant flags == FlagsOf(col, first, RowOf(first, num, parts, k))
      invariant levels == CountIn(col, 0, first, RowOf(first, num, parts, k))
      invariant slots == |SlotsIn(col, 0, first, RowOf(first, num, parts, k))|
      invariant Placed(col, first, num, parts, k, levelAt, itemAt)
    {
      RowsUp(first, num, parts, k);
      var from, end := RowOf(first, num, parts, k), RowOf(first, num, parts, k + 1);
      NowPlaced(col, first, num, parts, k, levels, slots);
      levelAt, itemAt := levelAt + [levels], itemAt + [slots];
      var s := new Serializer(col);
      ghost var none := s.flags;
      NodesSplit(col, 0, first, from, end);
      ok := s.MarkAll(0, from, end);
      if !ok {
        PartRefused(col, first, num, parts, k);
        return;
      }
      MergedIs(col, first, from, end, none, s.flags);
      LevelsSplit(col, flags, first, from, end, 0);
      SlotsSplit(col, 0, first, from, end);
      flags, levels, slots := Merged(flags, s.flags), levels + s.levels, slots + s.slots;
    }
  }

  lemma NoRows(col: Column, first: nat)
    ensures NodesAt(col, 0, first, first).Some? && CountIn(col, 0, first, first) == 0
    ensures SlotsIn(col, 0, first, first) == []
  {
  }

  lemma NoFlags(col: Column, first: nat)
    ensures var n := Depth(col) + 1; Flags(seq(n, _ => false), seq(n, _ => false)) == FlagsOf(col, first, first)
  {
    hide NullIn, EmptyIn;
    var n, f := Depth(col) + 1, FlagsOf(col, first, first);
    assert f.nulls == seq(n, _ => false) && f.empties == seq(n, _ => false);
  }

  lemma NowPlaced(col: Column, first: nat, num: nat, parts: nat, k: nat, level: nat, item: nat)
    requires parts > 0 && NodesAt(col, 0, first, RowOf(first, num, parts, k)).Some?
    requires level == CountIn(col, 0, first, RowOf(first, num, parts, k))
    requires item == |SlotsIn(col, 0, first, RowOf(first, num, parts, k))|
    ensures PlacedAt(col, first, num, parts, k, level, item)
  {
  }

  /** A part that is refused refuses the rows. */
  lemma {:induction false} RowsUpTo(first: nat, num: nat, parts: nat, k: nat, l: nat)
    requires parts > 0 && k <= l
    ensures RowOf(first, num, parts, k) <= RowOf(first, num, parts, l)
    decreases l
  {
    hide RowOf;
    if k < l {
      RowsUpTo(first, num, parts, k, l - 1);
      RowsUp(first, num, parts, l - 1);
    }
  }

  lemma PartRefused(col: Column, first: nat, num: nat, parts: nat, k: nat)
    requires k < parts && NodesAt(col, 0, RowOf(first, num, parts, k), RowOf(first, num, parts, k + 1)).None?
    ensures NodesAt(col, 0, first, first + num).None?
  {
    hide NodesAt, RowOf;
    RowsEnds(first, num, parts);
    RowsUpTo(first, num, parts, 0, k);
    RowsUp(first, num, parts, k);
    RowsUpTo(first, num, parts, k + 1, parts);
    NodesSplit(col, 0, first, RowOf(first, num, parts, k + 1), first + num);
    NodesSplit(col, 0, first, RowOf(first, num, parts, k), RowOf(first, num, parts, k + 1));
  }

  // ---- pass 2 --------------------------------------------------------------------------------------

  /** Part k's rows are there. */
  ghost predicate PartThere(col: Column, first: nat, num: nat, parts: nat, k: nat)
    requires parts > 0
  {
    NodesAt(col, 0, RowOf(first, num, parts, k), RowOf(first, num, parts, k + 1)).Some?
  }

  lemma PartsThere(col: Column, first: nat, num: nat, parts: nat, k: nat)
    requires k < parts && NodesAt(col, 0, first, first + num).Some?
    ensures first <= RowOf(first, num, parts, k) <= RowOf(first, num, parts, k + 1) <= first + num
    ensures PartThere(col, first, num, parts, k) && NodesAt(col, 0, first, RowOf(first, num, parts, k)).Some?
    ensures NodesAt(col, 0, first, RowOf(first, num, parts, k + 1)).Some?
  {
    hide NodesAt, RowOf;
    RowsEnds(first, num, parts);
    RowsUpTo(first, num, parts, 0, k);
    RowsUp(first, num, parts, k);
    RowsUpTo(first, num, parts, k + 1, parts);
    NodesSplit(col, 0, first, RowOf(first, num, parts, k + 1), first + num);
    NodesSplit(col, 0, first, RowOf(first, num, parts, k), RowOf(first, num, parts, k + 1));
  }

  /** The levels part k writes, numbered by the flags of all the rows. */
  ghost function PartLevels(col: Column, first: nat, num: nat, parts: nat, k: nat): seq<Level>
    requires k < parts && NodesAt(col, 0, first, first + num).Some?
  {
    PartsThere(col, first, num, parts, k);
    var rep, f := ListsFrom(col, 0), FlagsOf(col, first, first + num);
    LevelsIn(col, f, 0, RowOf(first, num, parts, k), RowOf(first, num, parts, k + 1), rep, rep)
  }

  ghost function PartMarks(col: Column, first: nat, num: nat, parts: nat, k: nat): seq<bool>
    requires parts > 0
  {
    MarksIn(col, 0, RowOf(first, num, parts, k), RowOf(first, num, parts, k + 1))
  }

  ghost function PartSlots(col: Column, first: nat, num: nat, parts: nat, k: nat): seq<nat>
    requires parts > 0
  {
    SlotsIn(col, 0, RowOf(first, num, parts, k), RowOf(first, num, parts, k + 1))
  }

  /** What the parts write to each vector. */
  ghost function AllReps(col: Column, first: nat, num: nat, parts: nat): seq<seq<nat>>
    requires NodesAt(col, 0, first, first + num).Some?
  {
    seq(parts, k requires 0 <= k < parts => Reps(PartLevels(col, first, num, parts, k)))
  }

  ghost function AllDefs(col: Column, first: nat, num: nat, parts: nat): seq<seq<nat>>
    requires NodesAt(col, 0, first, first + num).Some?
  {
    seq(parts, k requires 0 <= k < parts => Defs(PartLevels(col, first, num, parts, k)))
  }

  ghost function AllMarks(col: Column, first: nat, num: nat, parts: nat): seq<seq<bool>> {
    seq(parts, k requires 0 <= k < parts => PartMarks(col, first, num, parts, k))
  }

  ghost function AllSlots(col: Column, first: nat, num: nat, parts: nat): seq<seq<nat>> {
    seq(parts, k requires 0 <= k < parts => PartSlots(col, first, num, parts, k))
  }

  /** The first k parts write what one pass writes for their rows. */
  ghost predicate Together(col: Column, first: nat, num: nat, parts: nat, k: nat)
    requires parts > 0 && k <= parts && NodesAt(col, 0, first, first + num).Some?
  {
    var row, rep, f := RowOf(first, num, parts, k), ListsFrom(col, 0), FlagsOf(col, first, first + num);
    && NodesAt(col, 0, first, row).Some?
    && Concat(AllReps(col, first, num, parts)[..k]) == Reps(LevelsIn(col, f, 0, first, row, rep, rep))
    && Concat(AllDefs(col, first, num, parts)[..k]) == Defs(LevelsIn(col, f, 0, first, row, rep, rep))
    && Concat(AllMarks(col, first, num, parts)[..k]) == MarksIn(col, 0, first, row)
    && Concat(AllSlots(col, first, num, parts)[..k]) == SlotsIn(col, 0, first, row)
  }

  lemma RepsPlus(a: seq<Level>, b: seq<Level>)
    ensures Reps(a + b) == Reps(a) + Reps(b) && Defs(a + b) == Defs(a) + Defs(b)
  {
  }

  lemma ConcatPush<X>(parts: seq<seq<X>>, k: nat)
    requires k < |parts|
    ensures Concat(parts[..k + 1]) == Concat(parts[..k]) + parts[k]
  {
    assert parts[..k + 1][..k] == parts[..k];
  }

  lemma {:induction false} PartsTogether(col: Column, first: nat, num: nat, parts: nat, k: nat)
    requires parts > 0 && k <= parts && NodesAt(col, 0, first, first + num).Some?
    ensures Together(col, first, num, parts, k)
    decreases k
  {
    hide NodesAt, RowOf, LevelsIn, MarksIn, SlotsIn, FlagsOf, Concat, Reps, Defs, ListsFrom;
    if k == 0 {
      RowsEnds(first, num, parts);
      NoneTogether(col, first, num, parts);
    } else {
      var i := k - 1;
      PartsTogether(col, first, num, parts, i);
      PartsThere(col, first, num, parts, i);
      var a, b, rep, f := RowOf(first, num, parts, i), RowOf(first, num, parts, k), ListsFrom(col, 0),
                          FlagsOf(col, first, first + num);
      LevelsSplit(col, f, first, a, b, rep);
      SlotsSplit(col, 0, first, a, b);
      RepsPlus(LevelsIn(col, f, 0, first, a, rep, rep), LevelsIn(col, f, 0, a, b, rep, rep));
      ConcatPush(AllReps(col, first, num, parts), i);
      ConcatPush(AllDefs(col, first, num, parts), i);
      ConcatPush(AllMarks(col, first, num, parts), i);
      ConcatPush(AllSlots(col, first, num, parts), i);
    }
  }

  lemma NoneTogether(col: Column, first: nat, num: nat, parts: nat)
    requires parts > 0 && NodesAt(col, 0, first, first + num).Some? && RowOf(first, num, parts, 0) == first
    ensures Together(col, first, num, parts, 0)
  {
    hide RowOf, FlagsOf;
    NoRows(col, first);
    InNothing(col, FlagsOf(col, first, first + num), 0, first, ListsFrom(col, 0), ListsFrom(col, 0));
  }

  /** Every part starts where the parts before it end, in every vector. */
  lemma StartsPlaced(col: Column, first: nat, num: nat, parts: nat, levelAt: seq<nat>, itemAt: seq<nat>, k: nat)
    requires k < parts && NodesAt(col, 0, first, first + num).Some?
    requires Placed(col, first, num, parts, parts, levelAt, itemAt)
    ensures levelAt[k] == StartOf(AllReps(col, first, num, parts), k) == StartOf(AllDefs(col, first, num, parts), k)
    ensures levelAt[k] == StartOf(AllMarks(col, first, num, parts), k)
    ensures itemAt[k] == StartOf(AllSlots(col, first, num, parts), k)
  {
    hide NodesAt, RowOf, LevelsIn, MarksIn, SlotsIn, FlagsOf, Concat, CountIn, ListsFrom;
    PartsThere(col, first, num, parts, k);
    PartsTogether(col, first, num, parts, k);
    assert PlacedAt(col, first, num, parts, k, levelAt[k], itemAt[k]);
    SameCounts(col, FlagsOf(col, first, first + num), first, RowOf(first, num, parts, k), ListsFrom(col, 0));
  }

  lemma SameCounts(col: Column, f: Flags, a: nat, b: nat, rep: nat)
    requires FlagsFit(col, f) && ShapeOk(ShapeOf(col, f)) && a <= b && NodesAt(col, 0, a, b).Some?
    ensures |LevelsIn(col, f, 0, a, b, rep, rep)| == |MarksIn(col, 0, a, b)| == CountIn(col, 0, a, b)
  {
    hide CutOf, AnyShape;
    MarksAllCount(col, 0, a, b);
    CutsLength(ShapeOf(col, f), AnyShape(col), NodesAt(col, 0, a, b).value, 0, Depth(col), rep, rep, 0, 0);
  }

  /** The vectors an output holds. */
  datatype Vectors = Vectors(rep: seq<nat>, def: seq<nat>, isSlot: seq<bool>, items: seq<nat>)

  /** An order of the parts' steps for each vector, in which every part writes all it has. */
  datatype Schedules = Schedules(rep: seq<nat>, def: seq<nat>, isSlot: seq<nat>, items: seq<nat>)

  ghost predicate AllWhole(col: Column, first: nat, num: nat, parts: nat, o: Schedules)
    requires NodesAt(col, 0, first, first + num).Some?
  {
    && Whole(AllReps(col, first, num, parts), o.rep) && Whole(AllDefs(col, first, num, parts), o.def)
    && Whole(AllMarks(col, first, num, parts), o.isSlot) && Whole(AllSlots(col, first, num, parts), o.items)
  }

  /** Whoever writes when, the vector ends as w. */
  ghost predicate EndsAs<X>(v: seq<X>, at: seq<nat>, parts: seq<seq<X>>, schedule: seq<nat>, w: seq<X>) {
    Fits(v, at, parts) && Whole(parts, schedule) && Final(v, at, parts, schedule) == w
  }

  /** Pass 2: from vectors sized by the merged counts, whatever they hold and however the steps of the parts are
      interleaved, every vector ends as one pass over all the rows writes it. */
  lemma PartsSame(col: Column, first: nat, num: nat, parts: nat, levelAt: seq<nat>, itemAt: seq<nat>,
                  v: Vectors, o: Schedules)
    requires parts > 0 && NodesAt(col, 0, first, first + num).Some?
    requires Placed(col, first, num, parts, parts, levelAt, itemAt) && AllWhole(col, first, num, parts, o)
    requires var s, n := SerializedOf(col, first, first + num), CountIn(col, 0, first, first + num);
             (s.hasRep ==> |v.rep| == n) && (s.hasDef ==> |v.def| == n) && (s.hasRep || s.hasDef ==> |v.isSlot| == n)
    requires |v.items| == |SlotsIn(col, 0, first, first + num)|
    ensures var s := SerializedOf(col, first, first + num);
      && (s.hasRep ==> EndsAs(v.rep, levelAt, AllReps(col, first, num, parts), o.rep, s.rep))
      && (s.hasDef ==> EndsAs(v.def, levelAt, AllDefs(col, first, num, parts), o.def, s.def))
      && (s.hasRep || s.hasDef ==> EndsAs(v.isSlot, levelAt, AllMarks(col, first, num, parts), o.isSlot, s.isSlot))
      && EndsAs(v.items, itemAt, AllSlots(col, first, num, parts), o.items, s.items)
  {
    hide NodesAt, RowOf, LevelsIn, MarksIn, SlotsIn, FlagsOf, Concat, CountIn, ListsFrom, Whole, Final, Fits, Placed,
         Used, KindsOf, StartOf;
    RowsEnds(first, num, parts);
    PartsTogether(col, first, num, parts, parts);
    SameCounts(col, FlagsOf(col, first, first + num), first, first + num, ListsFrom(col, 0));
    assert AllReps(col, first, num, parts)[..parts] == AllReps(col, first, num, parts);
    assert AllDefs(col, first, num, parts)[..parts] == AllDefs(col, first, num, parts);
    assert AllMarks(col, first, num, parts)[..parts] == AllMarks(col, first, num, parts);
    assert AllSlots(col, first, num, parts)[..parts] == AllSlots(col, first, num, parts);
    PlacedLength(col, first, num, parts, levelAt, itemAt);
    forall k | 0 <= k < parts
      ensures levelAt[k] == StartOf(AllReps(col, first, num, parts), k) == StartOf(AllDefs(col, first, num, parts), k)
      ensures levelAt[k] == StartOf(AllMarks(col, first, num, parts), k)
      ensures itemAt[k] == StartOf(AllSlots(col, first, num, parts), k)
    {
      StartsPlaced(col, first, num, parts, levelAt, itemAt, k);
    }
    var s := SerializedOf(col, first, first + num);
    if s.hasRep { EndToEndSame(v.rep, AllReps(col, first, num, parts), levelAt, o.rep); }
    if s.hasDef { EndToEndSame(v.def, AllDefs(col, first, num, parts), levelAt, o.def); }
    if s.hasRep || s.hasDef { EndToEndSame(v.isSlot, AllMarks(col, first, num, parts), levelAt, o.isSlot); }
    EndToEndSame(v.items, AllSlots(col, first, num, parts), itemAt, o.items);
  }

  lemma PlacedLength(col: Column, first: nat, num: nat, parts: nat, levelAt: seq<nat>, itemAt: seq<nat>)
    requires parts > 0 && Placed(col, first, num, parts, parts, levelAt, itemAt)
    ensures |levelAt| == |itemAt| == parts
  {
  }
}
