/** Class Take of wasm/weblance_glue.cpp: rows asked for in any order, duplicates included, read once each in
    sorted order and handed back in the order asked. */
module Takes {
  import opened Options
  import opened Order
  import opened Search

  /** The rows of consecutive batches. */
  function Rows<T>(batches: seq<seq<T>>): seq<T> {
    if batches == [] then [] else Rows(batches[..|batches| - 1]) + batches[|batches| - 1]
  }

  function Lens<T>(batches: seq<seq<T>>): (l: seq<nat>)
    ensures |l| == |batches| && forall i :: 0 <= i < |l| ==> l[i] == |batches[i]|
  {
    seq(|batches|, i requires 0 <= i < |batches| => |batches[i]|)
  }

  lemma {:induction false} RowsTotal<T>(batches: seq<seq<T>>)
    ensures |Rows(batches)| == Sum(Lens(batches))
    decreases |batches|
  {
    if batches != [] {
      var n := |batches| - 1;
      RowsTotal(batches[..n]);
      assert Lens(batches)[..n] == Lens(batches[..n]);
    }
  }

  /** Position k of the rows is at its offset in the batch whose run holds k. */
  lemma {:induction false} RowInBatch<T>(batches: seq<seq<T>>, b: nat, k: nat)
    requires InRun(Lens(batches), b, k)
    ensures k < |Rows(batches)| && Rows(batches)[k] == batches[b][k - Start(Lens(batches), b)]
    decreases |batches|
  {
    var n := |batches| - 1;
    RowsTotal(batches[..n]);
    assert Lens(batches)[..n] == Lens(batches[..n]);
    if b < n {
      assert Lens(batches)[..b] == Lens(batches[..n])[..b];
      RowInBatch(batches[..n], b, k);
    }
  }

  /** `lance_dataset_take`: asked for ascending row numbers, it fails, or returns batches; as many rows as were
      asked for are those rows in that order. */
  ghost predicate TakesRows<T(!new)>(take: seq<nat> -> Option<seq<seq<T>>>, row: nat -> T) {
    forall s: seq<nat> :: Ascending(s) && take(s).Some? && |Rows(take(s).value)| == |s| ==>
      forall k :: 0 <= k < |s| ==> Rows(take(s).value)[k] == row(s[k])
  }

  class Take<T(!new)> {
    var batches: seq<seq<T>>
    var starts: seq<nat>
    var sorted: seq<nat>

    /** A take that `Run` accepted: the batches hold the sorted rows, and the starts say where each begins. */
    ghost predicate Ready(row: nat -> T)
      reads this
    {
      && Ascending(sorted)
      && |starts| == |batches| + 1
      && (forall i :: 0 <= i < |starts| ==> starts[i] == Start(Lens(batches), i))
      && |Rows(batches)| == |sorted|
      && forall k :: 0 <= k < |sorted| ==> Rows(batches)[k] == row(sorted[k])
    }

    constructor ()
      ensures batches == [] && starts == [] && sorted == []
    {
      batches, starts, sorted := [], [], [];
    }

    method Run(rows: seq<nat>, take: seq<nat> -> Option<seq<seq<T>>>, ghost row: nat -> T) returns (ok: bool)
      requires TakesRows(take, row) && starts == []
      modifies this
      ensures sorted == SortedSet(Members(rows))
      ensures ok <==> take(sorted).Some? && |Rows(take(sorted).value)| == |sorted|
      ensures ok ==> Ready(row)
    {
      hide Rows, Lens, Start, SortedSet, Ascending;
      sorted := SortedSet(Members(rows));
      var got := take(sorted);
      if got.None? {
        return false;
      }
      batches := got.value;
      var total := FillStarts();
      ok := total == |sorted|;
    }

    /** The first sorted position of each batch, then the total. */
    method FillStarts() returns (total: nat)
      requires starts == []
      modifies this`starts
      ensures |starts| == |batches| + 1 && total == |Rows(batches)|
      ensures forall i :: 0 <= i < |starts| ==> starts[i] == Start(Lens(batches), i)
    {
      hide Rows;
      total := 0;
      ghost var lens := Lens(batches);
      for i := 0 to |batches|
        invariant total == Start(lens, i) && |starts| == i
        invariant forall j :: 0 <= j < i ==> starts[j] == Start(lens, j)
      {
        starts := starts + [total];
        StartNext(lens, i);
        total := total + |batches[i]|;
      }
      starts := starts + [total];
      RowsTotal(batches);
      assert lens[..|batches|] == lens;
    }

    /** Batch and offset of a sorted position. */
    method Locate(k: nat, ghost row: nat -> T) returns (batch: nat, offset: nat)
      requires Ready(row) && k < |sorted|
      ensures batch < |batches| && offset < |batches[batch]| && batches[batch][offset] == row(sorted[k])
    {
      hide Rows, Start, UpperBound;
      RowsTotal(batches);
      UpperBoundFindsRun(Lens(batches), starts, k);
      var it := UpperBound(starts, k) - 1;
      RowInBatch(batches, it, k);
      batch, offset := it, k - starts[it];
    }

    /** `locate(sorted_position(r))`: any requested row is found, at an offset inside its batch. */
    method Find(r: nat, ghost row: nat -> T) returns (batch: nat, offset: nat)
      requires Ready(row) && r in Members(sorted)
      ensures batch < |batches| && offset < |batches[batch]| && batches[batch][offset] == row(r)
    {
      hide Rows, Start, LowerBound;
      InMembers(sorted, r);
      LowerBoundFinds(sorted, r);
      batch, offset := Locate(LowerBound(sorted, r), row);
    }
  }

  /** The loop of `wl_take_json`: what comes back is what plain lookup of each row gives, in the order asked. */
  method TakeRows<T(!new)>(rows: seq<nat>, take: seq<nat> -> Option<seq<seq<T>>>, ghost row: nat -> T)
    returns (out: Option<seq<T>>)
    requires TakesRows(take, row)
    ensures out.Some? ==> |out.value| == |rows| && forall i :: 0 <= i < |rows| ==> out.value[i] == row(rows[i])
    ensures var s := SortedSet(Members(rows));
            out.Some? <==> take(s).Some? && |Rows(take(s).value)| == |s|
  {
    hide Rows, Start, SortedSet, Ascending, Members, TakesRows;
    var t := new Take<T>();
    var ok := t.Run(rows, take, row);
    if !ok {
      return None;
    }
    var got: seq<T> := [];
    for i := 0 to |rows|
      invariant t.Ready(row) && Members(t.sorted) == Members(rows)
      invariant |got| == i && forall j :: 0 <= j < i ==> got[j] == row(rows[j])
    {
      InMembers(rows, rows[i]);
      var batch, offset := t.Find(rows[i], row);
      got := got + [t.batches[batch][offset]];
    }
    out := Some(got);
  }
}
