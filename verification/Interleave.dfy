/** Several writers on one vector, each filling its own range from the front, in any order of their steps: the
    second pass of `serialize` in src/encoding/repdef.cpp with threads. */
module Interleave {

  /** Writer k goes on at `at[k]` with what it has left. */
  ghost predicate Fits<X>(v: seq<X>, at: seq<nat>, left: seq<seq<X>>) {
    |at| == |left| && forall k :: 0 <= k < |at| ==> at[k] + |left[k]| <= |v|
  }

  /** No range runs into a later one. */
  ghost predicate Ordered<X>(at: seq<nat>, left: seq<seq<X>>)
    requires |at| == |left|
  {
    forall k, l :: 0 <= k < l < |at| ==> at[k] + |left[k]| <= at[l]
  }

  /** A schedule names the writer of every step; it is whole when each has written all it had. */
  ghost predicate Whole<X>(left: seq<seq<X>>, schedule: seq<nat>)
    decreases |schedule|
  {
    if schedule == [] then forall k :: 0 <= k < |left| ==> left[k] == []
    else
      var k := schedule[0];
      k < |left| && left[k] != [] && Whole(left[k := left[k][1..]], schedule[1..])
  }

  ghost function Final<X>(v: seq<X>, at: seq<nat>, left: seq<seq<X>>, schedule: seq<nat>): seq<X>
    requires Fits(v, at, left) && Whole(left, schedule)
    decreases |schedule|
  {
    if schedule == [] then v
    else
      var k := schedule[0];
      Final(v[at[k] := left[k][0]], at[k := at[k] + 1], left[k := left[k][1..]], schedule[1..])
  }

  /** w is v with everything left written at its place. */
  ghost predicate Predicts<X>(v: seq<X>, at: seq<nat>, left: seq<seq<X>>, w: seq<X>)
    requires Fits(v, at, left)
  {
    && |w| == |v|
    && (forall k, i :: 0 <= k < |at| && 0 <= i < |left[k]| ==> w[at[k] + i] == left[k][i])
    && (forall j :: 0 <= j < |v| && Untouched(at, left, j) ==> w[j] == v[j])
  }

  ghost predicate Untouched<X>(at: seq<nat>, left: seq<seq<X>>, j: nat)
    requires |at| == |left|
  {
    forall k :: 0 <= k < |at| ==> j < at[k] || at[k] + |left[k]| <= j
  }

  /** One step of any writer leaves the prediction as it is. */
  lemma StepKeeps<X>(v: seq<X>, at: seq<nat>, left: seq<seq<X>>, w: seq<X>, k: nat)
    requires Fits(v, at, left) && Ordered(at, left) && Predicts(v, at, left, w) && k < |at| && left[k] != []
    ensures var v', at', left' := v[at[k] := left[k][0]], at[k := at[k] + 1], left[k := left[k][1..]];
            Fits(v', at', left') && Ordered(at', left') && Predicts(v', at', left', w)
  {
    var v', at', left' := v[at[k] := left[k][0]], at[k := at[k] + 1], left[k := left[k][1..]];
    assert w[at[k] + 0] == left[k][0];
    forall l, i | 0 <= l < |at'| && 0 <= i < |left'[l]| ensures w[at'[l] + i] == left'[l][i] {
      if l == k { assert w[at[k] + (i + 1)] == left[k][i + 1]; }
    }
    forall j | 0 <= j < |v'| && Untouched(at', left', j) ensures w[j] == v'[j] {
      if j != at[k] {
        forall l | 0 <= l < |at| ensures j < at[l] || at[l] + |left[l]| <= j {
          assert j < at'[l] || at'[l] + |left'[l]| <= j;
        }
        assert Untouched(at, left, j);
      }
    }
  }

  /** Whatever the schedule, the vector ends as predicted. */
  lemma {:induction false} AnySchedule<X>(v: seq<X>, at: seq<nat>, left: seq<seq<X>>, w: seq<X>, schedule: seq<nat>)
    requires Fits(v, at, left) && Ordered(at, left) && Predicts(v, at, left, w) && Whole(left, schedule)
    ensures Final(v, at, left, schedule) == w
    decreases |schedule|
  {
    hide Ordered, Predicts, Fits;
    if schedule == [] {
      NothingLeft(v, at, left, w);
    } else {
      var k := schedule[0];
      SameCount(v, at, left);
      StepKeeps(v, at, left, w, k);
      AnySchedule(v[at[k] := left[k][0]], at[k := at[k] + 1], left[k := left[k][1..]], w, schedule[1..]);
    }
  }

  lemma SameCount<X>(v: seq<X>, at: seq<nat>, left: seq<seq<X>>)
    requires Fits(v, at, left)
    ensures |at| == |left| && forall k :: 0 <= k < |at| ==> at[k] + |left[k]| <= |v|
  {
  }

  lemma NothingLeft<X>(v: seq<X>, at: seq<nat>, left: seq<seq<X>>, w: seq<X>)
    requires Fits(v, at, left) && Predicts(v, at, left, w) && forall k :: 0 <= k < |left| ==> left[k] == []
    ensures w == v
  {
    forall j | 0 <= j < |v| ensures w[j] == v[j] { assert Untouched(at, left, j); }
  }

  // ---- ranges end to end ---------------------------------------------------------------------------

  function Concat<X>(parts: seq<seq<X>>): seq<X> {
    if parts == [] then [] else Concat(parts[..|parts| - 1]) + parts[|parts| - 1]
  }

  /** Where part k of the concatenation starts. */
  function StartOf<X>(parts: seq<seq<X>>, k: nat): nat
    requires k <= |parts|
  {
    |Concat(parts[..k])|
  }

  lemma {:induction false} PartIn<X>(parts: seq<seq<X>>, k: nat)
    requires k < |parts|
    ensures StartOf(parts, k + 1) == StartOf(parts, k) + |parts[k]| <= |Concat(parts)|
    ensures Concat(parts)[StartOf(parts, k)..StartOf(parts, k + 1)] == parts[k]
    decreases |parts|
  {
    var n := |parts| - 1;
    assert parts[..k + 1][..k] == parts[..k];
    if k < n {
      PartIn(parts[..n], k);
      assert parts[..n][..k] == parts[..k] && parts[..n][..k + 1] == parts[..k + 1];
    } else {
      assert parts[..k + 1] == parts;
    }
  }

  lemma {:induction false} StartsAscend<X>(parts: seq<seq<X>>, k: nat, l: nat)
    requires k < l <= |parts|
    ensures StartOf(parts, k) + |parts[k]| <= StartOf(parts, l)
    decreases l
  {
    PartIn(parts, l - 1);
    if k < l - 1 { StartsAscend(parts, k, l - 1); }
  }

  /** Every place of the concatenation is in a part. */
  lemma {:induction false} PlaceInPart<X>(parts: seq<seq<X>>, j: nat) returns (k: nat)
    requires j < |Concat(parts)|
    ensures k < |parts| && StartOf(parts, k) <= j < StartOf(parts, k) + |parts[k]|
    decreases |parts|
  {
    var n := |parts| - 1;
    if j < |Concat(parts[..n])| {
      k := PlaceInPart(parts[..n], j);
      assert parts[..n][..k] == parts[..k];
    } else {
      k := n;
    }
  }

  /** Writers that start end to end fill a vector of the right size with the concatenation of what they write. */
  lemma EndToEndSame<X>(v: seq<X>, parts: seq<seq<X>>, at: seq<nat>, schedule: seq<nat>)
    requires |v| == |Concat(parts)| && |at| == |parts| && Whole(parts, schedule)
    requires forall k :: 0 <= k < |at| ==> at[k] == StartOf(parts, k)
    ensures Fits(v, at, parts) && Final(v, at, parts, schedule) == Concat(parts)
  {
    hide Whole, Concat, StartOf;
    forall k | 0 <= k < |at| ensures at[k] + |parts[k]| <= |v| { PartIn(parts, k); }
    forall k, l | 0 <= k < l < |at| ensures at[k] + |parts[k]| <= at[l] { StartsAscend(parts, k, l); }
    forall k, i | 0 <= k < |at| && 0 <= i < |parts[k]| ensures Concat(parts)[at[k] + i] == parts[k][i] {
      PartIn(parts, k);
      assert Concat(parts)[StartOf(parts, k)..StartOf(parts, k + 1)][i] == parts[k][i];
    }
    forall j | 0 <= j < |v| ensures !Untouched(at, parts, j) { var k := PlaceInPart(parts, j); }
    AnySchedule(v, at, parts, Concat(parts), schedule);
  }
}
