/** Binary searches over ascending lists and positions in consecutive runs, as the fragment-reuse remap and the
    browser's takes use them. */
module Search {
  import opened Order

  /** The halving of `std::lower_bound` over the `len` elements from `first` on, whatever their order. */
  function Halving(s: seq<nat>, x: nat, first: nat, len: nat): (r: nat)
    requires first + len <= |s|
    ensures first <= r <= first + len
    decreases len
  {
    if len == 0 then first
    else
      var half := len / 2;
      if s[first + half] < x then Halving(s, x, first + half + 1, len - half - 1) else Halving(s, x, first, half)
  }

  /** `std::lower_bound`: in an ascending list, the first position whose element is not below x. */
  function LowerBound(s: seq<nat>, x: nat): (r: nat)
    ensures r <= |s|
  {
    Halving(s, x, 0, |s|)
  }

  lemma {:induction false} HalvingSplits(s: seq<nat>, x: nat, first: nat, len: nat)
    requires Ascending(s) && first + len <= |s|
    requires (forall i :: 0 <= i < first ==> s[i] < x) && (forall i :: first + len <= i < |s| ==> s[i] >= x)
    ensures forall i :: 0 <= i < Halving(s, x, first, len) ==> s[i] < x
    ensures forall i :: Halving(s, x, first, len) <= i < |s| ==> s[i] >= x
    decreases len
  {
    if len > 0 {
      var half := len / 2;
      if s[first + half] < x {
        HalvingSplits(s, x, first + half + 1, len - half - 1);
      } else {
        HalvingSplits(s, x, first, half);
      }
    }
  }

  /** `std::upper_bound`: the first position whose element is above x. */
  function UpperBound(s: seq<nat>, x: nat): (r: nat)
    ensures r <= |s| && (forall i :: 0 <= i < r ==> s[i] <= x) && (r < |s| ==> s[r] > x)
  {
    if s == [] || s[0] > x then 0
    else
      var t := UpperBound(s[1..], x);
      assert forall i :: 1 <= i < 1 + t ==> s[i] == s[1..][i - 1];
      1 + t
  }

  /** In an ascending list the lower bound of a member is its position. */
  lemma LowerBoundFinds(s: seq<nat>, x: nat)
    requires Ascending(s)
    ensures x in s <==> LowerBound(s, x) < |s| && s[LowerBound(s, x)] == x
    ensures forall i :: 0 <= i < |s| && s[i] == x ==> LowerBound(s, x) == i
  {
    HalvingSplits(s, x, 0, |s|);
  }

  /** Two places the halving finds are in order. */
  lemma {:induction false} HalvingOrders(s: seq<nat>, first: nat, len: nat, i: nat, j: nat)
    requires first + len <= |s| && i < j < |s|
    requires Halving(s, s[i], first, len) == i && Halving(s, s[j], first, len) == j
    ensures s[i] < s[j]
    decreases len
  {
    if len > 0 {
      var half := len / 2;
      if first + half < i {
        HalvingOrders(s, first + half + 1, len - half - 1, i, j);
      } else if j <= first + half {
        HalvingOrders(s, first, half, i, j);
      }
    }
  }

  /** The search finds every element where it stands if and only if the list is ascending. */
  lemma LowerBoundFindsAll(s: seq<nat>)
    ensures Ascending(s) <==> forall p :: 0 <= p < |s| ==> LowerBound(s, s[p]) == p
  {
    if Ascending(s) {
      forall p | 0 <= p < |s| ensures LowerBound(s, s[p]) == p { LowerBoundFinds(s, s[p]); }
    }
    if forall p :: 0 <= p < |s| ==> LowerBound(s, s[p]) == p {
      forall i, j | 0 <= i < j < |s| ensures s[i] < s[j] {
        assert LowerBound(s, s[i]) == i && LowerBound(s, s[j]) == j;
        HalvingOrders(s, 0, |s|, i, j);
      }
    }
  }

  // ---- consecutive runs ----------------------------------------------------------------------------

  /** How much the runs of these lengths hold. */
  function Sum(lens: seq<nat>): nat {
    if lens == [] then 0 else Sum(lens[..|lens| - 1]) + lens[|lens| - 1]
  }

  /** Where run i starts. */
  function Start(lens: seq<nat>, i: nat): nat
    requires i <= |lens|
  {
    Sum(lens[..i])
  }

  lemma StartNext(lens: seq<nat>, i: nat)
    requires i < |lens|
    ensures Start(lens, i + 1) == Start(lens, i) + lens[i]
  {
    assert lens[..i + 1][..i] == lens[..i];
  }

  lemma {:induction false} StartMonotone(lens: seq<nat>, i: nat, j: nat)
    requires i <= j <= |lens|
    ensures Start(lens, i) <= Start(lens, j)
    decreases j
  {
    if i < j {
      StartNext(lens, j - 1);
      StartMonotone(lens, i, j - 1);
    }
  }

  /** Position k lies in run i. */
  ghost predicate InRun(lens: seq<nat>, i: nat, k: nat) {
    i < |lens| && Start(lens, i) <= k < Start(lens, i) + lens[i]
  }

  lemma RunUnique(lens: seq<nat>, i: nat, j: nat, k: nat)
    requires InRun(lens, i, k) && InRun(lens, j, k)
    ensures i == j
  {
    StartNext(lens, i);
    StartNext(lens, j);
    if i < j { StartMonotone(lens, i + 1, j); }
    if j < i { StartMonotone(lens, j + 1, i); }
  }

  /** Every position below the total lies in a run. */
  lemma {:induction false} RunExists(lens: seq<nat>, k: nat) returns (i: nat)
    requires k < Sum(lens)
    ensures InRun(lens, i, k)
    decreases |lens|
  {
    var n := |lens| - 1;
    if k < Sum(lens[..n]) {
      i := RunExists(lens[..n], k);
      assert lens[..n][..i] == lens[..i];
    } else {
      i := n;
    }
  }

  lemma RunBelowTotal(lens: seq<nat>, i: nat, k: nat)
    requires InRun(lens, i, k)
    ensures k < Sum(lens)
  {
    StartNext(lens, i);
    StartMonotone(lens, i + 1, |lens|);
    assert lens[..|lens|] == lens;
  }

  /** `upper_bound(starts, k) - 1` is the run of k, whether or not the list of starts ends with the total, and
      however many runs are empty. */
  lemma UpperBoundFindsRun(lens: seq<nat>, starts: seq<nat>, k: nat)
    requires k < Sum(lens) && |lens| <= |starts| <= |lens| + 1
    requires forall i :: 0 <= i < |starts| ==> starts[i] == Start(lens, i)
    ensures UpperBound(starts, k) >= 1 && InRun(lens, UpperBound(starts, k) - 1, k)
  {
    var i := RunExists(lens, k);
    var r := UpperBound(starts, k);
    StartNext(lens, i);
    assert starts[0] == Start(lens, 0) == 0;
    if r <= i { StartMonotone(lens, r, i); }
  }
}
