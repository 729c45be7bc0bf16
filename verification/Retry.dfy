/** The retry loops of include/nanolance/dataset_commit.hpp and the pauses of
    include/nanolance/commit_backoff.hpp. */
module Retry {
  import opened Options

  /** How one run of an operation ends: well, or with an error message. */
  datatype Outcome = Success | Failure(error: string)

  const CONFLICT := "commit conflict"
  const MAX_RUNS := 20

  /** `error.rfind("commit conflict", 0) == 0`. */
  predicate IsConflict(o: Outcome) {
    o.Failure? && CONFLICT <= o.error
  }

  function Pow2(n: nat): nat {
    if n == 0 then 1 else 2 * Pow2(n - 1)
  }

  function Min(a: int, b: int): int {
    if a < b then a else b
  }

  /** The longest pause, in milliseconds, before run `attempt + 1`: doubling from 1 to 32 on a local path
      (the 50 of the source is never reached), from 25 to 2000 on an object store. */
  function Ceiling(attempt: nat, objectStore: bool): (ms: nat)
    ensures 1 <= ms <= if objectStore then 2000 else 32
    ensures !objectStore && attempt >= 5 ==> ms == 32
    ensures objectStore && attempt >= 7 ==> ms == 2000
    ensures !objectStore && attempt < 5 ==> ms == Pow2(attempt)
    ensures objectStore && attempt < 7 ==> ms == 25 * Pow2(attempt)
  {
    var step := Min(attempt, 30);
    assert Pow2(5) == 32 && Pow2(6) == 64 && Pow2(7) == 128 by { Pow2Values(); }
    PowPositive(Min(step, 5));
    PowPositive(Min(step, 7));
    PowMonotone(Min(step, 5), 5);
    if objectStore then Min(2000, 25 * Pow2(Min(step, 7))) else Min(50, Pow2(Min(step, 5)))
  }

  lemma Pow2Values()
    ensures Pow2(5) == 32 && Pow2(6) == 64 && Pow2(7) == 128
  {
    assert Pow2(2) == 4 && Pow2(4) == 16 && Pow2(6) == 64;
  }

  lemma PowPositive(n: nat)
    ensures Pow2(n) >= 1
  {
  }

  lemma PowMonotone(a: nat, b: nat)
    requires a <= b
    ensures Pow2(a) <= Pow2(b)
    decreases b
  {
    if a < b { PowMonotone(a, b - 1); }
  }

  /** The longest the first `pauses` pauses can take together on a local path. */
  function TotalCeiling(pauses: nat): nat {
    if pauses == 0 then 0 else TotalCeiling(pauses - 1) + Ceiling(pauses - 1, false)
  }

  /** 1 + 2 + 4 + 8 + 16, then 32 each. */
  lemma {:induction false} TotalCeilingIs(pauses: nat)
    ensures pauses >= 5 ==> TotalCeiling(pauses) == 31 + 32 * (pauses - 5)
    ensures pauses < 5 ==> TotalCeiling(pauses) == Pow2(pauses) - 1
    decreases pauses
  {
    if pauses > 0 {
      TotalCeilingIs(pauses - 1);
      Pow2Values();
    }
  }

  /** How the loop over the runs ends: after the first run that succeeds or fails otherwise than by a
      conflict, and after the twentieth. */
  ghost predicate EndsAfter(attempt: nat -> Outcome, ok: bool, runs: nat) {
    && 1 <= runs <= 20 && (ok <==> attempt(runs - 1).Success?)
    && (forall k :: 0 <= k < runs - 1 ==> IsConflict(attempt(k)))
    && (!ok && runs < 20 ==> !IsConflict(attempt(runs - 1)))
  }

  /** `attempt(k)` is how run k ends; `retried` counts the reruns and `waited` sums the ceilings of the pauses
      before them. */
  method RetryOnConflict(attempt: nat -> Outcome) returns (ok: bool, runs: nat, retried: nat, waited: nat)
    ensures EndsAfter(attempt, ok, runs)
    ensures retried == runs - 1
    ensures waited == TotalCeiling(runs - 1) && waited <= 479
  {
    hide IsConflict, Ceiling;
    var tries := 0;
    retried, waited := 0, 0;
    while true
      invariant 0 <= tries < MAX_RUNS
      invariant forall k :: 0 <= k < tries ==> IsConflict(attempt(k))
      invariant retried == tries && waited == TotalCeiling(tries)
      decreases MAX_RUNS - tries
    {
      var outcome := attempt(tries);
      TotalCeilingIs(tries);
      if outcome.Success? {
        return true, tries + 1, retried, waited;
      }
      if tries + 1 >= MAX_RUNS || !IsConflict(outcome) {
        return false, tries + 1, retried, waited;
      }
      retried := retried + 1;
      waited := waited + Ceiling(tries, false);
      tries := tries + 1;
    }
  }

  /** `std::exchange(from, nullopt)` around every run: the first run is given the caller's version, every later
      one none, and so reads the latest. */
  method RetryFromReadVersion(readVersion: Option<nat>, attempt: (nat, Option<nat>) -> Outcome)
    returns (ok: bool, runs: nat, retried: nat, waited: nat)
    ensures 1 <= runs <= 20 && retried == runs - 1 && waited == TotalCeiling(runs - 1)
    ensures runs == 1 ==> (ok <==> attempt(0, readVersion).Success?)
    ensures runs > 1 ==> IsConflict(attempt(0, readVersion)) && (ok <==> attempt(runs - 1, None).Success?)
    ensures forall k :: 1 <= k < runs - 1 ==> IsConflict(attempt(k, None))
    ensures !ok && runs < 20 ==> !IsConflict(attempt(runs - 1, if runs == 1 then readVersion else None))
  {
    hide IsConflict, TotalCeiling;
    var given := (k: nat) => attempt(k, if k == 0 then readVersion else None);
    ok, runs, retried, waited := RetryOnConflict(given);
    assert forall k :: 1 <= k < runs ==> given(k) == attempt(k, None);
    assert given(0) == attempt(0, readVersion);
  }
}
