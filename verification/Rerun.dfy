/** An operation run by `retry_on_conflict` (include/nanolance/dataset_commit.hpp), each run of which is one call
    of the commit protocol: what it left in the table when it reports success. */
module Rerun {
  import opened Commit
  import opened History
  import Retry

  /** How the error of a failed call begins; an I/O error begins otherwise than a conflict. */
  function Message(why: Failure): string {
    match why
    case Conflict => Retry.CONFLICT + ": version "
    case Refused(verdict) =>
      if verdict == Incompatible then "Incompatible transaction: This "
      else Retry.CONFLICT + ": Retryable commit conflict for version "
    case IoError => "failed to "
  }

  /** How the operation's k-th run ended: run k is the call cs[k]. */
  function RunOf(s: State, cs: seq<CallId>): nat -> Retry.Outcome {
    (k: nat) =>
      if k < |cs| && cs[k] in s.calls && s.calls[cs[k]].phase.Committed? then Retry.Success
      else if k < |cs| && cs[k] in s.calls && s.calls[cs[k]].phase.Failed?
        then Retry.Failure(Message(s.calls[cs[k]].phase.why))
      else Retry.Failure("")
  }

  /** How often the operation's change is in the latest table, over all its calls. */
  function TotalTimes(s: State, cs: seq<CallId>): nat {
    if cs == [] then 0 else TotalTimes(s, cs[..|cs| - 1]) + Times(s, cs[|cs| - 1])
  }

  ghost function TotalMisreads(states: seq<State>, steps: seq<Step>, cs: seq<CallId>, i: nat): nat
    requires i <= |steps| < |states|
  {
    if cs == [] then 0
    else TotalMisreads(states, steps, cs[..|cs| - 1], i) + Misreads(states, steps, cs[|cs| - 1], i)
  }

  ghost function TotalStalePuts(states: seq<State>, steps: seq<Step>, cs: seq<CallId>, i: nat): nat
    requires i <= |steps| < |states|
  {
    if cs == [] then 0
    else TotalStalePuts(states, steps, cs[..|cs| - 1], i) + StalePuts(states, steps, cs[|cs| - 1], i)
  }

  /** Only a failure by a conflict is run again, and no reply was lost for good then. */
  lemma ConflictNotLost(cfg: Config, states: seq<State>, steps: seq<Step>, i: nat, cs: seq<CallId>, k: nat)
    requires IsRun(cfg, states, steps) && i < |states| && k < |cs|
    requires Retry.IsConflict(RunOf(states[i], cs)(k))
    ensures cs[k] in states[i].calls && states[i].calls[cs[k]].phase.Failed?
    ensures Times(states[i], cs[k]) + StalePuts(states, steps, cs[k], i) == Misreads(states, steps, cs[k], i)
  {
    hide Enabled, Next, Init, Inv, Times, StalePuts, Misreads, LostReplies;
    var s := states[i];
    NotAConflict();
    FailedNever(cfg, states, steps, i, cs[k]);
    RecordIsSteps(cfg, states, steps, i, cs[k]);
    RunInv(cfg, states, steps, i);
    if s.calls[cs[k]].lost { LostIsIo(cfg, s, cs[k]); }
  }

  lemma NotAConflict()
    ensures !Retry.IsConflict(Retry.Failure(Message(IoError))) && !Retry.IsConflict(Retry.Failure(""))
  {
    assert Message(IoError)[0] == 'f' && Retry.CONFLICT[0] == 'c';
  }

  lemma LostIsIo(cfg: Config, s: State, c: CallId)
    requires Inv(cfg, s) && c in s.calls && s.calls[c].lost
    ensures s.calls[c].phase == Failed(IoError)
  {
    assert CallOk(cfg, s, c);
  }

  lemma {:induction false} ConflictTotals(cfg: Config, states: seq<State>, steps: seq<Step>, i: nat, cs: seq<CallId>,
                                          n: nat)
    requires IsRun(cfg, states, steps) && i < |states| && n <= |cs|
    requires forall k :: 0 <= k < n ==> Retry.IsConflict(RunOf(states[i], cs)(k))
    ensures TotalTimes(states[i], cs[..n]) + TotalStalePuts(states, steps, cs[..n], i)
            == TotalMisreads(states, steps, cs[..n], i)
    decreases n
  {
    hide Enabled, Next, Init, Retry.IsConflict, Times, StalePuts, Misreads, RunOf;
    if n > 0 {
      assert cs[..n][..n - 1] == cs[..n - 1];
      ConflictTotals(cfg, states, steps, i, cs, n - 1);
      ConflictNotLost(cfg, states, steps, i, cs, n - 1);
    }
  }

  /** An operation that reports success has its change in the latest table once, and once more for every
      manifest of its own that one of its calls misread, less the stale puts of its calls. So, with no stale
      put, it is there exactly once, over all its calls, if and only if none was misread; on a local path
      always. */
  lemma RerunOnce(cfg: Config, states: seq<State>, steps: seq<Step>, i: nat, cs: seq<CallId>)
    requires IsRun(cfg, states, steps) && i < |states| && Retry.EndsAfter(RunOf(states[i], cs), true, |cs|)
    ensures TotalTimes(states[i], cs) + TotalStalePuts(states, steps, cs, i)
            == 1 + TotalMisreads(states, steps, cs, i)
    ensures TotalStalePuts(states, steps, cs, i) == 0 ==>
              (TotalTimes(states[i], cs) == 1 <==> TotalMisreads(states, steps, cs, i) == 0)
    ensures !cfg.objectStore && TotalStalePuts(states, steps, cs, i) == 0 ==> TotalTimes(states[i], cs) == 1
  {
    hide Enabled, Next, Init, Retry.IsConflict, Times, StalePuts, Misreads;
    var n := |cs| - 1;
    ConflictTotals(cfg, states, steps, i, cs, n);
    CommittedOnce(cfg, states, steps, i, cs[n]);
    if !cfg.objectStore { LocalMisreadsNone(cfg, states, steps, i, cs); }
  }

  lemma {:induction false} LocalMisreadsNone(cfg: Config, states: seq<State>, steps: seq<Step>, i: nat, cs: seq<CallId>)
    requires IsRun(cfg, states, steps) && i < |states| && !cfg.objectStore
    ensures TotalMisreads(states, steps, cs, i) == 0
    decreases |cs|
  {
    hide Enabled, Next, Init, Misreads, Inv;
    if cs != [] {
      var c := cs[|cs| - 1];
      LocalMisreadsNone(cfg, states, steps, i, cs[..|cs| - 1]);
      RecordIsSteps(cfg, states, steps, i, c);
      RunInv(cfg, states, steps, i);
      LocalRecognises(cfg, states[i], c);
    }
  }

  lemma LocalRecognises(cfg: Config, s: State, c: CallId)
    requires Inv(cfg, s) && !cfg.objectStore
    ensures c in s.calls ==> s.calls[c].unrecognised == 0
  {
    assert c in s.calls ==> CallOk(cfg, s, c);
  }

  /** Call 7's put creates version 2 and its reply is lost; its manifest cannot be read back. */
  lemma MisreadsOwn(cfg: Config) returns (states: seq<State>, steps: seq<Step>, s: State)
    requires cfg.objectStore
    ensures Reaches(cfg, states, steps, s) && s.strays == {} && s.gone == {Txn(7, 1)}
    ensures s.calls == map[7 := Call(1, Rebasing, 1, 1, false)]
    ensures s.store == Fresh().store[2 := Manifest(7, 1, [7])] && s.log == [Fresh().store[1], s.store[2]]
  {
    hide Reaches;
    FreshReached(cfg);
    var begin, put, back := Begin(7, 1), Put(7, true, Taken, false), ReadBack(7, false, true);
    Extended(cfg, [Fresh()], [], Fresh(), begin);
    var s1 := Next(cfg, Fresh(), begin);
    Extended(cfg, [Fresh()] + [s1], [] + [begin], s1, put);
    var s2 := Next(cfg, s1, put);
    Extended(cfg, [Fresh()] + [s1] + [s2], [] + [begin] + [put], s2, back);
    s := Next(cfg, s2, back);
    assert [] + [7] == [7];
    states, steps := [Fresh()] + [s1] + [s2] + [s], [] + [begin] + [put] + [back];
  }

  /** An operation applied twice over two calls: call 7 misreads its own manifest and its transaction file is dropped;
      so the rebase over its own version is refused as retryable, and the rerun, call 8, is made from the latest
      version, which holds the change already. */
  lemma DroppedAppliesTwice() returns (cfg: Config, states: seq<State>, steps: seq<Step>)
    ensures IsRun(cfg, states, steps) && Retry.EndsAfter(RunOf(states[|steps|], [7, 8]), true, 2)
    ensures Table(states[|steps|]) == [7, 8] && NoStalePut(states, steps, |steps|)
  {
    hide Reaches, NoStalePut, IsRun, RunOf, Retry.EndsAfter;
    cfg := Config(true, 200, (a, b) => Compatible);
    var states3, steps3, s3 := MisreadsOwn(cfg);
    assert Classify(cfg, s3.store, s3.gone, 7, 1, 2) == NotApplied(Refused(Retryable));
    Extended(cfg, states3, steps3, s3, Rebase(7, 2));
    var s4 := Next(cfg, s3, Rebase(7, 2));
    var s: State;
    states, steps, s := PublishesNext(cfg, states3 + [s4], steps3 + [Rebase(7, 2)], s4, 8);
    ReachedLast(cfg, states, steps, s);
    NoStrays(cfg, states, steps, |steps|);
    RanTwice(s);
  }

  lemma RanTwice(s: State)
    requires 7 in s.calls && s.calls[7].phase == Failed(Refused(Retryable))
    requires 8 in s.calls && s.calls[8].phase.Committed?
    ensures Retry.EndsAfter(RunOf(s, [7, 8]), true, 2)
  {
    var run := RunOf(s, [7, 8]);
    assert run(0) == Retry.Failure(Message(Refused(Retryable)));
    assert Retry.CONFLICT <= Message(Refused(Retryable));
  }
}
