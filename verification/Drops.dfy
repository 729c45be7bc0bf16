/** The transaction file of a publish that does not end committed is dropped, and a version whose file is gone is
    refused by every rebase over it (src/table/manifest_writer.cpp, src/dataset/dataset.cpp): what that means for a
    call that took its own manifest for another's. */
module Drops {
  import opened Commit
  import opened History

  /** c's publish number n is version `at`. */
  ghost predicate OwnLogged(s: State, c: CallId, at: nat, n: nat) {
    1 < at <= |s.log| && s.log[at - 1].call == c && s.log[at - 1].txn == n
  }

  /** A call one of whose published versions lost its file publishes no more. */
  ghost predicate Stuck(s: State, c: CallId) {
    forall v :: 1 <= v < |s.log| && s.log[v].call == c && FileOf(s.log[v]) in s.gone ==>
      c in s.calls && (s.calls[c].phase.Rebasing? || s.calls[c].phase.Failed?)
  }

  /** The files gone are those of publishes that ended, not of one that may yet be recognised or was committed. */
  ghost predicate GoneOk(s: State, c: CallId) {
    forall n: nat :: Txn(c, n) in s.gone ==>
      && c in s.calls && n <= s.calls[c].puts
      && (n == s.calls[c].puts ==> !s.calls[c].phase.Checking? && !s.calls[c].phase.Committed?)
  }

  ghost predicate FilesOk(s: State, c: CallId) {
    && GoneOk(s, c) && Stuck(s, c)
    && (c in s.calls && s.calls[c].phase.Checking? && s.calls[c].phase.created ==>
          OwnLogged(s, c, s.calls[c].phase.at, s.calls[c].puts))
  }

  /** The steps of one call. */
  predicate IsOf(step: Step, c: CallId) {
    !step.Cleanup? && step.c == c
  }

  lemma OtherStep(cfg: Config, s: State, step: Step, c: CallId)
    requires Inv(cfg, s) && Enabled(cfg, s, step) && FilesOk(s, c) && !IsOf(step, c)
    ensures FilesOk(Next(cfg, s, step), c)
  {
    hide Inv, Classify;
    var s' := Next(cfg, s, step);
    forall n: nat | Txn(c, n) in s'.gone ensures Txn(c, n) in s.gone { }
    assert s'.log == s.log || (step.Put? && s'.log == s.log + [ToPut(s, step.c)]);
    forall v | 1 <= v < |s'.log| && s'.log[v].call == c && FileOf(s'.log[v]) in s'.gone
      ensures c in s'.calls && (s'.calls[c].phase.Rebasing? || s'.calls[c].phase.Failed?)
    {
      assert v < |s.log| && s.log[v] == s'.log[v];
    }
  }

  /** A rebase of a call that lost the file of one of its versions is refused. */
  lemma RebaseStuck(cfg: Config, s: State, c: CallId, latest: nat, v: nat)
    requires Inv(cfg, s) && Enabled(cfg, s, Rebase(c, latest)) && s.strays == {}
    requires 1 <= v < |s.log| && s.log[v].call == c && FileOf(s.log[v]) in s.gone
    ensures Next(cfg, s, Rebase(c, latest)).calls[c].phase.Failed?
  {
    hide CallOk, Accounted, Times, StraysOf, Chain, Over;
    LatestIsLast(cfg, s);
    assert VersionOk(cfg, s, v);
    var u := v + 1;
    if u in s.store { assert StoredOk(s, u); }
    assert Classify(cfg, s.store, s.gone, c, s.calls[c].readAt, latest) != AllCompatible;
  }

  lemma RebaseFiles(cfg: Config, s: State, c: CallId, latest: nat)
    requires Inv(cfg, s) && Enabled(cfg, s, Rebase(c, latest)) && s.strays == {} && FilesOk(s, c)
    ensures FilesOk(Next(cfg, s, Rebase(c, latest)), c)
  {
    hide Inv, Classify;
    forall v | 1 <= v < |s.log| && s.log[v].call == c && FileOf(s.log[v]) in s.gone
      ensures Next(cfg, s, Rebase(c, latest)).calls[c].phase.Failed?
    {
      RebaseStuck(cfg, s, c, latest, v);
    }
  }

  lemma LoggedTxn(cfg: Config, s: State, v: nat)
    requires Inv(cfg, s) && 1 <= v < |s.log|
    ensures TxnOk(s, s.log[v])
  {
  }

  lemma PutFiles(cfg: Config, s: State, step: Step)
    requires Inv(cfg, s) && Enabled(cfg, s, step) && step.Put? && s.strays == {} && FilesOk(s, step.c)
    requires Next(cfg, s, step).strays == {}
    ensures FilesOk(Next(cfg, s, step), step.c)
  {
    hide Inv, StalePut;
    StepHistory(cfg, s, step);
    var s', c := Next(cfg, s, step), step.c;
    var number := s.calls[c].puts + 1;
    forall v | 1 <= v < |s.log| && s.log[v].call == c ensures s.log[v].txn < number && FileOf(s.log[v]) !in s.gone {
      LoggedTxn(cfg, s, v);
    }
    forall v | 1 <= v < |s'.log| && s'.log[v].call == c && FileOf(s'.log[v]) in s'.gone
      ensures s'.calls[c].phase.Rebasing? || s'.calls[c].phase.Failed?
    {
      if v < |s.log| { assert s'.log[v] == s.log[v]; }
    }
  }

  lemma ReadBackFiles(cfg: Config, s: State, c: CallId, readable: bool, dropped: bool)
    requires Enabled(cfg, s, ReadBack(c, readable, dropped)) && FilesOk(s, c)
    ensures FilesOk(Next(cfg, s, ReadBack(c, readable, dropped)), c)
  {
  }

  lemma BeginFiles(cfg: Config, s: State, c: CallId, readAt: nat)
    requires Inv(cfg, s) && Enabled(cfg, s, Begin(c, readAt)) && FilesOk(s, c)
    ensures FilesOk(Next(cfg, s, Begin(c, readAt)), c)
  {
    hide Inv;
    forall v | 1 <= v < |s.log| ensures s.log[v].call != c { LoggedTxn(cfg, s, v); }
  }

  lemma StepFiles(cfg: Config, s: State, step: Step, c: CallId)
    requires Inv(cfg, s) && Enabled(cfg, s, step) && s.strays == {} && Next(cfg, s, step).strays == {} && FilesOk(s, c)
    ensures FilesOk(Next(cfg, s, step), c)
  {
    hide Inv, FilesOk;
    if !IsOf(step, c) {
      OtherStep(cfg, s, step, c);
    } else {
      match step
      case Begin(_, readAt) => BeginFiles(cfg, s, c, readAt);
      case Put(_, _, _, _) => PutFiles(cfg, s, step);
      case ReadBack(_, readable, dropped) => ReadBackFiles(cfg, s, c, readable, dropped);
      case Rebase(_, latest) => RebaseFiles(cfg, s, c, latest);
      case GiveUp(_, why) => GiveUpFiles(cfg, s, c, why);
    }
  }

  lemma GiveUpFiles(cfg: Config, s: State, c: CallId, why: Failure)
    requires Enabled(cfg, s, GiveUp(c, why)) && FilesOk(s, c)
    ensures FilesOk(Next(cfg, s, GiveUp(c, why)), c)
  {
  }

  lemma {:induction false} RunFiles(cfg: Config, states: seq<State>, steps: seq<Step>, i: nat, c: CallId)
    requires IsRun(cfg, states, steps) && i < |states| && NoStalePut(states, steps, i)
    ensures FilesOk(states[i], c)
    decreases i
  {
    hide Inv, Enabled, Next, StalePut;
    if i > 0 {
      hide FilesOk;
      RunFiles(cfg, states, steps, i - 1, c);
      RunInv(cfg, states, steps, i - 1);
      NoStrays(cfg, states, steps, i - 1);
      NoStrays(cfg, states, steps, i);
      assert states[i - 1 + 1] == Next(cfg, states[i - 1], steps[i - 1]);
      StepFiles(cfg, states[i - 1], steps[i - 1], c);
    }
  }

  /** A file that is gone does not come back. */
  lemma {:induction false} GoneGrows(cfg: Config, states: seq<State>, steps: seq<Step>, i: nat, j: nat)
    requires IsRun(cfg, states, steps) && i <= j < |states|
    ensures states[i].gone <= states[j].gone
    decreases j - i
  {
    hide Enabled, Next;
    if i < j {
      GoneGrows(cfg, states, steps, i, j - 1);
      assert states[j - 1 + 1] == Next(cfg, states[j - 1], steps[j - 1]);
      StepGone(cfg, states[j - 1], steps[j - 1]);
    }
  }

  lemma StepGone(cfg: Config, s: State, step: Step)
    requires Enabled(cfg, s, step)
    ensures s.gone <= Next(cfg, s, step).gone
  {
  }

  /** A misread manifest whose file was dropped, and one whose file could not be. */
  ghost predicate MisreadDropped(s: State, step: Step, c: CallId) {
    Misread(s, step, c) && step.dropped
  }

  ghost predicate MisreadKept(s: State, step: Step, c: CallId) {
    Misread(s, step, c) && !step.dropped
  }

  /** A call that misread its own manifest and then dropped its file is never committed. */
  lemma DroppedNeverCommits(cfg: Config, states: seq<State>, steps: seq<Step>, k: nat, i: nat, c: CallId)
    requires IsRun(cfg, states, steps) && k < i < |states| && NoStalePut(states, steps, i)
    requires MisreadDropped(states[k], steps[k], c)
    ensures c in states[i].calls && !states[i].calls[c].phase.Committed?
  {
    hide Inv, StalePut, NoStalePut;
    assert NoStalePut(states, steps, k) by { FewerSteps(states, steps, k, i); }
    RunFiles(cfg, states, steps, k, c);
    RunFiles(cfg, states, steps, i, c);
    var at, n := states[k].calls[c].phase.at, states[k].calls[c].puts;
    assert states[k + 1] == Next(cfg, states[k], steps[k]);
    assert Txn(c, n) in states[k + 1].gone && states[k + 1].log == states[k].log;
    TableGrows(cfg, states, steps, k + 1, i);
    GoneGrows(cfg, states, steps, k + 1, i);
    assert states[i].log[at - 1] == states[k].log[at - 1];
    assert FileOf(states[i].log[at - 1]) in states[i].gone;
  }

  lemma FewerSteps(states: seq<State>, steps: seq<Step>, k: nat, i: nat)
    requires k <= i <= |steps| < |states| && NoStalePut(states, steps, i)
    ensures NoStalePut(states, steps, k)
  {
  }

  ghost function KeptMisreads(states: seq<State>, steps: seq<Step>, c: CallId, i: nat): nat
    requires i <= |steps| < |states|
  {
    if i == 0 then 0 else KeptMisreads(states, steps, c, i - 1) + One(MisreadKept(states[i - 1], steps[i - 1], c))
  }

  lemma {:induction false} AllKept(states: seq<State>, steps: seq<Step>, c: CallId, i: nat)
    requires i <= |steps| < |states|
    requires forall k :: 0 <= k < i ==> !MisreadDropped(states[k], steps[k], c)
    ensures KeptMisreads(states, steps, c, i) == Misreads(states, steps, c, i)
    ensures KeptMisreads(states, steps, c, i) == 0 <==> forall k :: 0 <= k < i ==> !MisreadKept(states[k], steps[k], c)
    decreases i
  {
    if i > 0 {
      assert !MisreadDropped(states[i - 1], steps[i - 1], c);
      AllKept(states, steps, c, i - 1);
    }
  }

  /** Without a stale put a committed change is in the table once, and once more for each manifest of its own that
      the call misread and whose file it could not drop. So a committed call whose drops all succeeded is in the
      table exactly once. */
  lemma OnceUnlessKept(cfg: Config, states: seq<State>, steps: seq<Step>, i: nat, c: CallId)
    requires IsRun(cfg, states, steps) && i < |states| && NoStalePut(states, steps, i)
    requires c in states[i].calls && states[i].calls[c].phase.Committed?
    ensures Times(states[i], c) == 1 + KeptMisreads(states, steps, c, i)
    ensures Times(states[i], c) == 1 <==> forall k :: 0 <= k < i ==> !MisreadKept(states[k], steps[k], c)
  {
    hide Inv, StalePut, MisreadKept, MisreadDropped, Enabled, Next, Times, StraysOf;
    forall k | 0 <= k < i ensures !MisreadDropped(states[k], steps[k], c) {
      if MisreadDropped(states[k], steps[k], c) { DroppedNeverCommits(cfg, states, steps, k, i, c); }
    }
    AllKept(states, steps, c, i);
    CommittedOnce(cfg, states, steps, i, c);
    NoStrays(cfg, states, steps, i);
    StraysAreSteps(cfg, states, steps, i, c);
    assert StraysOf(states[i], c) == {} by { NoneOf(states[i], c); }
  }

  lemma NoneOf(s: State, c: CallId)
    requires s.strays == {}
    ensures StraysOf(s, c) == {}
  {
  }
}
