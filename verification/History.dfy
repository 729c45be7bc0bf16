/** What the commit protocol promises over whole runs: which versions make up the table, when a number or a
    change is lost to the cleanup of old versions, and how often a reported change is in the table. */
module History {
  import opened Commit

  // ---- the versions published make one line --------------------------------------------------------

  /** In every state the latest version holds the changes of the versions first published as 2, 3, ... in that
      order: none is lost, none reordered, and the numbering has no gap. */
  lemma {:induction false} TableIsSerial(cfg: Config, s: State, v: nat, k: nat)
    requires Inv(cfg, s) && 2 <= k <= v <= |s.log|
    ensures |s.log[v - 1].changes| == v - 1 && s.log[v - 1].changes[k - 2] == s.log[k - 1].call
    decreases v
  {
    hide CallOk, VersionOk, Accounted, StoreOk, Times, StraysOf;
    var log := s.log;
    assert log[v - 1].changes == log[v - 2].changes + [log[v - 1].call];
    if v > 2 { TableIsSerial(cfg, s, v - 1, if k < v then k else 2); }
  }

  /** The latest stored version is the last one published, whatever was removed and put back below it. */
  lemma LatestIsLast(cfg: Config, s: State)
    requires Inv(cfg, s)
    ensures IsLatest(s.store, |s.log|) && s.store[|s.log|].changes == Table(s)
  {
    hide CallOk, VersionOk, Accounted, Chain, Times, StraysOf;
    forall u | u in s.store ensures u <= |s.log| { assert StoredOk(s, u); }
  }

  /** A put that creates a version below another one. A writer can tell before it puts: the version it goes on
      top of is not the latest, and yet the next number is free. */
  ghost predicate StalePut(s: State, step: Step) {
    step.Put? && step.created && step.c in s.calls && s.calls[step.c].phase.Publishing?
    && exists u :: u in s.store && u > s.calls[step.c].phase.at
  }

  ghost predicate NoStalePut(states: seq<State>, steps: seq<Step>, i: nat)
    requires i <= |steps| < |states|
  {
    forall k :: 0 <= k < i ==> !StalePut(states[k], steps[k])
  }

  /** What one step does to the history. */
  lemma StepHistory(cfg: Config, s: State, step: Step)
    requires Inv(cfg, s) && Enabled(cfg, s, step)
    ensures var s' := Next(cfg, s, step);
            if step.Put? && step.created then
              step.c in s.calls && s.calls[step.c].phase.Publishing? &&
              var at, m := s.calls[step.c].phase.at, ToPut(s, step.c);
              && s'.store == s.store[at := m] && at > 1 && Stray(at, m) !in s.strays
              && (StalePut(s, step) <==> at <= |s.log|)
              && (if StalePut(s, step) then s'.log == s.log && s'.strays == s.strays + {Stray(at, m)}
                  else at == |s.log| + 1 && s'.log == s.log + [m] && s'.strays == s.strays)
            else !StalePut(s, step) && s'.log == s.log && s'.strays == s.strays
                 && forall v :: v in s'.store ==> v in s.store && s'.store[v] == s.store[v]
  {
    hide VersionOk, Accounted, Chain, Times, StraysOf, Over;
    if step.Put? && step.created {
      var c := step.c;
      assert CallOk(cfg, s, c);
      LatestIsLast(cfg, s);
      var at := s.calls[c].phase.at;
      assert at != |s.log|;
    }
  }

  /** The changes of the latest version only ever grow, at the end: a change in the latest table stays in it. */
  lemma {:induction false} TableGrows(cfg: Config, states: seq<State>, steps: seq<Step>, i: nat, j: nat)
    requires IsRun(cfg, states, steps) && i <= j < |states|
    ensures states[i].log <= states[j].log && states[i].strays <= states[j].strays
    ensures Table(states[i]) <= Table(states[j])
    decreases j - i
  {
    hide Inv, Enabled, Next, StalePut;
    if i < j {
      TableGrows(cfg, states, steps, i, j - 1);
      RunInv(cfg, states, steps, j - 1);
      assert states[j - 1 + 1] == Next(cfg, states[j - 1], steps[j - 1]);
      StepHistory(cfg, states[j - 1], steps[j - 1]);
      RunInv(cfg, states, steps, j);
      LastExtends(cfg, states[j - 1], states[j]);
    }
  }

  lemma LastExtends(cfg: Config, s: State, s': State)
    requires Inv(cfg, s) && Inv(cfg, s') && (s'.log == s.log || exists m :: s'.log == s.log + [m])
    ensures Table(s) <= Table(s')
  {
    hide CallOk, VersionOk, Accounted, StoreOk, Times, StraysOf;
    var n := |s'.log| - 1;
    if s'.log != s.log {
      assert s'.log[n - 1] == s.log[n - 1];
      assert s'.log[n].changes == s'.log[n - 1].changes + [s'.log[n].call];
    }
  }

  // ---- numbers published again ---------------------------------------------------------------------

  /** The numbers published so far are those the store held at some time. */
  ghost predicate WasStored(states: seq<State>, k: nat, v: nat)
    requires k < |states|
  {
    exists i :: 0 <= i <= k && v in states[i].store
  }

  lemma {:induction false} LoggedWasStored(cfg: Config, states: seq<State>, steps: seq<Step>, k: nat, v: nat)
    requires IsRun(cfg, states, steps) && k < |states|
    ensures WasStored(states, k, v) <==> 1 <= v <= |states[k].log|
    decreases k
  {
    hide Inv, Enabled, Next, StalePut;
    RunInv(cfg, states, steps, k);
    LatestIsLast(cfg, states[k]);
    if WasStored(states, k, v) {
      var i :| 0 <= i <= k && v in states[i].store;
      RunInv(cfg, states, steps, i);
      StoredIsLogged(cfg, states[i], v);
      TableGrows(cfg, states, steps, i, k);
    } else if k > 0 && v < |states[k].log| {
      LoggedWasStored(cfg, states, steps, k - 1, v);
      RunInv(cfg, states, steps, k - 1);
      assert states[k - 1 + 1] == Next(cfg, states[k - 1], steps[k - 1]);
      StepHistory(cfg, states[k - 1], steps[k - 1]);
    }
  }

  lemma StoredIsLogged(cfg: Config, s: State, v: nat)
    requires Inv(cfg, s) && v in s.store
    ensures StoredOk(s, v)
  {
  }

  /** A put is stale exactly when its number was published before. */
  lemma StaleIsRemoved(cfg: Config, states: seq<State>, steps: seq<Step>, k: nat)
    requires IsRun(cfg, states, steps) && k < |steps| && steps[k].Put? && steps[k].created
    ensures steps[k].c in states[k].calls && states[k].calls[steps[k].c].phase.Publishing?
    ensures var at := states[k].calls[steps[k].c].phase.at;
            && at > 1 && (StalePut(states[k], steps[k]) <==> WasStored(states, k, at))
            && (StalePut(states[k], steps[k]) <==> !IsLatest(states[k].store, at - 1))
  {
    hide Inv, StalePut;
    RunInv(cfg, states, steps, k);
    StepHistory(cfg, states[k], steps[k]);
    LatestIsLast(cfg, states[k]);
    LoggedWasStored(cfg, states, steps, k, states[k].calls[steps[k].c].phase.at);
  }

  lemma {:induction false} NoStrays(cfg: Config, states: seq<State>, steps: seq<Step>, i: nat)
    requires IsRun(cfg, states, steps) && i < |states|
    ensures states[i].strays == {} <==> NoStalePut(states, steps, i)
    decreases i
  {
    hide Inv, Enabled, Next, StalePut;
    if i > 0 {
      NoStrays(cfg, states, steps, i - 1);
      RunInv(cfg, states, steps, i - 1);
      assert states[i - 1 + 1] == Next(cfg, states[i - 1], steps[i - 1]);
      StepHistory(cfg, states[i - 1], steps[i - 1]);
    }
  }

  /** Whatever is stored under a number, at whatever two times, is the same manifest. */
  ghost predicate NeverReused(states: seq<State>) {
    forall i, j, v :: 0 <= i <= j < |states| && v in states[i].store && v in states[j].store ==>
      states[j].store[v] == states[i].store[v]
  }

  /** Every change reported committed is in the latest version. */
  ghost predicate CommittedKept(states: seq<State>) {
    forall i, c :: 0 <= i < |states| && c in states[i].calls && states[i].calls[c].phase.Committed? ==>
      InLatest(states[i], c)
  }

  ghost predicate InLatest(s: State, c: CallId) {
    exists v :: IsLatest(s.store, v) && c in s.store[v].changes
  }

  lemma FreshStays(cfg: Config, states: seq<State>, steps: seq<Step>, i: nat, j: nat, v: nat)
    requires IsRun(cfg, states, steps) && i <= j < |states| && NoStalePut(states, steps, j)
    requires v in states[i].store && v in states[j].store
    ensures 1 <= v <= |states[j].log| && states[j].store[v] == states[i].store[v] == states[j].log[v - 1]
  {
    hide Inv, IsRun, StalePut;
    NoStrays(cfg, states, steps, i);
    NoStrays(cfg, states, steps, j);
    RunInv(cfg, states, steps, i);
    RunInv(cfg, states, steps, j);
    StoredIsLogged(cfg, states[i], v);
    StoredIsLogged(cfg, states[j], v);
    TableGrows(cfg, states, steps, i, j);
  }

  /** A stale put replaces what its number held. */
  lemma StaleReuses(cfg: Config, states: seq<State>, steps: seq<Step>, k: nat)
    requires IsRun(cfg, states, steps) && k < |steps| && StalePut(states[k], steps[k])
    ensures !NeverReused(states)
  {
    hide Inv, Enabled, Next, StalePut;
    StaleIsPut(states[k], steps[k]);
    StaleIsRemoved(cfg, states, steps, k);
    var s, step := states[k], steps[k];
    var at := s.calls[step.c].phase.at;
    var i :| 0 <= i <= k && at in states[i].store;
    RunInv(cfg, states, steps, i);
    RunInv(cfg, states, steps, k);
    StoredIsLogged(cfg, states[i], at);
    TableGrows(cfg, states, steps, i, k);
    assert states[k + 1] == Next(cfg, s, step);
    StepHistory(cfg, s, step);
    PutIsNew(cfg, s, step.c, at, states[i].store[at]);
    assert states[k + 1].store[at] != states[i].store[at];
  }

  lemma PutIsNew(cfg: Config, s: State, c: CallId, at: nat, m: Manifest)
    requires Inv(cfg, s) && c in s.calls && s.calls[c].phase.Publishing? && 1 < at <= |s.log|
    requires m == s.log[at - 1] || Stray(at, m) in s.strays
    ensures m != ToPut(s, c)
  {
    hide VersionOk, Accounted, Chain, Times, StraysOf, CallOk;
    assert TxnOk(s, s.log[at - 1]);
  }

  /** No number is published twice, if and only if no put is stale; and then every committed change is in the
      latest version. So both hold of a run if and only if no put of it goes to a number that was published and
      removed. */
  lemma SafeIffNoStalePut(cfg: Config, states: seq<State>, steps: seq<Step>)
    requires IsRun(cfg, states, steps)
    ensures NeverReused(states) <==> NoStalePut(states, steps, |steps|)
    ensures NeverReused(states) && CommittedKept(states) <==> NoStalePut(states, steps, |steps|)
    ensures NoStalePut(states, steps, |steps|) <==>
            forall k :: 0 <= k < |steps| && steps[k].Put? && steps[k].created ==>
              !WasStored(states, k, states[k].calls[steps[k].c].phase.at)
  {
    hide Inv, Init, StalePut, Enabled, Next;
    if NoStalePut(states, steps, |steps|) {
      forall i, j, v | 0 <= i <= j < |states| && v in states[i].store && v in states[j].store
        ensures states[j].store[v] == states[i].store[v]
      {
        FreshStays(cfg, states, steps, i, j, v);
      }
      forall i, c | 0 <= i < |states| && c in states[i].calls && states[i].calls[c].phase.Committed?
        ensures InLatest(states[i], c)
      {
        NoStrays(cfg, states, steps, i);
        RunInv(cfg, states, steps, i);
        FreshIsIn(cfg, states[i], c);
      }
    } else {
      var k :| 0 <= k < |steps| && StalePut(states[k], steps[k]);
      StaleReuses(cfg, states, steps, k);
    }
    forall k | 0 <= k < |steps| && steps[k].Put? && steps[k].created
      ensures steps[k].c in states[k].calls && states[k].calls[steps[k].c].phase.Publishing?
      ensures StalePut(states[k], steps[k]) <==> WasStored(states, k, states[k].calls[steps[k].c].phase.at)
    {
      StaleIsRemoved(cfg, states, steps, k);
    }
    forall k | 0 <= k < |steps| && StalePut(states[k], steps[k]) ensures steps[k].Put? && steps[k].created {
      StaleIsPut(states[k], steps[k]);
    }
  }

  lemma StaleIsPut(s: State, step: Step)
    requires StalePut(s, step)
    ensures step.Put? && step.created
  {
  }

  lemma FreshIsIn(cfg: Config, s: State, c: CallId)
    requires Inv(cfg, s) && s.strays == {} && c in s.calls && s.calls[c].phase.Committed?
    ensures InLatest(s, c)
  {
    hide VersionOk, Chain, StoreOk;
    assert Accounted(s, c);
    LatestIsLast(cfg, s);
    assert StraysOf(s, c) == {};
    assert c in Table(s);
  }

  // ---- how often a change is in the table ----------------------------------------------------------

  /** The call reads back a manifest of its own, put by a publish whose reply was lost, and does not recognise
      it: it cannot be read, or is gone. */
  ghost predicate Misread(s: State, step: Step, c: CallId) {
    && step.ReadBack? && step.c == c && c in s.calls && s.calls[c].phase.Checking? && s.calls[c].phase.created
    && !(step.readable && IsOwn(s, c, s.calls[c].phase.at))
  }

  ghost function Misreads(states: seq<State>, steps: seq<Step>, c: CallId, i: nat): nat
    requires i <= |steps| < |states|
  {
    if i == 0 then 0 else Misreads(states, steps, c, i - 1) + One(Misread(states[i - 1], steps[i - 1], c))
  }

  /** A publish of c that created and whose reply is lost for good. */
  predicate LosesReply(step: Step, c: CallId) {
    step.Put? && step.c == c && step.created && step.answer == Error
  }

  function LostReplies(steps: seq<Step>, c: CallId, i: nat): nat
    requires i <= |steps|
  {
    if i == 0 then 0 else LostReplies(steps, c, i - 1) + One(LosesReply(steps[i - 1], c))
  }

  ghost function StalePuts(states: seq<State>, steps: seq<Step>, c: CallId, i: nat): nat
    requires i <= |steps| < |states|
  {
    if i == 0 then 0 else
      StalePuts(states, steps, c, i - 1) + One(StalePut(states[i - 1], steps[i - 1]) && steps[i - 1].c == c)
  }

  /** What a call's record counts, in terms of the run's steps. */
  lemma {:induction false} RecordIsSteps(cfg: Config, states: seq<State>, steps: seq<Step>, i: nat, c: CallId)
    requires IsRun(cfg, states, steps) && i < |states|
    ensures if c in states[i].calls then
              && states[i].calls[c].unrecognised == Misreads(states, steps, c, i)
              && One(states[i].calls[c].lost) == LostReplies(steps, c, i)
            else Misreads(states, steps, c, i) == 0 && LostReplies(steps, c, i) == 0
    decreases i
  {
    if i > 0 {
      RecordIsSteps(cfg, states, steps, i - 1, c);
      var s, step := states[i - 1], steps[i - 1];
      RunInv(cfg, states, steps, i - 1);
      assert Enabled(cfg, s, step) && states[i - 1 + 1] == Next(cfg, s, step);
      RecordStep(cfg, s, step, c);
    }
  }

  lemma RecordStep(cfg: Config, s: State, step: Step, c: CallId)
    requires Inv(cfg, s) && Enabled(cfg, s, step)
    ensures var s' := Next(cfg, s, step);
            if c in s.calls then
              && c in s'.calls && s'.calls[c].unrecognised == s.calls[c].unrecognised + One(Misread(s, step, c))
              && One(s'.calls[c].lost) == One(s.calls[c].lost) + One(LosesReply(step, c))
            else !Misread(s, step, c) && !LosesReply(step, c)
                 && (c in s'.calls ==> s'.calls[c].unrecognised == 0 && !s'.calls[c].lost)
  {
    hide VersionOk, Accounted, Chain, Times, StraysOf, Over, StoreOk;
    assert c in s.calls ==> CallOk(cfg, s, c);
  }

  lemma {:induction false} StraysAreSteps(cfg: Config, states: seq<State>, steps: seq<Step>, i: nat, c: CallId)
    requires IsRun(cfg, states, steps) && i < |states|
    ensures |StraysOf(states[i], c)| == StalePuts(states, steps, c, i)
    decreases i
  {
    hide Inv, Enabled, Next, StalePut;
    if i == 0 {
      assert StraysOf(states[0], c) == {};
    } else {
      StraysAreSteps(cfg, states, steps, i - 1, c);
      RunInv(cfg, states, steps, i - 1);
      var s, step := states[i - 1], steps[i - 1];
      assert states[i - 1 + 1] == Next(cfg, s, step);
      StepHistory(cfg, s, step);
      if step.Put? && step.created && StalePut(s, step) {
        StraysGrow(s, states[i], Stray(s.calls[step.c].phase.at, ToPut(s, step.c)), c);
      } else {
        assert StraysOf(states[i], c) == StraysOf(s, c);
      }
    }
  }

  /** A committed change is in the latest table once for its commit and once more for each time the call took
      its own manifest for another writer's, less the publishes that went to a number published before. So,
      with no stale put, exactly once if and only if no manifest of its own was misread; and with none misread,
      it is in the table if and only if its put was not stale. */
  lemma CommittedOnce(cfg: Config, states: seq<State>, steps: seq<Step>, i: nat, c: CallId)
    requires IsRun(cfg, states, steps) && i < |states|
    requires c in states[i].calls && states[i].calls[c].phase.Committed?
    ensures Times(states[i], c) + StalePuts(states, steps, c, i) == 1 + Misreads(states, steps, c, i)
    ensures StalePuts(states, steps, c, i) == 0 ==>
              (Times(states[i], c) == 1 <==> Misreads(states, steps, c, i) == 0)
    ensures Misreads(states, steps, c, i) == 0 ==>
              (c in Table(states[i]) <==> StalePuts(states, steps, c, i) == 0)
    ensures !cfg.objectStore ==> Misreads(states, steps, c, i) == 0
    ensures PublishedAs(states[i], c, states[i].calls[c].phase.version)
  {
    hide Enabled, Next, VersionOk, IsRun, StalePut, Chain, StoreOk, StraysOf;
    RunInv(cfg, states, steps, i);
    assert CallOk(cfg, states[i], c) && Accounted(states[i], c);
    RecordIsSteps(cfg, states, steps, i, c);
    StraysAreSteps(cfg, states, steps, i, c);
  }

  /** A call that reports a failure published nothing, but for the two ways an object store can hide that it
      did: a reply lost for good, and an own manifest misread. On a local path it published nothing. */
  lemma FailedNever(cfg: Config, states: seq<State>, steps: seq<Step>, i: nat, c: CallId)
    requires IsRun(cfg, states, steps) && i < |states|
    requires c in states[i].calls && states[i].calls[c].phase.Failed?
    ensures Times(states[i], c) + StalePuts(states, steps, c, i)
            == Misreads(states, steps, c, i) + LostReplies(steps, c, i)
    ensures c !in Table(states[i]) && StraysOf(states[i], c) == {} <==>
            Misreads(states, steps, c, i) == 0 && LostReplies(steps, c, i) == 0
    ensures !cfg.objectStore ==> c !in Table(states[i]) && StraysOf(states[i], c) == {}
  {
    hide Enabled, Next, VersionOk, IsRun, StalePut, Chain, StoreOk, StraysOf;
    RunInv(cfg, states, steps, i);
    assert CallOk(cfg, states[i], c) && Accounted(states[i], c);
    RecordIsSteps(cfg, states, steps, i, c);
    StraysAreSteps(cfg, states, steps, i, c);
  }

  predicate Unreadable(step: Step, c: CallId) {
    step.ReadBack? && step.c == c && !step.readable
  }

  /** A cleanup removes a manifest of c. */
  ghost predicate Removes(s: State, step: Step, c: CallId) {
    step.Cleanup? && exists v :: v in step.removed && v in s.store && s.store[v].call == c
  }

  /** While every read-back of c's manifests succeeds and none is removed, c recognises its own. */
  lemma {:induction false} ReadableRecognised(cfg: Config, states: seq<State>, steps: seq<Step>, i: nat, c: CallId)
    requires IsRun(cfg, states, steps) && i < |states|
    requires forall k :: 0 <= k < i ==> !Unreadable(steps[k], c) && !Removes(states[k], steps[k], c)
    ensures Misreads(states, steps, c, i) == 0
    ensures c in states[i].calls && states[i].calls[c].phase.Checking? && states[i].calls[c].phase.created
            ==> IsOwn(states[i], c, states[i].calls[c].phase.at)
    decreases i
  {
    if i > 0 {
      var s, step := states[i - 1], steps[i - 1];
      assert Enabled(cfg, s, step) && states[i - 1 + 1] == Next(cfg, s, step);
      ReadableRecognised(cfg, states, steps, i - 1, c);
      RunInv(cfg, states, steps, i - 1);
      OwnStays(cfg, s, step, c);
    }
  }

  lemma OwnStays(cfg: Config, s: State, step: Step, c: CallId)
    requires Inv(cfg, s) && Enabled(cfg, s, step) && !Unreadable(step, c) && !Removes(s, step, c)
    requires c in s.calls && s.calls[c].phase.Checking? && s.calls[c].phase.created ==> IsOwn(s, c, s.calls[c].phase.at)
    ensures var s' := Next(cfg, s, step);
            c in s'.calls && s'.calls[c].phase.Checking? && s'.calls[c].phase.created ==>
              IsOwn(s', c, s'.calls[c].phase.at)
    ensures !Misread(s, step, c)
  {
    hide Inv;
  }

  lemma ReadAtPositive(cfg: Config, s: State, c: CallId)
    requires Inv(cfg, s) && c in s.calls
    ensures s.calls[c].readAt >= 1
  {
    assert CallOk(cfg, s, c);
  }

  /** The change of a version is compatible with the change first published as every version between it and
      the version it was made from, unless a stale put went to that number. */
  lemma PublishedOverCompatible(cfg: Config, states: seq<State>, steps: seq<Step>, i: nat, v: nat, u: nat)
    requires IsRun(cfg, states, steps) && i < |states| && 1 < v <= |states[i].log|
    ensures var s, c := states[i], states[i].log[v - 1].call;
            && c in s.calls && s.calls[c].readAt < v
            && (s.calls[c].readAt < u < v ==> cfg.verdict(c, s.log[u - 1].call) == Compatible || Reused(s, u))
            && (s.calls[c].readAt < u < v && NoStalePut(states, steps, i) ==>
                  cfg.verdict(c, s.log[u - 1].call) == Compatible)
  {
    hide Enabled, Next, IsRun, Chain, CallOk, Accounted, StoreOk, Times, StraysOf, StalePut;
    RunInv(cfg, states, steps, i);
    NoStrays(cfg, states, steps, i);
    assert VersionOk(cfg, states[i], v - 1);
    ReadAtPositive(cfg, states[i], states[i].log[v - 1].call);
  }

  /** A call publishes at most once more than it may rebase. */
  lemma PutsBounded(cfg: Config, states: seq<State>, steps: seq<Step>, i: nat, c: CallId)
    requires IsRun(cfg, states, steps) && i < |states| && c in states[i].calls
    ensures states[i].calls[c].puts <= cfg.attempts + 1
  {
    hide Enabled, Next, IsRun, Chain, VersionOk, Accounted, StoreOk, Times, StraysOf;
    RunInv(cfg, states, steps, i);
    assert CallOk(cfg, states[i], c);
  }

  // ---- runs ----------------------------------------------------------------------------------------

  /** A dataset of one version. */
  function Fresh(): State {
    var m := Manifest(0, 0, []);
    State(map[1 := m], map[], {}, [m], {})
  }

  /** The recognition rests on the read-back: a put whose reply is lost, retried by the client, and whose
      manifest then cannot be read back, is rebased over itself and applied twice, when its transaction file
      cannot be dropped either. */
  lemma UnreadableAppliesTwice() returns (cfg: Config, states: seq<State>, steps: seq<Step>)
    ensures IsRun(cfg, states, steps) && cfg.objectStore && 7 in states[|steps|].calls
    ensures states[|steps|].calls[7].phase.Committed? && Table(states[|steps|]) == [7, 7]
  {
    cfg := Config(true, 200, (a, b) => Compatible);
    var s0 := Fresh();
    var s1 := Next(cfg, s0, Begin(7, 1));
    var s2 := Next(cfg, s1, Put(7, true, Taken, false));
    var s3 := Next(cfg, s2, ReadBack(7, false, false));
    assert Classify(cfg, s3.store, s3.gone, 7, 1, 2) == AllCompatible;
    var s4 := Next(cfg, s3, Rebase(7, 2));
    var s5 := Next(cfg, s4, Put(7, true, Created, false));
    states := [s0, s1, s2, s3, s4, s5];
    steps := [Begin(7, 1), Put(7, true, Taken, false), ReadBack(7, false, false), Rebase(7, 2),
              Put(7, true, Created, false)];
  }

  /** A reply lost for good: the call reports an I/O error, and its change is in the table. */
  lemma LostReplyReportsFailure() returns (cfg: Config, states: seq<State>, steps: seq<Step>)
    ensures IsRun(cfg, states, steps) && 7 in states[|steps|].calls
    ensures states[|steps|].calls[7].phase == Failed(IoError) && Table(states[|steps|]) == [7]
  {
    cfg := Config(true, 200, (a, b) => Compatible);
    var s0 := Fresh();
    var s1 := Next(cfg, s0, Begin(7, 1));
    var s2 := Next(cfg, s1, Put(7, true, Error, true));
    states, steps := [s0, s1, s2], [Begin(7, 1), Put(7, true, Error, true)];
  }

  ghost predicate Reaches(cfg: Config, states: seq<State>, steps: seq<Step>, s: State) {
    IsRun(cfg, states, steps) && states[|steps|] == s
  }

  lemma Extended(cfg: Config, states: seq<State>, steps: seq<Step>, s: State, step: Step)
    requires Reaches(cfg, states, steps, s) && Enabled(cfg, s, step)
    ensures Reaches(cfg, states + [Next(cfg, s, step)], steps + [step], Next(cfg, s, step))
  {
    hide Init, Enabled, Next;
  }

  /** A call that is made from the latest version and publishes the next one. */
  lemma PublishesNext(cfg: Config, states: seq<State>, steps: seq<Step>, s: State, c: CallId)
    returns (states': seq<State>, steps': seq<Step>, s': State)
    requires Reaches(cfg, states, steps, s) && c !in s.calls && |s.log| in s.store && |s.log| + 1 !in s.store
    ensures Reaches(cfg, states', steps', s') && states < states' && |states'| == |states| + 2
    ensures s'.store == s.store[|s.log| + 1 := Manifest(c, 1, s.store[|s.log|].changes + [c])]
    ensures s'.log == s.log + [Manifest(c, 1, s.store[|s.log|].changes + [c])] && s'.strays == s.strays
    ensures s'.calls.Keys == s.calls.Keys + {c} && s'.calls[c].phase == Committed(|s.log| + 1)
    ensures forall d :: d in s.calls ==> s'.calls[d] == s.calls[d]
  {
    hide Reaches;
    var begin, put := Begin(c, |s.log|), Put(c, true, Created, false);
    Extended(cfg, states, steps, s, begin);
    var s1 := Next(cfg, s, begin);
    Extended(cfg, states + [s1], steps + [begin], s1, put);
    s' := Next(cfg, s1, put);
    states', steps' := states + [s1] + [s'], steps + [begin] + [put];
  }

  lemma Removed(cfg: Config, states: seq<State>, steps: seq<Step>, s: State, asOf: nat, v: nat)
    returns (states': seq<State>, steps': seq<Step>, s': State)
    requires Reaches(cfg, states, steps, s) && asOf in s.store && v in s.store && v < asOf
    ensures Reaches(cfg, states', steps', s') && states < states' && |states'| == |states| + 1
    ensures s' == s.(store := s.store - {v})
  {
    hide Reaches;
    var step := Cleanup(asOf, {v});
    Extended(cfg, states, steps, s, step);
    s' := Next(cfg, s, step);
    states', steps' := states + [s'], steps + [step];
  }

  /** A change reported committed and lost, on a local path: call 9 is made from version 1; calls 2, 3 and 4
      publish the versions of those numbers, and the cleanups of the last two, keeping two versions, remove
      versions 1 and 2. The put of call 9 finds number 2 free. */
  lemma CleanupLosesChange() returns (cfg: Config, states: seq<State>, steps: seq<Step>)
    ensures IsRun(cfg, states, steps) && !cfg.objectStore && 9 in states[|steps|].calls
    ensures states[|steps|].calls[9].phase == Committed(2)
    ensures IsLatest(states[|steps|].store, 4) && states[|steps|].store[4].changes == [2, 3, 4]
    ensures |states| == 11 && 2 in states[3].store && states[3].store[2].call == 2
    ensures 2 in states[|steps|].store && states[|steps|].store[2].call == 9
  {
    hide Reaches;
    cfg := Config(false, 20, (a, b) => Compatible);
    assert Reaches(cfg, [Fresh()], [], Fresh()) by { FreshReached(cfg); }
    Extended(cfg, [Fresh()], [], Fresh(), Begin(9, 1));
    var s1 := Next(cfg, Fresh(), Begin(9, 1));
    var states3, steps3, s3 := PublishesNext(cfg, [Fresh()] + [s1], [] + [Begin(9, 1)], s1, 2);
    assert states3[3] == s3 by { ReachedLast(cfg, states3, steps3, s3); }
    var states5, steps5, s5 := PublishesNext(cfg, states3, steps3, s3, 3);
    var states6, steps6, s6 := Removed(cfg, states5, steps5, s5, 2, 1);
    var states8, steps8, s8 := PublishesNext(cfg, states6, steps6, s6, 4);
    var states9, steps9, s9 := Removed(cfg, states8, steps8, s8, 3, 2);
    Extended(cfg, states9, steps9, s9, Put(9, true, Created, false));
    var s10 := Next(cfg, s9, Put(9, true, Created, false));
    states, steps := states9 + [s10], steps9 + [Put(9, true, Created, false)];
    ReachedLast(cfg, states, steps, s10);
  }

  lemma FreshReached(cfg: Config)
    ensures Reaches(cfg, [Fresh()], [], Fresh())
  {
  }

  lemma ReachedLast(cfg: Config, states: seq<State>, steps: seq<Step>, s: State)
    requires Reaches(cfg, states, steps, s)
    ensures IsRun(cfg, states, steps) && |states| == |steps| + 1 && states[|steps|] == s
  {
    hide Enabled, Next, Init;
  }
}
