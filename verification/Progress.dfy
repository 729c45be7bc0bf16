/** What a call of `commit_next_version` (src/dataset/dataset.cpp) gets done: a publish that finds its version taken
    goes on to the latest version and commits there, or is refused for the first version that stops it; and how much
    the others published while it lost. */
module Progress {
  import opened Commit
  import opened History

  /** The steps can be taken one after the other, and end in s'. */
  ghost predicate Leads(cfg: Config, s: State, steps: seq<Step>, s': State)
    decreases |steps|
  {
    if steps == [] then s' == s
    else Enabled(cfg, s, steps[0]) && Leads(cfg, Next(cfg, s, steps[0]), steps[1..], s')
  }

  lemma {:induction false} LeadsOn(cfg: Config, s: State, steps: seq<Step>, mid: State, more: seq<Step>, s': State)
    requires Leads(cfg, s, steps, mid) && Leads(cfg, mid, more, s')
    ensures Leads(cfg, s, steps + more, s')
    decreases |steps|
  {
    hide Enabled, Next;
    if steps == [] {
      assert steps + more == more;
    } else {
      LeadsOn(cfg, Next(cfg, s, steps[0]), steps[1..], mid, more, s');
      assert (steps + more)[1..] == steps[1..] + more;
    }
  }

  lemma LeadsOne(cfg: Config, s: State, step: Step)
    requires Enabled(cfg, s, step)
    ensures Leads(cfg, s, [step], Next(cfg, s, step))
  {
    hide Enabled, Next;
    assert [step][1..] == [];
    assert Leads(cfg, Next(cfg, s, step), [], Next(cfg, s, step));
  }

  // ---- a publish that lost -------------------------------------------------------------------------

  /** Version u does not stop a rebase of c: it is stored, its transaction file is there, and c's change is
      compatible with its. */
  ghost predicate Passes(cfg: Config, s: State, c: CallId, u: nat) {
    u in s.store && FileOf(s.store[u]) !in s.gone && cfg.verdict(c, s.store[u].call) == Compatible
  }

  ghost predicate AllPass(cfg: Config, s: State, c: CallId, from: nat, upTo: nat) {
    forall u :: from < u <= upTo ==> Passes(cfg, s, c, u)
  }

  /** c is about to publish at a number another holds, with attempts left; before its first rebase it still needs
      the version it was made from. */
  ghost predicate Losing(cfg: Config, s: State, c: CallId) {
    && c in s.calls && s.calls[c].phase.Publishing? && s.calls[c].phase.at in s.store
    && s.calls[c].puts < cfg.attempts && (s.calls[c].puts == 0 ==> s.calls[c].readAt in s.store)
  }

  /** The steps of a publish that finds its number taken: on an object store the manifest there is read back, which
      may fail; the transaction file is dropped, which may fail. */
  function Loses(cfg: Config, c: CallId, readable: bool, dropped: bool): seq<Step> {
    if cfg.objectStore then [Put(c, false, Taken, false), ReadBack(c, readable, dropped)]
    else [Put(c, false, Taken, dropped)]
  }

  /** No stored version after the first has the file that c's next publish writes. */
  lemma NextFileIsNew(cfg: Config, s: State, c: CallId, u: nat)
    requires Inv(cfg, s) && c in s.calls && u in s.store && u > 1
    ensures FileOf(s.store[u]) != Txn(c, s.calls[c].puts + 1)
  {
    hide CallOk, VersionOk, Accounted, Times, StraysOf, Chain;
    assert StoredOk(s, u);
    assert s.store[u] == s.log[u - 1] || Stray(u, s.store[u]) in s.strays;
  }

  /** It loses: then it is rebasing, one publish further, and nothing else changed but its own file. */
  lemma LostIsRebasing(cfg: Config, s: State, c: CallId, readable: bool, dropped: bool) returns (lost: State)
    requires Inv(cfg, s) && Losing(cfg, s, c)
    ensures Leads(cfg, s, Loses(cfg, c, readable, dropped), lost) && Inv(cfg, lost)
    ensures c in lost.calls && lost.calls[c].phase == Rebasing && lost.calls[c].puts == s.calls[c].puts + 1
    ensures lost.calls[c].readAt == s.calls[c].readAt
    ensures lost.store == s.store && lost.log == s.log && lost.strays == s.strays
    ensures lost.gone == Dropped(s, c, s.calls[c].puts + 1, dropped)
  {
    hide Inv, Leads;
    var put := Put(c, false, Taken, dropped && !cfg.objectStore);
    lost := Next(cfg, s, put);
    StepKeeps(cfg, s, put);
    LeadsOne(cfg, s, put);
    if cfg.objectStore {
      var mid, back := lost, ReadBack(c, readable, dropped);
      NotOwn(cfg, s, c);
      LeadsOne(cfg, mid, back);
      StepKeeps(cfg, mid, back);
      lost := Next(cfg, mid, back);
      LeadsOn(cfg, s, [put], mid, [back], lost);
      assert [put] + [back] == Loses(cfg, c, readable, dropped);
    }
  }

  lemma NotOwn(cfg: Config, s: State, c: CallId)
    requires Inv(cfg, s) && c in s.calls && s.calls[c].phase.Publishing? && s.calls[c].phase.at in s.store
    ensures var m := s.store[s.calls[c].phase.at]; !(m.call == c && m.txn == s.calls[c].puts + 1)
  {
    hide VersionOk, Accounted, Times, StraysOf, Chain, StoreOk;
    assert CallOk(cfg, s, c);
    NextFileIsNew(cfg, s, c, s.calls[c].phase.at);
  }

  /** The drop of c's own file changes no verdict on a version since the one it read. */
  lemma PassesKept(cfg: Config, s: State, lost: State, c: CallId, u: nat, dropped: bool)
    requires Inv(cfg, s) && c in s.calls && u > s.calls[c].readAt
    requires lost.store == s.store && lost.gone == Dropped(s, c, s.calls[c].puts + 1, dropped)
    ensures Passes(cfg, lost, c, u) <==> Passes(cfg, s, c, u)
    ensures u in s.store ==> (FileOf(s.store[u]) in lost.gone <==> FileOf(s.store[u]) in s.gone)
  {
    hide VersionOk, Accounted, Times, StraysOf, Chain, StoreOk, Over;
    assert CallOk(cfg, s, c);
    if u in s.store {
      NextFileIsNew(cfg, s, c, u);
    }
  }

  /** Progress: a call that lost its number, with every version since passing, loses, rebases and publishes; it is
      committed as the version after the latest, whose table is the old one and its change. */
  lemma LoserCommits(cfg: Config, s: State, c: CallId, latest: nat, readable: bool, dropped: bool) returns (s': State)
    requires Inv(cfg, s) && Losing(cfg, s, c) && IsLatest(s.store, latest)
    requires AllPass(cfg, s, c, s.calls[c].readAt, latest)
    ensures Leads(cfg, s, Loses(cfg, c, readable, dropped) + [Rebase(c, latest), Put(c, true, Created, false)], s')
    ensures c in s'.calls && s'.calls[c].phase == Committed(latest + 1)
    ensures IsLatest(s'.store, latest + 1) && s'.store[latest + 1].changes == s.store[latest].changes + [c]
    ensures Table(s') == Table(s) + [c]
  {
    hide Inv, Leads, Passes, Dropped, Loses;
    LatestIsLast(cfg, s);
    var lost := LostIsRebasing(cfg, s, c, readable, dropped);
    forall u | s.calls[c].readAt < u <= latest ensures Passes(cfg, lost, c, u) {
      PassesKept(cfg, s, lost, c, u, dropped);
    }
    var rebase, put := Rebase(c, latest), Put(c, true, Created, false);
    RebasePublishes(cfg, lost, c, latest);
    var mid := Next(cfg, lost, rebase);
    LeadsOne(cfg, lost, rebase);
    LeadsOne(cfg, mid, put);
    s' := Next(cfg, mid, put);
    LeadsOn(cfg, lost, [rebase], mid, [put], s');
    assert [rebase] + [put] == [rebase, put];
    LeadsOn(cfg, s, Loses(cfg, c, readable, dropped), lost, [rebase, put], s');
  }

  lemma {:induction false} ClassifyPasses(cfg: Config, s: State, c: CallId, from: nat, upTo: nat)
    requires AllPass(cfg, s, c, from, upTo)
    ensures Classify(cfg, s.store, s.gone, c, from, upTo) == AllCompatible
    decreases upTo
  {
    if upTo > from {
      ClassifyPasses(cfg, s, c, from, upTo - 1);
      assert Passes(cfg, s, c, upTo);
    }
  }

  lemma RebasePublishes(cfg: Config, s: State, c: CallId, latest: nat)
    requires Enabled(cfg, s, Rebase(c, latest)) && AllPass(cfg, s, c, s.calls[c].readAt, latest)
    ensures var s' := Next(cfg, s, Rebase(c, latest));
            && s' == s.(calls := s'.calls) && c in s'.calls
            && s'.calls[c].phase == Publishing(latest + 1, s.store[latest].changes + [c])
  {
    ClassifyPasses(cfg, s, c, s.calls[c].readAt, latest);
  }

  /** Why version u stops a rebase of c: it cannot be loaded, its transaction cannot be read, or by its verdict. */
  function Reason(cfg: Config, s: State, c: CallId, u: nat): Failure {
    if u !in s.store then IoError
    else if FileOf(s.store[u]) in s.gone then Refused(Retryable)
    else Refused(cfg.verdict(c, s.store[u].call))
  }

  lemma {:induction false} ClassifyStops(cfg: Config, s: State, c: CallId, from: nat, u: nat, upTo: nat)
    requires from < u <= upTo && AllPass(cfg, s, c, from, u - 1) && !Passes(cfg, s, c, u)
    ensures Classify(cfg, s.store, s.gone, c, from, upTo) == NotApplied(Reason(cfg, s, c, u))
    decreases upTo
  {
    if upTo > u {
      ClassifyStops(cfg, s, c, from, u, upTo - 1);
    } else {
      ClassifyPasses(cfg, s, c, from, u - 1);
    }
  }

  /** And only then: a call that lost its number is refused for the first version that stops it. A retryable verdict,
      or a transaction that cannot be read, is reported as retryable, an incompatible one as incompatible. */
  lemma LoserRefused(cfg: Config, s: State, c: CallId, latest: nat, u: nat, readable: bool, dropped: bool)
    returns (s': State)
    requires Inv(cfg, s) && Losing(cfg, s, c) && IsLatest(s.store, latest)
    requires s.calls[c].readAt < u <= latest && AllPass(cfg, s, c, s.calls[c].readAt, u - 1) && !Passes(cfg, s, c, u)
    ensures Leads(cfg, s, Loses(cfg, c, readable, dropped) + [Rebase(c, latest)], s')
    ensures c in s'.calls && s'.calls[c].phase == Failed(Reason(cfg, s, c, u))
    ensures s'.store == s.store && Table(s') == Table(s)
  {
    hide Inv, Leads, Passes, Dropped, Loses, Classify;
    LatestIsLast(cfg, s);
    var lost := LostIsRebasing(cfg, s, c, readable, dropped);
    var from := s.calls[c].readAt;
    forall v | from < v <= u - 1 ensures Passes(cfg, lost, c, v) {
      PassesKept(cfg, s, lost, c, v, dropped);
    }
    PassesKept(cfg, s, lost, c, u, dropped);
    ClassifyStops(cfg, lost, c, from, u, latest);
    LeadsOne(cfg, lost, Rebase(c, latest));
    s' := Next(cfg, lost, Rebase(c, latest));
    LeadsOn(cfg, s, Loses(cfg, c, readable, dropped), lost, [Rebase(c, latest)], s');
  }

  /** A publish that created its version but saw it taken, on an object store, recognises it and is committed. */
  lemma RecognisedCommits(cfg: Config, s: State, c: CallId, latest: nat) returns (s': State)
    requires Inv(cfg, s) && cfg.objectStore && IsLatest(s.store, latest)
    requires c in s.calls && s.calls[c].phase.Publishing? && s.calls[c].phase.at == latest + 1
    ensures Leads(cfg, s, [Put(c, true, Taken, false), ReadBack(c, true, false)], s')
    ensures c in s'.calls && s'.calls[c].phase == Committed(latest + 1) && Table(s') == Table(s) + [c]
  {
    hide VersionOk, Accounted, Times, StraysOf, Leads, Over, Chain;
    LatestIsLast(cfg, s);
    assert CallOk(cfg, s, c);
    var put, back := Put(c, true, Taken, false), ReadBack(c, true, false);
    var mid := Next(cfg, s, put);
    LeadsOne(cfg, s, put);
    LeadsOne(cfg, mid, back);
    s' := Next(cfg, mid, back);
    LeadsOn(cfg, s, [put], mid, [back], s');
    assert [put] + [back] == [put, back];
  }

  // ---- over whole runs -----------------------------------------------------------------------------

  /** A call's next number is beyond the version it read by more than its publishes, and as many versions were
      published since, but for a publish that ended in an error. */
  ghost predicate Pressed(s: State, c: CallId)
    requires c in s.calls
  {
    var call := s.calls[c];
    && (call.phase.Publishing? ==> call.readAt + call.puts < call.phase.at)
    && call.readAt + call.puts <= |s.log| + One(call.phase.Failed?)
  }

  ghost predicate AllPressed(s: State) {
    forall c :: c in s.calls ==> Pressed(s, c)
  }

  lemma StepPressed(cfg: Config, s: State, step: Step)
    requires Inv(cfg, s) && Enabled(cfg, s, step) && AllPressed(s)
    ensures AllPressed(Next(cfg, s, step))
  {
    hide Inv, Classify, IsOwn;
    LatestIsLast(cfg, s);
    StepHistory(cfg, s, step);
    var s' := Next(cfg, s, step);
    forall c | c in s'.calls ensures Pressed(s', c) {
      if c in s.calls {
        PutNumber(cfg, s, c);
      } else {
        StoredIsLogged(cfg, s, step.readAt);
      }
    }
  }

  lemma PutNumber(cfg: Config, s: State, c: CallId)
    requires Inv(cfg, s) && c in s.calls
    ensures s.calls[c].phase.Publishing? ==> s.calls[c].phase.at <= |s.log| + 1
    ensures s.calls[c].phase.Publishing? && s.calls[c].phase.at in s.store ==> s.calls[c].phase.at <= |s.log|
  {
    hide VersionOk, Accounted, Times, StraysOf, Chain;
    assert CallOk(cfg, s, c);
    if s.calls[c].phase.Publishing? && s.calls[c].phase.at in s.store {
      assert StoredOk(s, s.calls[c].phase.at);
    }
  }

  lemma {:induction false} RunPressed(cfg: Config, states: seq<State>, steps: seq<Step>, i: nat)
    requires IsRun(cfg, states, steps) && i < |states|
    ensures AllPressed(states[i])
    decreases i
  {
    hide Inv, Enabled, Next, Pressed;
    if i > 0 {
      RunPressed(cfg, states, steps, i - 1);
      RunInv(cfg, states, steps, i - 1);
      assert states[i - 1 + 1] == Next(cfg, states[i - 1], steps[i - 1]);
      StepPressed(cfg, states[i - 1], steps[i - 1]);
    }
  }

  /** The protocol as a whole goes on: a call that used up its attempts lost each of them to a version published
      after the one it read, on a local path by others. */
  lemma LosesToOthers(cfg: Config, states: seq<State>, steps: seq<Step>, i: nat, c: CallId)
    requires IsRun(cfg, states, steps) && i < |states| && c in states[i].calls
    requires states[i].calls[c].phase.Rebasing? && states[i].calls[c].puts > cfg.attempts
    ensures |Table(states[i])| >= states[i].calls[c].readAt + cfg.attempts
    ensures !cfg.objectStore ==> Times(states[i], c) == 0
  {
    hide Inv, Enabled, Next, IsRun, Times;
    RunPressed(cfg, states, steps, i);
    RunInv(cfg, states, steps, i);
    TableLength(cfg, states[i]);
    assert Pressed(states[i], c);
    if !cfg.objectStore { NoneOwn(cfg, states[i], c); }
  }

  lemma NoneOwn(cfg: Config, s: State, c: CallId)
    requires Inv(cfg, s) && c in s.calls && s.calls[c].phase.Rebasing? && !cfg.objectStore
    ensures Times(s, c) == 0
  {
    hide VersionOk, Chain, StoreOk, Times, StraysOf;
    assert CallOk(cfg, s, c) && Accounted(s, c);
  }

  lemma TableLength(cfg: Config, s: State)
    requires Inv(cfg, s)
    ensures |Table(s)| == |s.log| - 1
  {
    hide Inv;
    LogNotEmpty(cfg, s);
    if |s.log| >= 2 { TableIsSerial(cfg, s, |s.log|, 2); }
  }

  lemma LogNotEmpty(cfg: Config, s: State)
    requires Inv(cfg, s)
    ensures |s.log| >= 1 && s.log[0].changes == []
  {
  }
}
