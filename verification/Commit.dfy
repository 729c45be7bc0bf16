/** The optimistic commit protocol of src/dataset/dataset.cpp (`commit_next_version`) over the create-only
    publish of src/table/manifest_writer.cpp (`publish_manifest`) and the cleanup of
    src/table/dataset_refs.cpp (`cleanup_old_versions`): any number of writers, each step of each writer
    interleaved with the others in any order, replies lost or not, old versions removed at any time. */
module Commit {

  /** One call of commit_next_version, and with it the change it carries. */
  type CallId = nat

  datatype Verdict = Compatible | Retryable | Incompatible

  /** `verdict(ours, theirs)` is Lance's check of one change against another. */
  datatype Config = Config(objectStore: bool, attempts: nat, verdict: (CallId, CallId) -> Verdict)

  /** A published manifest: the call that wrote it, the transaction its publish was named by (fresh for every
      publish, so the call and the number of the publish), and the changes its table holds, oldest first. */
  datatype Manifest = Manifest(call: CallId, txn: nat, changes: seq<CallId>)

  /** `Conflict`: the error of a publish that found its version taken. */
  datatype Failure = Conflict | Refused(verdict: Verdict) | IoError

  datatype Phase =
    | Publishing(at: nat, changes: seq<CallId>)  // about to put `changes` as version `at`
    | Checking(at: nat, created: bool)           // `at` was taken (by the put itself, if it created)
    | Rebasing                                   // a conflict: reads the latest version next
    | Committed(version: nat)
    | Failed(why: Failure)

  /** `puts`: publishes made. `unrecognised`: times the call took a manifest of its own for another's.
      `lost`: the call ended on an error although its manifest was created. */
  datatype Call = Call(readAt: nat, phase: Phase, puts: nat, unrecognised: nat, lost: bool)

  /** A manifest put at a number that had been published before. */
  datatype Stray = Stray(version: nat, manifest: Manifest)

  /** The transaction file a publish writes before its manifest, which names it. */
  datatype Txn = Txn(call: CallId, number: nat)

  function FileOf(m: Manifest): Txn {
    Txn(m.call, m.txn)
  }

  /** `store` is the _versions directory, `gone` the transaction files that were dropped. `log` and `strays` are
      the history: log[v - 1] is the manifest first published as version v, whether or not it is still stored. */
  datatype State = State(store: map<nat, Manifest>, calls: map<CallId, Call>, gone: set<Txn>, log: seq<Manifest>,
                         strays: set<Stray>)

  datatype Answer = Created | Taken | Error

  datatype Step =
    | Begin(c: CallId, readAt: nat)
    | Put(c: CallId, created: bool, answer: Answer, dropped: bool)
    | ReadBack(c: CallId, readable: bool, dropped: bool)
    | Rebase(c: CallId, latest: nat)
    | GiveUp(c: CallId, why: Failure)
    | Cleanup(asOf: nat, removed: set<nat>)

  ghost predicate IsLatest(store: map<nat, Manifest>, v: nat) {
    v in store && forall u :: u in store ==> u <= v
  }

  /** The manifest at version `at` can be read and names this publish. */
  predicate IsOwn(s: State, c: CallId, at: nat)
    requires c in s.calls
  {
    at in s.store && s.store[at].call == c && s.store[at].txn == s.calls[c].puts
  }

  /** What the environment can do. A create-only put creates nothing where something is; a local put answers
      "created" exactly when it created, a put to an object store may lose its reply (then the client's own
      retry finds the name taken, or an error is all it sees). A publish that does not end committed drops its
      transaction file, which may fail. Before its first rebase a call loads the version
      it was made from again. A cleanup as of a version removes any of the versions below it (the policy, the
      tags and the branches say which): a publish runs one as of the version before its own. */
  ghost predicate Enabled(cfg: Config, s: State, step: Step) {
    match step
    case Begin(c, readAt) => c !in s.calls && readAt in s.store
    case Put(c, created, answer, dropped) =>
      && c in s.calls && s.calls[c].phase.Publishing?
      && (created ==> s.calls[c].phase.at !in s.store)
      && (answer == Created ==> created)
      && (answer == Taken ==> created || s.calls[c].phase.at in s.store)
      && (!cfg.objectStore && created ==> answer == Created)
      && (dropped ==> answer == Error || (answer == Taken && !cfg.objectStore))
    case ReadBack(c, readable, dropped) =>
      c in s.calls && s.calls[c].phase.Checking? && (dropped ==> !(readable && IsOwn(s, c, s.calls[c].phase.at)))
    case Rebase(c, latest) =>
      && c in s.calls && s.calls[c].phase.Rebasing? && s.calls[c].puts <= cfg.attempts
      && (s.calls[c].puts == 1 ==> s.calls[c].readAt in s.store) && IsLatest(s.store, latest)
    case GiveUp(c, why) =>
      c in s.calls && s.calls[c].phase.Rebasing? && (s.calls[c].puts > cfg.attempts ==> why == Conflict)
    case Cleanup(asOf, removed) =>
      asOf in s.store && forall v :: v in removed ==> v in s.store && v < asOf
  }

  datatype Classified = AllCompatible | NotApplied(why: Failure)

  /** The first of the versions after `from` up to `latest` that is gone, whose transaction file is gone, or whose
      change is not compatible. */
  function Classify(cfg: Config, store: map<nat, Manifest>, gone: set<Txn>, c: CallId, from: nat, latest: nat)
    : (r: Classified)
    ensures r == AllCompatible <==>
            forall u :: from < u <= latest ==>
              u in store && FileOf(store[u]) !in gone && cfg.verdict(c, store[u].call) == Compatible
    decreases latest
  {
    if latest <= from then AllCompatible
    else
      var before := Classify(cfg, store, gone, c, from, latest - 1);
      if before != AllCompatible then before
      else if latest !in store then NotApplied(IoError)
      else if FileOf(store[latest]) in gone then NotApplied(Refused(Retryable))
      else
        var verdict := cfg.verdict(c, store[latest].call);
        if verdict == Compatible then AllCompatible else NotApplied(Refused(verdict))
  }

  /** The answer is that of the first version that stops the rebase. */
  lemma {:induction false} FirstStop(cfg: Config, store: map<nat, Manifest>, gone: set<Txn>, c: CallId, from: nat,
                                     latest: nat)
    returns (u: nat)
    requires Classify(cfg, store, gone, c, from, latest).NotApplied?
    ensures from < u <= latest && Classify(cfg, store, gone, c, from, u - 1) == AllCompatible
    ensures Classify(cfg, store, gone, c, from, latest).why ==
            if u !in store then IoError
            else if FileOf(store[u]) in gone then Refused(Retryable)
            else Refused(cfg.verdict(c, store[u].call))
    decreases latest
  {
    if Classify(cfg, store, gone, c, from, latest - 1) == AllCompatible {
      u := latest;
    } else {
      u := FirstStop(cfg, store, gone, c, from, latest - 1);
    }
  }

  function WithPhase(s: State, c: CallId, phase: Phase): State
    requires c in s.calls
  {
    s.(calls := s.calls[c := s.calls[c].(phase := phase)])
  }

  /** `m` appears as version `at`: the next version, or a number published before. */
  function Publish(s: State, at: nat, m: Manifest): State {
    var stored := s.(store := s.store[at := m]);
    if at > |s.log| then stored.(log := s.log + [m]) else stored.(strays := s.strays + {Stray(at, m)})
  }

  /** What is gone once the file of c's publish was dropped, or not. */
  function Dropped(s: State, c: CallId, number: nat, dropped: bool): set<Txn> {
    if dropped then s.gone + {Txn(c, number)} else s.gone
  }

  function AfterPut(cfg: Config, s: State, c: CallId, created: bool, answer: Answer, dropped: bool): State
    requires c in s.calls && s.calls[c].phase.Publishing?
  {
    var call := s.calls[c];
    var put := call.(puts := call.puts + 1, lost := created && answer == Error,
                     phase := match answer
                              case Created => Committed(call.phase.at)
                              case Taken => if cfg.objectStore then Checking(call.phase.at, created) else Rebasing
                              case Error => Failed(IoError));
    var stored := if created then Publish(s, call.phase.at, Manifest(c, call.puts + 1, call.phase.changes)) else s;
    stored.(calls := s.calls[c := put], gone := Dropped(s, c, call.puts + 1, dropped))
  }

  function AfterReadBack(s: State, c: CallId, readable: bool, dropped: bool): State
    requires c in s.calls && s.calls[c].phase.Checking?
  {
    var call := s.calls[c];
    if readable && IsOwn(s, c, call.phase.at) then WithPhase(s, c, Committed(call.phase.at))
    else
      var missed := if call.phase.created then 1 else 0;
      s.(calls := s.calls[c := call.(phase := Rebasing, unrecognised := call.unrecognised + missed)],
         gone := Dropped(s, c, call.puts, dropped))
  }

  function AfterRebase(cfg: Config, s: State, c: CallId, latest: nat): State
    requires c in s.calls && latest in s.store
  {
    var classified := Classify(cfg, s.store, s.gone, c, s.calls[c].readAt, latest);
    WithPhase(s, c, if classified == AllCompatible then Publishing(latest + 1, s.store[latest].changes + [c])
                    else Failed(classified.why))
  }

  ghost function Next(cfg: Config, s: State, step: Step): State
    requires Enabled(cfg, s, step)
  {
    match step
    case Begin(c, readAt) =>
      s.(calls := s.calls[c := Call(readAt, Publishing(readAt + 1, s.store[readAt].changes + [c]), 0, 0, false)])
    case Put(c, created, answer, dropped) => AfterPut(cfg, s, c, created, answer, dropped)
    case ReadBack(c, readable, dropped) => AfterReadBack(s, c, readable, dropped)
    case Rebase(c, latest) => AfterRebase(cfg, s, c, latest)
    case GiveUp(c, why) => WithPhase(s, c, Failed(why))
    case Cleanup(asOf, removed) => s.(store := s.store - removed)
  }

  /** A dataset starts with one version and no call. */
  ghost predicate Init(s: State) {
    && s.store.Keys == {1} && s.store[1].changes == [] && s.calls == map[] && s.gone == {}
    && s.log == [s.store[1]] && s.strays == {}
  }

  ghost predicate IsRun(cfg: Config, states: seq<State>, steps: seq<Step>) {
    && |states| == |steps| + 1 && Init(states[0])
    && forall i :: 0 <= i < |steps| ==>
         Enabled(cfg, states[i], steps[i]) && states[i + 1] == Next(cfg, states[i], steps[i])
  }

  // ---- what every state of every run satisfies ------------------------------------------------------

  /** Each version was first published with the changes of the one before and one more. */
  ghost predicate Chain(log: seq<Manifest>) {
    && |log| >= 1 && log[0].changes == []
    && forall v :: 1 <= v < |log| ==> log[v].changes == log[v - 1].changes + [log[v].call]
  }

  /** What is stored at a number is what was first published there or was put there later; the last version
      published is stored, so it is the latest. */
  ghost predicate StoreOk(s: State) {
    && |s.log| >= 1 && |s.log| in s.store && s.store[|s.log|] == s.log[|s.log| - 1]
    && (forall v :: v in s.store ==> StoredOk(s, v))
    && (forall p :: p in s.strays ==> 1 < p.version < |s.log| && TxnOk(s, p.manifest))
    && (forall v :: 1 <= v < |s.log| ==> TxnOk(s, s.log[v]))
  }

  ghost predicate StoredOk(s: State, v: nat)
    requires v in s.store
  {
    1 <= v <= |s.log| && (s.store[v] == s.log[v - 1] || Stray(v, s.store[v]) in s.strays)
  }

  /** A manifest of a call that ran, of one of the publishes it made. */
  ghost predicate TxnOk(s: State, m: Manifest) {
    m.call in s.calls && 1 <= m.txn <= s.calls[m.call].puts
  }

  /** Version v's number was put at again after its removal. */
  ghost predicate Reused(s: State, v: nat) {
    exists p :: p in s.strays && p.version == v
  }

  /** c's change is compatible with the first publish of every version between, but for numbers reused. */
  ghost predicate Over(cfg: Config, s: State, c: CallId, from: nat, at: nat) {
    forall v :: 1 <= v < |s.log| && from <= v < at - 1 ==>
      cfg.verdict(c, s.log[v].call) == Compatible || Reused(s, v + 1)
  }

  /** The call's manifest was published as version v. */
  ghost predicate PublishedAs(s: State, c: CallId, v: nat) {
    (1 < v <= |s.log| && s.log[v - 1].call == c) || exists p :: p in s.strays && p.version == v && p.manifest.call == c
  }

  ghost predicate CallOk(cfg: Config, s: State, c: CallId)
    requires c in s.calls
  {
    var call := s.calls[c];
    && 1 <= call.readAt <= |s.log| && call.puts <= cfg.attempts + 1
    && (call.lost ==> call.phase == Failed(IoError))
    && (!cfg.objectStore ==> call.unrecognised == 0 && !call.lost && !call.phase.Checking?)
    && (match call.phase
        case Publishing(at, changes) =>
          && call.readAt < at <= |s.log| + 1 && call.puts <= cfg.attempts
          && (at == |s.log| + 1 ==> changes == s.log[at - 2].changes + [c])
          && Over(cfg, s, c, call.readAt, at)
        case Checking(at, created) => 1 < at <= |s.log| && (created || !IsOwn(s, c, at))
        case Committed(v) => PublishedAs(s, c, v)
        case _ => true)
  }

  /** The version after v was published over versions its change is compatible with, back to the one read. */
  ghost predicate VersionOk(cfg: Config, s: State, v: nat)
    requires v < |s.log|
  {
    v >= 1 ==>
      var c := s.log[v].call;
      c in s.calls && s.calls[c].readAt <= v && Over(cfg, s, c, s.calls[c].readAt, v + 1)
  }

  /** The changes of the latest version, and how often c's is among them. */
  function Table(s: State): seq<CallId> {
    if s.log == [] then [] else s.log[|s.log| - 1].changes
  }

  function Times(s: State, c: CallId): nat {
    multiset(Table(s))[c]
  }

  /** c's manifests at numbers published before. */
  function StraysOf(s: State, c: CallId): set<Stray> {
    set p | p in s.strays && p.manifest.call == c
  }

  function One(b: bool): nat {
    if b then 1 else 0
  }

  /** How often c's change was published, in terms of what the call went through. */
  ghost predicate Accounted(s: State, c: CallId)
    requires c in s.calls
  {
    var call := s.calls[c];
    Times(s, c) + |StraysOf(s, c)|
    == call.unrecognised + One(call.lost) + One(call.phase.Committed?) + One(call.phase.Checking? && call.phase.created)
  }

  ghost predicate Inv(cfg: Config, s: State) {
    && Chain(s.log) && StoreOk(s)
    && (forall c :: c in s.calls ==> CallOk(cfg, s, c))
    && (forall v :: 0 <= v < |s.log| ==> VersionOk(cfg, s, v))
    && (forall c :: c in s.calls ==> Accounted(s, c))
    && (forall c :: c !in s.calls ==> Times(s, c) == 0 && StraysOf(s, c) == {})
  }

  lemma InitInv(cfg: Config, s: State)
    requires Init(s)
    ensures Inv(cfg, s)
  {
  }

  /** Only c moved, the history only grew, and what is new in the store is c's. */
  ghost predicate OnlyMoves(s: State, s': State, c: CallId) {
    && s.log <= s'.log && s.strays <= s'.strays
    && c in s'.calls && s'.calls == s.calls[c := s'.calls[c]]
    && (c in s.calls ==> s'.calls[c].readAt == s.calls[c].readAt && s.calls[c].puts <= s'.calls[c].puts)
    && (forall v :: v in s'.store ==> (v in s.store && s'.store[v] == s.store[v]) || s'.store[v].call == c)
  }

  lemma OverKept(cfg: Config, s: State, s': State, c: CallId, from: nat, at: nat)
    requires Over(cfg, s, c, from, at) && at <= |s.log| + 1 && s.log <= s'.log && s.strays <= s'.strays
    ensures Over(cfg, s', c, from, at)
  {
    forall v | 1 <= v < |s'.log| && from <= v < at - 1
      ensures cfg.verdict(c, s'.log[v].call) == Compatible || Reused(s', v + 1)
    {
      assert s.log[v] == s'.log[v];
    }
  }

  lemma CallOkKept(cfg: Config, s: State, s': State, c: CallId, d: CallId)
    requires OnlyMoves(s, s', c) && d in s.calls && d != c && CallOk(cfg, s, d)
    ensures CallOk(cfg, s', d)
  {
    hide Over;
    if s.calls[d].phase.Publishing? {
      OverKept(cfg, s, s', d, s.calls[d].readAt, s.calls[d].phase.at);
    }
  }

  lemma VersionOkKept(cfg: Config, s: State, s': State, c: CallId, v: nat)
    requires OnlyMoves(s, s', c) && v < |s.log| && VersionOk(cfg, s, v)
    ensures VersionOk(cfg, s', v)
  {
    hide Over;
    if v >= 1 {
      OverKept(cfg, s, s', s.log[v].call, s.calls[s.log[v].call].readAt, v + 1);
    }
  }

  lemma OthersKept(cfg: Config, s: State, s': State, c: CallId)
    requires Inv(cfg, s) && OnlyMoves(s, s', c)
    ensures forall d :: d in s'.calls && d != c ==> CallOk(cfg, s', d)
    ensures forall v :: 0 <= v < |s.log| ==> VersionOk(cfg, s', v)
  {
    hide CallOk, VersionOk, Accounted, Chain, StoreOk, Times, StraysOf;
    forall d | d in s'.calls && d != c ensures CallOk(cfg, s', d) { CallOkKept(cfg, s, s', c, d); }
    forall v | 0 <= v < |s.log| ensures VersionOk(cfg, s', v) { VersionOkKept(cfg, s, s', c, v); }
  }

  lemma StoreOkKept(s: State, s': State, c: CallId)
    requires StoreOk(s) && OnlyMoves(s, s', c) && s'.store == s.store && s'.log == s.log && s'.strays == s.strays
    ensures StoreOk(s')
  {
  }

  /** A step of c that publishes nothing. */
  lemma CallStepKeeps(cfg: Config, s: State, s': State, c: CallId)
    requires Inv(cfg, s) && OnlyMoves(s, s', c) && s'.store == s.store && s'.log == s.log && s'.strays == s.strays
    requires CallOk(cfg, s', c) && Accounted(s', c)
    ensures Inv(cfg, s')
  {
    hide CallOk, VersionOk, Chain, StoreOk;
    OthersKept(cfg, s, s', c);
    StoreOkKept(s, s', c);
    assert forall d :: Times(s', d) == Times(s, d) && StraysOf(s', d) == StraysOf(s, d);
  }

  lemma BeginKeeps(cfg: Config, s: State, c: CallId, readAt: nat)
    requires Inv(cfg, s) && Enabled(cfg, s, Begin(c, readAt))
    ensures Inv(cfg, Next(cfg, s, Begin(c, readAt)))
  {
    hide VersionOk, Times;
    var s' := Next(cfg, s, Begin(c, readAt));
    assert Times(s', c) == Times(s, c) && StraysOf(s', c) == StraysOf(s, c) by { Same(s, s', c); }
    CallStepKeeps(cfg, s, s', c);
  }

  lemma Same(s: State, s': State, c: CallId)
    requires s'.log == s.log && s'.strays == s.strays
    ensures Times(s', c) == Times(s, c) && StraysOf(s', c) == StraysOf(s, c)
  {
  }

  lemma RebasedCallOk(cfg: Config, s: State, c: CallId, latest: nat)
    requires Enabled(cfg, s, Rebase(c, latest)) && StoreOk(s) && CallOk(cfg, s, c)
    ensures CallOk(cfg, Next(cfg, s, Rebase(c, latest)), c)
  {
    hide Over;
    var s' := Next(cfg, s, Rebase(c, latest));
    assert StoredOk(s, latest) && latest == |s.log|;
    if s'.calls[c].phase.Publishing? {
      RebasedOver(cfg, s, c, latest);
      OverKept(cfg, s, s', c, s.calls[c].readAt, latest + 1);
    }
  }

  lemma RebaseKeeps(cfg: Config, s: State, c: CallId, latest: nat)
    requires Inv(cfg, s) && Enabled(cfg, s, Rebase(c, latest))
    ensures Inv(cfg, Next(cfg, s, Rebase(c, latest)))
  {
    hide VersionOk, Times, StraysOf, Chain, StoreOk;
    var s' := Next(cfg, s, Rebase(c, latest));
    assert CallOk(cfg, s, c) && Accounted(s, c);
    Same(s, s', c);
    RebasedCallOk(cfg, s, c, latest);
    CallStepKeeps(cfg, s, s', c);
  }

  lemma RebasedOver(cfg: Config, s: State, c: CallId, latest: nat)
    requires c in s.calls && StoreOk(s) && latest in s.store
    requires Classify(cfg, s.store, s.gone, c, s.calls[c].readAt, latest) == AllCompatible
    ensures Over(cfg, s, c, s.calls[c].readAt, latest + 1)
  {
    var from := s.calls[c].readAt;
    forall v | 1 <= v < |s.log| && from <= v < latest
      ensures cfg.verdict(c, s.log[v].call) == Compatible || Reused(s, v + 1)
    {
      var u := v + 1;
      assert u in s.store && cfg.verdict(c, s.store[u].call) == Compatible;
      assert s.store[u] == s.log[u - 1] || Stray(u, s.store[u]).version == u;
    }
  }

  lemma ReadBackKeeps(cfg: Config, s: State, c: CallId, readable: bool, dropped: bool)
    requires Inv(cfg, s) && Enabled(cfg, s, ReadBack(c, readable, dropped))
    ensures Inv(cfg, Next(cfg, s, ReadBack(c, readable, dropped)))
  {
    hide VersionOk, Times, StraysOf, Over, Chain, StoreOk;
    var s' := Next(cfg, s, ReadBack(c, readable, dropped));
    assert CallOk(cfg, s, c) && Accounted(s, c);
    Same(s, s', c);
    if IsOwn(s, c, s.calls[c].phase.at) { OwnPublished(s, c, s.calls[c].phase.at); }
    CallStepKeeps(cfg, s, s', c);
  }

  lemma OwnPublished(s: State, c: CallId, at: nat)
    requires StoreOk(s) && c in s.calls && at > 1 && IsOwn(s, c, at)
    ensures PublishedAs(s, c, at)
  {
    assert StoredOk(s, at);
  }

  lemma GiveUpKeeps(cfg: Config, s: State, c: CallId, why: Failure)
    requires Inv(cfg, s) && Enabled(cfg, s, GiveUp(c, why))
    ensures Inv(cfg, Next(cfg, s, GiveUp(c, why)))
  {
    hide VersionOk, Times, StraysOf, Over, Chain, StoreOk;
    var s' := Next(cfg, s, GiveUp(c, why));
    assert CallOk(cfg, s, c) && Accounted(s, c);
    Same(s, s', c);
    CallStepKeeps(cfg, s, s', c);
  }

  lemma CleanedCallOk(cfg: Config, s: State, asOf: nat, removed: set<nat>, c: CallId)
    requires Enabled(cfg, s, Cleanup(asOf, removed)) && c in s.calls && CallOk(cfg, s, c)
    ensures CallOk(cfg, Next(cfg, s, Cleanup(asOf, removed)), c)
  {
    hide Over;
    var s' := Next(cfg, s, Cleanup(asOf, removed));
    if s.calls[c].phase.Publishing? {
      OverKept(cfg, s, s', c, s.calls[c].readAt, s.calls[c].phase.at);
    }
  }

  lemma CleanedVersionOk(cfg: Config, s: State, asOf: nat, removed: set<nat>, v: nat)
    requires Enabled(cfg, s, Cleanup(asOf, removed)) && v < |s.log| && VersionOk(cfg, s, v)
    ensures VersionOk(cfg, Next(cfg, s, Cleanup(asOf, removed)), v)
  {
    hide Over;
    var s' := Next(cfg, s, Cleanup(asOf, removed));
    if v >= 1 { OverKept(cfg, s, s', s.log[v].call, s.calls[s.log[v].call].readAt, v + 1); }
  }

  lemma CleanedStore(cfg: Config, s: State, asOf: nat, removed: set<nat>)
    requires Enabled(cfg, s, Cleanup(asOf, removed)) && StoreOk(s)
    ensures StoreOk(Next(cfg, s, Cleanup(asOf, removed)))
  {
    assert StoredOk(s, asOf);
    var s' := Next(cfg, s, Cleanup(asOf, removed));
    forall v | v in s'.store ensures StoredOk(s', v) { assert StoredOk(s, v); }
  }

  /** A cleanup changes what is stored, not what was published, and leaves the latest version. */
  lemma CleanupKeeps(cfg: Config, s: State, asOf: nat, removed: set<nat>)
    requires Inv(cfg, s) && Enabled(cfg, s, Cleanup(asOf, removed))
    ensures Inv(cfg, Next(cfg, s, Cleanup(asOf, removed)))
  {
    hide CallOk, VersionOk, StoreOk, Chain, Times, StraysOf;
    var s' := Next(cfg, s, Cleanup(asOf, removed));
    CleanedStore(cfg, s, asOf, removed);
    forall c ensures Times(s', c) == Times(s, c) && StraysOf(s', c) == StraysOf(s, c) { Same(s, s', c); }
    forall c | c in s'.calls ensures CallOk(cfg, s', c) { CleanedCallOk(cfg, s, asOf, removed, c); }
    forall v | 0 <= v < |s'.log| ensures VersionOk(cfg, s', v) { CleanedVersionOk(cfg, s, asOf, removed, v); }
  }

  // ---- the publish ---------------------------------------------------------------------------------

  /** The manifest c is about to put. */
  function ToPut(s: State, c: CallId): Manifest
    requires c in s.calls && s.calls[c].phase.Publishing?
  {
    Manifest(c, s.calls[c].puts + 1, s.calls[c].phase.changes)
  }

  lemma CreatedChain(cfg: Config, s: State, c: CallId, answer: Answer, dropped: bool)
    requires Inv(cfg, s) && Enabled(cfg, s, Put(c, true, answer, dropped))
    ensures Chain(Next(cfg, s, Put(c, true, answer, dropped)).log)
  {
    hide VersionOk, Accounted, Times, StraysOf, Over, StoreOk;
    assert CallOk(cfg, s, c);
  }

  lemma CreatedStore(cfg: Config, s: State, c: CallId, answer: Answer, dropped: bool)
    requires Inv(cfg, s) && Enabled(cfg, s, Put(c, true, answer, dropped))
    ensures StoreOk(Next(cfg, s, Put(c, true, answer, dropped)))
  {
    hide Chain, VersionOk, Accounted, Times, StraysOf, Over, TxnOk, StoredOk;
    var s' := Next(cfg, s, Put(c, true, answer, dropped));
    assert CallOk(cfg, s, c);
    var at := s.calls[c].phase.at;
    assert at != |s.log|;
    TxnsKept(s, s', c);
    assert TxnOk(s', ToPut(s, c)) by { CreatedTxn(cfg, s, c, answer, dropped); }
    forall v | v in s'.store ensures StoredOk(s', v) {
      CreatedStored(cfg, s, c, answer, dropped, v);
    }
    forall v | 1 <= v < |s'.log| ensures TxnOk(s', s'.log[v]) {
      if v < |s.log| { assert TxnOk(s, s.log[v]); }
    }
  }

  lemma TxnsKept(s: State, s': State, c: CallId)
    requires OnlyMoves(s, s', c)
    ensures forall m :: TxnOk(s, m) ==> TxnOk(s', m)
  {
  }

  lemma CreatedTxn(cfg: Config, s: State, c: CallId, answer: Answer, dropped: bool)
    requires Enabled(cfg, s, Put(c, true, answer, dropped))
    ensures TxnOk(Next(cfg, s, Put(c, true, answer, dropped)), ToPut(s, c))
  {
  }

  lemma CreatedStored(cfg: Config, s: State, c: CallId, answer: Answer, dropped: bool, v: nat)
    requires Enabled(cfg, s, Put(c, true, answer, dropped)) && v in Next(cfg, s, Put(c, true, answer, dropped)).store
    requires 1 < s.calls[c].phase.at <= |s.log| + 1 && (v in s.store ==> StoredOk(s, v))
    ensures StoredOk(Next(cfg, s, Put(c, true, answer, dropped)), v)
  {
  }

  lemma CreatedCounts(cfg: Config, s: State, c: CallId, answer: Answer, dropped: bool, d: CallId)
    requires Inv(cfg, s) && Enabled(cfg, s, Put(c, true, answer, dropped))
    ensures var s' := Next(cfg, s, Put(c, true, answer, dropped));
            Times(s', d) + |StraysOf(s', d)| == Times(s, d) + |StraysOf(s, d)| + One(d == c)
            && (d != c ==> Times(s', d) == Times(s, d) && StraysOf(s', d) == StraysOf(s, d))
  {
    hide VersionOk, Accounted, Over, Times, StraysOf;
    var s' := Next(cfg, s, Put(c, true, answer, dropped));
    assert CallOk(cfg, s, c);
    var at := s.calls[c].phase.at;
    if at > |s.log| {
      TimesGrow(s, s', ToPut(s, c), d);
    } else {
      assert Stray(at, ToPut(s, c)) !in s.strays;
      StraysGrow(s, s', Stray(at, ToPut(s, c)), d);
    }
  }

  lemma TimesGrow(s: State, s': State, m: Manifest, d: CallId)
    requires |s.log| >= 1 && s'.log == s.log + [m] && s'.strays == s.strays
    requires m.changes == s.log[|s.log| - 1].changes + [m.call]
    ensures Times(s', d) == Times(s, d) + One(d == m.call) && StraysOf(s', d) == StraysOf(s, d)
  {
    assert Table(s') == Table(s) + [m.call];
  }

  lemma StraysGrow(s: State, s': State, p: Stray, d: CallId)
    requires s'.log == s.log && s'.strays == s.strays + {p} && p !in s.strays
    ensures Times(s', d) == Times(s, d) && |StraysOf(s', d)| == |StraysOf(s, d)| + One(d == p.manifest.call)
    ensures d != p.manifest.call ==> StraysOf(s', d) == StraysOf(s, d)
  {
    assert StraysOf(s', d) == StraysOf(s, d) + if d == p.manifest.call then {p} else {};
  }

  lemma CreatedCallOk(cfg: Config, s: State, c: CallId, answer: Answer, dropped: bool)
    requires Inv(cfg, s) && Enabled(cfg, s, Put(c, true, answer, dropped))
    ensures CallOk(cfg, Next(cfg, s, Put(c, true, answer, dropped)), c)
  {
    hide VersionOk, Accounted, Times, StraysOf, Over;
    var s' := Next(cfg, s, Put(c, true, answer, dropped));
    assert CallOk(cfg, s, c);
    var at := s.calls[c].phase.at;
    if at <= |s.log| { assert Stray(at, ToPut(s, c)) in s'.strays; }
  }

  lemma PublishingNotLost(cfg: Config, s: State, c: CallId)
    requires c in s.calls && s.calls[c].phase.Publishing? && CallOk(cfg, s, c)
    ensures !s.calls[c].lost
  {
  }

  lemma CreatedVersionOk(cfg: Config, s: State, c: CallId, answer: Answer, dropped: bool)
    requires Inv(cfg, s) && Enabled(cfg, s, Put(c, true, answer, dropped)) && s.calls[c].phase.at > |s.log|
    ensures VersionOk(cfg, Next(cfg, s, Put(c, true, answer, dropped)), |s.log|)
  {
    hide Accounted, Times, StraysOf, Over, Chain, StoreOk;
    var s' := Next(cfg, s, Put(c, true, answer, dropped));
    assert CallOk(cfg, s, c);
    OverKept(cfg, s, s', c, s.calls[c].readAt, s.calls[c].phase.at);
  }

  /** A put that creates: one more publish of the call's change. */
  lemma CreateKeeps(cfg: Config, s: State, c: CallId, answer: Answer, dropped: bool)
    requires Inv(cfg, s) && Enabled(cfg, s, Put(c, true, answer, dropped))
    ensures Inv(cfg, Next(cfg, s, Put(c, true, answer, dropped)))
  {
    hide CallOk, VersionOk, StoreOk, Chain, Times, StraysOf;
    var s' := Next(cfg, s, Put(c, true, answer, dropped));
    OthersKept(cfg, s, s', c);
    CreatedChain(cfg, s, c, answer, dropped);
    CreatedStore(cfg, s, c, answer, dropped);
    CreatedCallOk(cfg, s, c, answer, dropped);
    assert !s.calls[c].lost by { PublishingNotLost(cfg, s, c); }
    forall d ensures d in s'.calls ==> Accounted(s', d)
      ensures d !in s'.calls ==> Times(s', d) == 0 && StraysOf(s', d) == {}
    {
      CreatedCounts(cfg, s, c, answer, dropped, d);
      assert d in s.calls ==> Accounted(s, d);
    }
    if s.calls[c].phase.at > |s.log| { CreatedVersionOk(cfg, s, c, answer, dropped); }
  }

  /** A put that finds its version taken, or fails. */
  lemma NoCreateKeeps(cfg: Config, s: State, c: CallId, answer: Answer, dropped: bool)
    requires Inv(cfg, s) && Enabled(cfg, s, Put(c, false, answer, dropped))
    ensures Inv(cfg, Next(cfg, s, Put(c, false, answer, dropped)))
  {
    hide Times, StraysOf, Over, Chain, VersionOk;
    var s' := Next(cfg, s, Put(c, false, answer, dropped));
    assert CallOk(cfg, s, c) && Accounted(s, c);
    Same(s, s', c);
    var at := s.calls[c].phase.at;
    if at in s.store && s.store[at] == s.log[at - 1] {
      assert TxnOk(s, s.log[at - 1]);
    }
    CallStepKeeps(cfg, s, s', c);
  }

  lemma StepKeeps(cfg: Config, s: State, step: Step)
    requires Inv(cfg, s) && Enabled(cfg, s, step)
    ensures Inv(cfg, Next(cfg, s, step))
  {
    hide Inv;
    match step
    case Begin(c, readAt) => BeginKeeps(cfg, s, c, readAt);
    case Put(c, created, answer, dropped) =>
      if created { CreateKeeps(cfg, s, c, answer, dropped); } else { NoCreateKeeps(cfg, s, c, answer, dropped); }
    case ReadBack(c, readable, dropped) => ReadBackKeeps(cfg, s, c, readable, dropped);
    case Rebase(c, latest) => RebaseKeeps(cfg, s, c, latest);
    case GiveUp(c, why) => GiveUpKeeps(cfg, s, c, why);
    case Cleanup(asOf, removed) => CleanupKeeps(cfg, s, asOf, removed);
  }

  lemma {:induction false} RunInv(cfg: Config, states: seq<State>, steps: seq<Step>, i: nat)
    requires IsRun(cfg, states, steps) && i < |states|
    ensures Inv(cfg, states[i])
    decreases i
  {
    hide Inv, Enabled, Next;
    if i == 0 {
      InitInv(cfg, states[0]);
    } else {
      RunInv(cfg, states, steps, i - 1);
      assert states[i - 1 + 1] == Next(cfg, states[i - 1], steps[i - 1]);
      StepKeeps(cfg, states[i - 1], steps[i - 1]);
    }
  }
}
