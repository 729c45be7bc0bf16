/** The file sizes wasm/weblance_glue.cpp keeps (`g_sizes`), filled from listings and probes: what size a file is
    opened at, and which files are refused without a request. */
module Sizes {
  import opened Options
  import opened Text
  import opened Remote
  import opened Listing
  import opened Pages

  /** The sizes after recording the files of a listing. */
  ghost function Recorded(sizes: map<string, nat>, r: Remote, es: seq<DirEntry>): map<string, nat> {
    if es == [] then sizes
    else
      var before := Recorded(sizes, r, es[..|es| - 1]);
      var e := es[|es| - 1];
      if e.isDir then before else before[Key(r, e.name) := e.size]
  }

  lemma {:induction false} RecordedAppend(sizes: map<string, nat>, r: Remote, a: seq<DirEntry>, b: seq<DirEntry>)
    ensures Recorded(Recorded(sizes, r, a), r, b) == Recorded(sizes, r, a + b)
    decreases |b|
  {
    hide Key;
    if b == [] {
      assert a + b == a;
    } else {
      var n := |b| - 1;
      RecordedAppend(sizes, r, a, b[..n]);
      assert (a + b)[..|a + b| - 1] == a + b[..n];
    }
  }

  /** The size the last file entry of the listing under this key gives. */
  ghost function GivenBy(r: Remote, es: seq<DirEntry>, key: string): Option<nat> {
    if es == [] then None
    else
      var e := es[|es| - 1];
      if !e.isDir && Key(r, e.name) == key then Some(e.size) else GivenBy(r, es[..|es| - 1], key)
  }

  lemma {:induction false} RecordedIs(sizes: map<string, nat>, r: Remote, es: seq<DirEntry>, key: string)
    ensures key in Recorded(sizes, r, es) <==> key in sizes || GivenBy(r, es, key).Some?
    ensures key in Recorded(sizes, r, es) ==>
              Recorded(sizes, r, es)[key] == if GivenBy(r, es, key).Some? then GivenBy(r, es, key).value else sizes[key]
    decreases |es|
  {
    hide Key;
    if es != [] { RecordedIs(sizes, r, es[..|es| - 1], key); }
  }

  lemma KeyInjective(r: Remote, a: string, b: string)
    requires a != b
    ensures Key(r, a) != Key(r, b)
  {
    SameHead(r.base + Prefix(r), a, b);
    assert Key(r, a) == r.base + Prefix(r) + a && Key(r, b) == r.base + Prefix(r) + b;
  }

  /** No entry after the i-th names the same file. */
  ghost predicate LastNamed(es: seq<DirEntry>, i: nat) {
    i < |es| && !es[i].isDir && forall j :: i < j < |es| ==> es[j].isDir || es[j].name != es[i].name
  }

  lemma {:induction false} GivenLast(r: Remote, es: seq<DirEntry>, i: nat)
    requires LastNamed(es, i)
    ensures GivenBy(r, es, Key(r, es[i].name)) == Some(es[i].size)
    decreases |es|
  {
    hide Key;
    var n := |es| - 1;
    if i < n {
      if es[n].name != es[i].name { KeyInjective(r, es[n].name, es[i].name); }
      GivenLast(r, es[..n], i);
    }
  }

  lemma {:induction false} GivenNames(r: Remote, es: seq<DirEntry>, name: string)
    ensures GivenBy(r, es, Key(r, name)).Some? <==> Names(es, name)
    decreases |es|
  {
    hide Key;
    if es != [] {
      var n := |es| - 1;
      if es[n].name != name { KeyInjective(r, es[n].name, name); }
      GivenNames(r, es[..n], name);
      if Names(es[..n], name) {
        var i :| 0 <= i < n && !es[..n][i].isDir && es[..n][i].name == name;
        assert es[i] == es[..n][i];
      }
      if Names(es, name) && !(!es[n].isDir && es[n].name == name) {
        var i :| 0 <= i < |es| && !es[i].isDir && es[i].name == name;
        assert es[..n][i] == es[i];
      }
    }
  }

  /** Every file of a listing has a size, the one its last entry gives; no other size changes and none is lost. */
  lemma RecordedHas(sizes: map<string, nat>, r: Remote, es: seq<DirEntry>, name: string)
    ensures Key(r, name) in Recorded(sizes, r, es) <==> Key(r, name) in sizes || Names(es, name)
    ensures forall i :: 0 <= i < |es| && LastNamed(es, i) && es[i].name == name ==>
              Key(r, name) in Recorded(sizes, r, es) && Recorded(sizes, r, es)[Key(r, name)] == es[i].size
    ensures !Names(es, name) && Key(r, name) in sizes ==>
              Recorded(sizes, r, es)[Key(r, name)] == sizes[Key(r, name)]
  {
    hide Key, Recorded, GivenBy;
    RecordedIs(sizes, r, es, Key(r, name));
    GivenNames(r, es, name);
    forall i | 0 <= i < |es| && LastNamed(es, i) && es[i].name == name
      ensures Key(r, name) in Recorded(sizes, r, es) && Recorded(sizes, r, es)[Key(r, name)] == es[i].size
    {
      GivenLast(r, es, i);
    }
  }

  /** Every size is the file's. */
  ghost predicate SizesTrue(sizes: map<string, nat>, truth: string -> nat) {
    forall k :: k in sizes ==> sizes[k] == truth(k)
  }

  ghost predicate EntriesTrue(r: Remote, es: seq<DirEntry>, truth: string -> nat) {
    forall i :: 0 <= i < |es| && !es[i].isDir ==> es[i].size == truth(Key(r, es[i].name))
  }

  lemma {:induction false} RecordedTrue(sizes: map<string, nat>, r: Remote, es: seq<DirEntry>, truth: string -> nat)
    requires SizesTrue(sizes, truth) && EntriesTrue(r, es, truth)
    ensures SizesTrue(Recorded(sizes, r, es), truth)
    decreases |es|
  {
    hide Key;
    if es != [] {
      var n := |es| - 1;
      assert EntriesTrue(r, es[..n], truth) by {
        forall i | 0 <= i < n && !es[..n][i].isDir ensures es[..n][i].size == truth(Key(r, es[..n][i].name)) {
          assert es[..n][i] == es[i];
        }
      }
      RecordedTrue(sizes, r, es[..n], truth);
    }
  }

  // ---- over the whole history ----------------------------------------------------------------------

  /** What filled the sizes: the pages of one walk, or a probe. */
  datatype Recording = FromListing(remote: Remote, es: seq<DirEntry>) | FromProbe(uri: string, size: nat)

  ghost function Apply(sizes: map<string, nat>, rec: Recording): map<string, nat> {
    match rec
    case FromListing(r, es) => Recorded(sizes, r, es)
    case FromProbe(uri, size) => sizes[uri := size]
  }

  ghost function Replay(history: seq<Recording>): map<string, nat> {
    if history == [] then map[] else Apply(Replay(history[..|history| - 1]), history[|history| - 1])
  }

  /** The size one recording gives a file, if any. */
  ghost function Given(rec: Recording, key: string): Option<nat> {
    match rec
    case FromListing(r, es) => GivenBy(r, es, key)
    case FromProbe(uri, size) => if uri == key then Some(size) else None
  }

  /** The last size given from the k-th recording on. */
  ghost function GivenFrom(history: seq<Recording>, k: nat, key: string): Option<nat>
    requires k <= |history|
    decreases |history|
  {
    if k == |history| then None
    else
      var n := |history| - 1;
      if Given(history[n], key).Some? then Given(history[n], key) else GivenFrom(history[..n], k, key)
  }

  lemma AppliedIs(sizes: map<string, nat>, rec: Recording, key: string)
    ensures key in Apply(sizes, rec) <==> key in sizes || Given(rec, key).Some?
    ensures key in Apply(sizes, rec) ==>
              Apply(sizes, rec)[key] == if Given(rec, key).Some? then Given(rec, key).value else sizes[key]
  {
    hide Recorded, GivenBy;
    if rec.FromListing? { RecordedIs(sizes, rec.remote, rec.es, key); }
  }

  lemma {:induction false} ReplayIs(history: seq<Recording>, k: nat, key: string)
    requires k <= |history|
    ensures var g := GivenFrom(history, k, key); var before := Replay(history[..k]);
            (key in Replay(history) <==> key in before || g.Some?)
            && (key in Replay(history) ==> Replay(history)[key] == if g.Some? then g.value else before[key])
    decreases |history|
  {
    hide Apply, Given;
    if k == |history| {
      assert history[..k] == history;
    } else {
      var n := |history| - 1;
      ReplayIs(history[..n], k, key);
      assert history[..n][..k] == history[..k];
      AppliedIs(Replay(history[..n]), history[n], key);
    }
  }

  lemma ReplayPush(history: seq<Recording>, rec: Recording)
    ensures Replay(history + [rec]) == Apply(Replay(history), rec)
  {
    assert (history + [rec])[..|history|] == history;
  }

  /** The cached listing es of d is the k-th recording. */
  ghost predicate Cached(d: string, es: seq<DirEntry>, history: seq<Recording>, k: nat) {
    RemoteOf(d).Some? && k < |history| && history[k] == FromListing(RemoteOf(d).value, es)
  }

  /** A file a cached listing names is allowed and has a recorded size: the one a recording after the listing
      gave last, and the listed one when none did. So it is opened at the listed size, that of its last entry,
      if and only if no later recording of the same file gave another. */
  lemma ListedIsKnown(d: string, es: seq<DirEntry>, history: seq<Recording>, k: nat, i: nat)
    requires Cached(d, es, history, k) && PlainDir(d) && LastNamed(es, i)
    ensures var uri := d + "/" + es[i].name; var later := GivenFrom(history, k + 1, uri);
            && AllowedUri(uri) && uri in Replay(history)
            && Replay(history)[uri] == (if later.Some? then later.value else es[i].size)
            && (Replay(history)[uri] == es[i].size <==> later == None || later == Some(es[i].size))
  {
    hide Key, PlainDir, Apply, Replay, GivenFrom, RemoteOf, AllowedUri;
    var r, uri := RemoteOf(d).value, d + "/" + es[i].name;
    KeyLaw(d, es[i].name);
    ReplayIs(history, k + 1, uri);
    ReplayPush(history[..k], history[k]);
    assert history[..k + 1] == history[..k] + [history[k]];
    AppliedIs(Replay(history[..k]), history[k], uri);
    assert Given(history[k], uri) == Some(es[i].size) by { GivenLast(r, es, i); }
    UnderIsAllowed(d, es[i].name);
  }

  lemma UnderIsAllowed(d: string, name: string)
    requires RemoteOf(d).Some?
    ensures AllowedUri(d + "/" + name)
  {
    hide FindWord, Find, Trimmed;
    var uri := d + "/" + name;
    if HF <= d {
      assert "https://" <= HF;
      assert HF <= uri;
    } else {
      assert IsLocalHttp(d);
      StillLocal(d, name, LOCALHOST);
      StillLocal(d, name, LOOPBACK);
    }
  }

  lemma StillLocal(d: string, name: string, p: string)
    ensures HostIs(d, p) ==> HostIs(d + "/" + name, p)
  {
    if HostIs(d, p) {
      assert p <= d + "/" + name;
    }
  }

  // ---- refusals ------------------------------------------------------------------------------------

  /** A file URL's directory and name. */
  function SplitUri(uri: string): Option<(string, string)> {
    match FindLast(uri, '/')
    case None => None
    case Some(k) => Some((uri[..k], uri[k + 1..]))
  }

  lemma SplitUnder(d: string, name: string)
    requires '/' !in name
    ensures SplitUri(d + "/" + name) == Some((d, name))
  {
    var uri := d + "/" + name;
    assert uri[|d|] == '/';
    forall j | |d| < j < |uri| ensures uri[j] != '/' { assert uri[j] == name[j - |d| - 1]; }
    assert uri[..|d|] == d && uri[|d| + 1..] == name;
  }

  /** `open_remote` refuses the file without a request: no size is known, and its directory was listed. */
  predicate Refused(uri: string, sizes: map<string, nat>, dirs: set<string>) {
    AllowedUri(uri) && uri !in sizes && SplitUri(uri).Some? && SplitUri(uri).value.0 in dirs
  }

  /** A file directly under d. */
  predicate RefusedUnder(d: string, name: string, sizes: map<string, nat>, dirs: set<string>) {
    '/' !in name && Refused(d + "/" + name, sizes, dirs)
  }

  lemma RefusedIs(d: string, name: string, sizes: map<string, nat>, dirs: set<string>)
    requires RemoteOf(d).Some? && d in dirs && '/' !in name
    ensures RefusedUnder(d, name, sizes, dirs) <==> d + "/" + name !in sizes
  {
    hide AllowedUri, SplitUri, RemoteOf;
    UnderIsAllowed(d, name);
    SplitUnder(d, name);
  }

  /** No refusal under d is of a file the server lists there. */
  ghost predicate RefusalsTrue(d: string, sizes: map<string, nat>, dirs: set<string>, pages: seq<seq<Listed>>) {
    RemoteOf(d).Some? &&
    forall name :: RefusedUnder(d, name, sizes, dirs) ==> !Lists(pages, Prefix(RemoteOf(d).value), name)
  }

  /** The pages not read name no file that the pages read do not, but such as had a size before. */
  ghost predicate NothingMissed(d: string, before: map<string, nat>, pages: seq<seq<Listed>>, n: nat)
    requires n <= |pages|
  {
    RemoteOf(d).Some? &&
    forall name :: Lists(pages[n..], Prefix(RemoteOf(d).value), name) ==>
      Lists(pages[..n], Prefix(RemoteOf(d).value), name) || d + "/" + name in before
  }

  /** The cached listing is taken for the whole listing. For a server with these pages, of which the walk read n:
      every file refused under a plain directory is one the server does not list, if and only if the pages not
      read name nothing new. */
  lemma RefusalsTrueIff(d: string, before: map<string, nat>, dirs: set<string>, pages: seq<seq<Listed>>, n: nat)
    requires RemoteOf(d).Some? && PlainDir(d) && d in dirs && n <= |pages|
    ensures var r := RemoteOf(d).value;
            RefusalsTrue(d, Recorded(before, r, DirectOnes(Flat(pages[..n]), Prefix(r))), dirs, pages)
            <==> NothingMissed(d, before, pages, n)
  {
    hide Recorded, DirectOnes, Flat, PlainDir, RemoteOf, RefusedUnder, Names;
    var r := RemoteOf(d).value;
    var read := DirectOnes(Flat(pages[..n]), Prefix(r));
    var sizes := Recorded(before, r, read);
    forall name | Lists(pages, Prefix(r), name)
      ensures RefusedUnder(d, name, sizes, dirs) <==> !Lists(pages[..n], Prefix(r), name) && d + "/" + name !in before
    {
      ListedName(Flat(pages), Prefix(r), name);
      RefusedIs(d, name, sizes, dirs);
      KeyLaw(d, name);
      RecordedHas(before, r, read, name);
    }
    forall name
      ensures Lists(pages, Prefix(r), name) <==>
              Lists(pages[..n], Prefix(r), name) || Lists(pages[n..], Prefix(r), name)
    {
      ListsSplit(pages, n, Prefix(r), name);
    }
  }

  /** After a complete walk no file the server lists is refused. */
  lemma CompleteRefusalsTrue(d: string, before: map<string, nat>, dirs: set<string>, net: (nat, nat) -> PageReply,
                             pages: seq<seq<Listed>>, n: nat)
    requires RemoteOf(d).Some? && PlainDir(d) && d in dirs && Answers(net, pages) && Walk(net, n, Complete)
    ensures var r := RemoteOf(d).value;
            RefusalsTrue(d, Recorded(before, r, ReadPages(net, Prefix(r), n)), dirs, pages)
  {
    hide Recorded, DirectOnes, PlainDir, RemoteOf, Page, ReadPages, RefusalsTrue, Render;
    var r := RemoteOf(d).value;
    WalkReads(net, pages, n, Complete);
    PagesFaithful(net, Prefix(r), pages, n);
    RefusalsTrueIff(d, before, dirs, pages, n);
    assert pages[n..] == [];
    DirectNone(Prefix(r));
  }
}
