/** The state of the browser reader in wasm/weblance_glue.cpp: the redirect cache with its retry machine, and the
    listing cache that answers "no such file" without a request. What the network answers is any function of the
    request's number. */
module Web {
  import opened Options
  import opened Text
  import opened Remote
  import opened Listing
  import opened Pages
  import opened Sizes

  /** A range request's status (206, another HTTP status, or a code of at most 0 when there was none), the URL that
      answered, and the total size it gave (negative when it gave none). */
  datatype RangeReply = RangeReply(status: int, responseUrl: string, total: int)

  datatype Opened = Source(size: nat) | NotAllowed | NotListed | ReadFailed | NoSize

  const URL_BUFFER := 8192
  const MAX_ATTEMPTS := 8
  const NETWORK_RETRIES := 6

  // ---- range reads ---------------------------------------------------------------------------------

  /** The URL a request ended at; one that may have been cut to the buffer counts as none. */
  function FinalUrl(r: RangeReply): string {
    if |r.responseUrl| + 1 >= URL_BUFFER then "" else r.responseUrl
  }

  function Learned(cache: map<string, string>, url: string, r: RangeReply): map<string, string> {
    if FinalUrl(r) != "" && FinalUrl(r) != url then cache[url := FinalUrl(r)] else cache
  }

  /** No entry sends a URL to itself or nowhere. */
  ghost predicate CacheOk(cache: map<string, string>) {
    forall u :: u in cache ==> cache[u] != "" && cache[u] != u
  }

  /** Request k was answered, with this total size. */
  ghost predicate GivesSize(net: nat -> RangeReply, k: nat, size: int) {
    net(k).status == 206 && net(k).total == size
  }

  /** n requests at the original URL, the first of them answered by reply `from`: none but the last got a status,
      the last succeeded exactly when the read did, and it went unanswered only as the seventh. */
  ghost predicate Tried(net: nat -> RangeReply, from: nat, n: nat, ok: bool) {
    && 1 <= n <= NETWORK_RETRIES + 1
    && (forall i :: from <= i < from + n - 1 ==> net(i).status <= 0)
    && (ok <==> net(from + n - 1).status == 206)
    && (net(from + n - 1).status <= 0 ==> n == NETWORK_RETRIES + 1)
  }

  ghost function Copies(url: string, n: nat): seq<string> {
    seq(n, _ => url)
  }

  lemma TriedNow(net: nat -> RangeReply, from: nat, last: nat, ok: bool)
    requires from <= last <= from + NETWORK_RETRIES && forall i :: from <= i < last ==> net(i).status <= 0
    requires (ok <==> net(last).status == 206) && (net(last).status <= 0 ==> last == from + NETWORK_RETRIES)
    ensures Tried(net, from, last + 1 - from, ok)
  {
  }

  lemma NoCopies(url: string)
    ensures Copies(url, 0) == []
  {
  }

  lemma OneMoreCopy(url: string, n: nat)
    ensures |Copies(url, n)| == n && Copies(url, n + 1) == Copies(url, n) + [url]
  {
  }

  lemma LearnedOk(cache: map<string, string>, url: string, r: RangeReply)
    ensures CacheOk(cache) ==> CacheOk(Learned(cache, url, r))
  {
    hide FinalUrl;
  }

  lemma ErasedOk(cache: map<string, string>, url: string)
    ensures CacheOk(cache) ==> CacheOk(cache - {url})
  {
  }

  // ---- listings ------------------------------------------------------------------------------------

  lemma CachedStays(d: string, es: seq<DirEntry>, history: seq<Recording>, k: nat, rec: Recording)
    requires Cached(d, es, history, k)
    ensures Cached(d, es, history + [rec], k)
  {
    hide RemoteOf;
  }

  lemma CachedNow(d: string, history: seq<Recording>, rec: Recording)
    requires RemoteOf(d).Some? && rec.FromListing? && rec.remote == RemoteOf(d).value
    ensures Cached(d, rec.es, history + [rec], |history|)
  {
    hide RemoteOf;
  }

  lemma RecordedNone(sizes: map<string, nat>, r: Remote)
    ensures Recorded(sizes, r, []) == sizes
  {
  }

  lemma FirstUrl(net: Net, first: string)
    ensures UrlAt(net, first, 0) == first
  {
  }

  lemma ListUrlNotEmpty(dir: string)
    requires RemoteOf(dir).Some?
    ensures RemoteOf(dir).value.listUrl != ""
  {
    hide Find, FindWord, Trimmed;
  }

  // ---- the reader ----------------------------------------------------------------------------------

  class Browser {
    var finalUrls: map<string, string>
    var sizes: map<string, nat>
    var listings: map<string, seq<DirEntry>>
    var requests: nat
    var fallbacks: nat
    /** What filled `sizes`, in order, and which of it each cached listing is. */
    ghost var history: seq<Recording>
    ghost var at: map<string, nat>

    constructor ()
      ensures Valid() && finalUrls == map[] && sizes == map[] && listings == map[] && history == []
    {
      finalUrls, sizes, listings, requests, fallbacks := map[], map[], map[], 0, 0;
      history, at := [], map[];
    }

    /** The sizes are what the recordings left, and every cached listing is one of them. */
    ghost predicate Valid()
      reads this
    {
      && CacheOk(finalUrls) && sizes == Replay(history) && at.Keys == listings.Keys
      && forall d :: d in listings ==> Cached(d, listings[d], history, at[d])
    }

    /** `range_read`: the requests it makes, in order, and what it leaves in the redirect cache. */
    method RangeRead(url: string, net: nat -> RangeReply)
      returns (ok: bool, total: int, ghost sent: seq<string>, ghost n: nat, ghost broke: bool)
      modifies this`finalUrls, this`requests, this`fallbacks
      ensures requests == old(requests) + |sent| && |sent| <= if url in old(finalUrls) then 8 else 7
      // The loop's bound is never what ends it.
      ensures ok || broke
      ensures old(CacheOk(finalUrls)) ==> CacheOk(finalUrls)
      ensures url in old(finalUrls) && net(0).status == 206 ==>
        && ok && n == 0 && total == net(0).total && sent == [old(finalUrls)[url]]
        && finalUrls == Learned(old(finalUrls), url, net(0)) && fallbacks == old(fallbacks)
      ensures !(url in old(finalUrls) && net(0).status == 206) ==>
        var c := if url in old(finalUrls) then 1 else 0;
        && Tried(net, c, n, ok)
        && sent == (if c == 1 then [old(finalUrls)[url]] else []) + Copies(url, n)
        && fallbacks == old(fallbacks) + c
        && (ok ==> total == net(c + n - 1).total && finalUrls == Learned(old(finalUrls) - {url}, url, net(c + n - 1)))
        && (!ok ==> finalUrls == old(finalUrls) - {url})
    {
      hide Learned, CacheOk, Copies, Tried;
      NoCopies(url);
      ghost var c := if url in finalUrls then 1 else 0;
      ghost var first := if c == 1 then [finalUrls[url]] else [];
      ghost var without := finalUrls - {url};
      assert c == 0 ==> without == finalUrls;
      var attempt, networkRetries := 0, NETWORK_RETRIES;
      ok, total, sent, n, broke := false, -1, [], 0, false;
      while attempt < MAX_ATTEMPTS
        invariant old(CacheOk(finalUrls)) ==> CacheOk(finalUrls)
        invariant attempt < c ==> finalUrls == old(finalUrls) && sent == [] && fallbacks == old(fallbacks)
        invariant attempt >= c ==> finalUrls == without && fallbacks == old(fallbacks) + c
        invariant attempt >= c ==> sent == first + Copies(url, attempt - c)
        invariant attempt >= 1 && c == 1 ==> net(0).status != 206
        invariant forall i :: c <= i < attempt ==> net(i).status <= 0
        invariant attempt >= c ==> networkRetries == NETWORK_RETRIES - (attempt - c)
        invariant 0 <= networkRetries <= NETWORK_RETRIES
        invariant attempt < c ==> networkRetries == NETWORK_RETRIES
        invariant !ok && !broke && requests == old(requests) + attempt && |sent| == attempt
      {
        var useCached := url in finalUrls;
        var requestUrl := if useCached then finalUrls[url] else url;
        var reply := net(attempt);
        requests := requests + 1;
        sent := sent + [requestUrl];
        OneMoreCopy(url, if attempt >= c then attempt - c else 0);
        if reply.status == 206 {
          LearnedOk(finalUrls, url, reply);
          finalUrls := Learned(finalUrls, url, reply);
          ok, total, n := true, reply.total, attempt + 1 - c;
          if useCached { n := 0; } else { TriedNow(net, c, attempt, true); }
          return;
        }
        if useCached {
          ErasedOk(finalUrls, url);
          finalUrls := finalUrls - {url};
          fallbacks := fallbacks + 1;
          attempt := attempt + 1;
          continue;
        }
        if reply.status <= 0 {
          networkRetries := networkRetries - 1;
          if networkRetries >= 0 {
            attempt := attempt + 1;
            continue;
          }
        }
        broke, n := true, attempt + 1 - c;
        TriedNow(net, c, attempt, false);
        break;
      }
    }

    /** `open_remote`: refused without a request exactly when `Refused` says so; opened at the recorded size
        without a request when there is one; else at the size one of the requests gave. */
    method OpenRemote(uri: string, net: nat -> RangeReply, ghost truth: string -> nat) returns (r: Opened)
      requires Valid()
      modifies this`finalUrls, this`requests, this`fallbacks, this`sizes, this`history
      ensures Valid() && listings == old(listings) && at == old(at)
      ensures r.NotAllowed? <==> !AllowedUri(uri)
      ensures r.NotListed? <==> Refused(uri, old(sizes), old(listings).Keys)
      ensures r.NotAllowed? || r.NotListed? ==> unchanged(this)
      ensures AllowedUri(uri) && uri in old(sizes) ==> r == Source(old(sizes)[uri]) && unchanged(this)
      ensures r.Source? && uri !in old(sizes) ==> exists k: nat :: k < MAX_ATTEMPTS && GivesSize(net, k, r.size)
      ensures sizes == if r.Source? then old(sizes)[uri := r.size] else old(sizes)
      ensures history == old(history) + if r.Source? && uri !in old(sizes) then [FromProbe(uri, r.size)] else []
      // Sizes that are the files' stay so, and a file is opened at its own.
      ensures SizesTrue(old(sizes), truth) && (forall k :: net(k).status == 206 ==> net(k).total == truth(uri)) ==>
        SizesTrue(sizes, truth) && (r.Source? ==> r.size == truth(uri))
    {
      hide CacheOk, AllowedUri, Learned, Replay, Cached, Copies;
      if !AllowedUri(uri) {
        return NotAllowed;
      }
      if uri !in sizes {
        var slash := FindLast(uri, '/');
        if slash.Some? && uri[..slash.value] in listings {
          return NotListed;
        }
        var ok, total, sent, n, broke := RangeRead(uri, net);
        if !ok {
          return ReadFailed;
        }
        if total < 0 {
          return NoSize;
        }
        assert exists k: nat :: k < MAX_ATTEMPTS && GivesSize(net, k, total) by {
          var c := if uri in old(finalUrls) then 1 else 0;
          var k := if uri in old(finalUrls) && net(0).status == 206 then 0 else c + n - 1;
          assert GivesSize(net, k, total);
        }
        sizes := sizes[uri := total];
        ReplayPush(history, FromProbe(uri, total));
        history := history + [FromProbe(uri, total)];
        forall d | d in listings ensures Cached(d, listings[d], history, at[d]) {
          CachedStays(d, listings[d], old(history), at[d], FromProbe(uri, total));
        }
      }
      r := Source(sizes[uri]);
    }

    /** One page, asked for up to six times. */
    method FetchPage(net: Net, url: string, page: nat) returns (p: PageReply)
      modifies this`requests
      ensures p == Asked(net, url, page, 0)
      ensures old(requests) < requests <= old(requests) + 6
    {
      var tries := 0;
      p := net(url, page, 0);
      requests := requests + 1;
      while p.status <= 0 && tries + 1 < PAGE_TRIES
        invariant tries < PAGE_TRIES && p == net(url, page, tries)
        invariant Asked(net, url, page, 0) == Asked(net, url, page, tries)
        invariant requests == old(requests) + tries + 1
        decreases PAGE_TRIES - tries
      {
        tries := tries + 1;
        p := net(url, page, tries);
        requests := requests + 1;
      }
    }

    method RecordSizes(remote: Remote, es: seq<DirEntry>)
      modifies this`sizes
      ensures sizes == Recorded(old(sizes), remote, es)
    {
      hide Key;
      for i := 0 to |es|
        invariant sizes == Recorded(old(sizes), remote, es[..i])
      {
        assert es[..i + 1][..i] == es[..i];
        if !es[i].isDir {
          sizes := sizes[Key(remote, es[i].name) := es[i].size];
        }
      }
      assert es[..|es|] == es;
    }

    /** `list_remote`: a walk from the directory's listing URL. The files of the pages read have their sizes
        recorded, even when a later page fails. */
    method ListRemote(dir: string, net: Net)
      returns (ok: bool, out: seq<DirEntry>, ghost n: nat, ghost end: WalkEnd)
      modifies this`requests, this`sizes
      ensures RemoteOf(dir).None? ==> !ok && out == [] && unchanged(this)
      ensures RemoteOf(dir).Some? ==>
        var remote := RemoteOf(dir).value;
        var walk := Along(net, remote.listUrl);
        && Walk(walk, n, end) && (ok <==> end != Failed)
        && out == (if ok then ReadPages(walk, Prefix(remote), n) else [])
        && sizes == Recorded(old(sizes), remote, ReadPages(walk, Prefix(remote), n))
    {
      hide Key, Recorded, Entries, Page, RemoteOf, Along, UrlAt, Asked;
      ok, out, n, end := false, [], 0, Failed;
      var r := RemoteFor(dir);
      if r.None? {
        return;
      }
      var prefix := Prefix(r.value);
      var next := r.value.listUrl;
      var page := 0;
      ghost var walk := Along(net, next);
      ghost var first := next;
      ListUrlNotEmpty(dir);
      assert UrlAt(net, first, 0) == first by { FirstUrl(net, first); }
      assert sizes == Recorded(sizes, r.value, []) by { RecordedNone(sizes, r.value); }
      while next != "" && page < MAX_PAGES
        invariant 0 <= page <= MAX_PAGES && Followed(walk, page) && (page == 0 ==> next != "")
        invariant next == UrlAt(net, first, page) && (page > 0 ==> next == Page(walk, page - 1).next)
        invariant out == ReadPages(walk, prefix, page) && sizes == Recorded(old(sizes), r.value, out)
      {
        AlongPage(net, first, page);
        var reply := FetchPage(net, next, page);
        if reply.status == 404 {
          ok, n, end := true, page, Missing;
          return;
        }
        if reply.status != 200 {
          n, out := page, [];
          return;
        }
        var es := ReadPage(reply.body, prefix);
        RecordSizes(r.value, es);
        RecordedAppend(old(sizes), r.value, out, es);
        out := out + es;
        next := reply.next;
        page := page + 1;
      }
      ok, n, end := true, page, if next == "" then Complete else Capped;
    }

    /** `list_cached`. */
    method ListCached(dir: string, net: Net, ghost truth: string -> nat)
      returns (ok: bool, out: seq<DirEntry>, ghost n: nat, ghost end: WalkEnd)
      requires Valid()
      modifies this`requests, this`sizes, this`listings, this`history, this`at
      ensures Valid()
      ensures dir in old(listings) ==> ok && out == old(listings)[dir] && unchanged(this)
      ensures dir !in old(listings) && RemoteOf(dir).None? ==> !ok && unchanged(this)
      ensures dir !in old(listings) && RemoteOf(dir).Some? ==>
        var remote := RemoteOf(dir).value;
        var walk := Along(net, remote.listUrl);
        var read := ReadPages(walk, Prefix(remote), n);
        && Walk(walk, n, end) && (ok <==> end != Failed) && (ok ==> out == read)
        && sizes == Recorded(old(sizes), remote, read)
        && listings == (if ok then old(listings)[dir := read] else old(listings))
        && history == old(history) + [FromListing(remote, read)]
        && (SizesTrue(old(sizes), truth) && EntriesTrue(remote, read, truth) ==> SizesTrue(sizes, truth))
    {
      hide Cached, CacheOk, Walk, ReadPages, Recorded, RemoteOf, Replay, SizesTrue, EntriesTrue;
      if dir in listings {
        return true, listings[dir], 0, Complete;
      }
      ok, out, n, end := ListRemote(dir, net);
      if RemoteOf(dir).Some? {
        ghost var remote := RemoteOf(dir).value;
        ghost var rec := FromListing(remote, ReadPages(Along(net, remote.listUrl), Prefix(remote), n));
        ReplayPush(history, rec);
        history := history + [rec];
        if SizesTrue(old(sizes), truth) && EntriesTrue(rec.remote, rec.es, truth) {
          RecordedTrue(old(sizes), rec.remote, rec.es, truth);
        }
        forall d | d in listings ensures Cached(d, listings[d], history, at[d]) {
          CachedStays(d, listings[d], old(history), at[d], rec);
        }
        CachedNow(dir, old(history), rec);
      }
      if ok {
        listings := listings[dir := out];
        at := at[dir := |history| - 1];
      }
    }

    /** Each open of a dataset reads a fresh snapshot of the directories. */
    method NewSnapshot()
      requires Valid()
      modifies this`listings, this`at
      ensures Valid() && listings == map[]
    {
      listings, at := map[], map[];
    }
  }

  // ---- runs ----------------------------------------------------------------------------------------

  /** Any plain directory with two pages: the second is not found, so the first is kept as the whole listing, and
      a file on the second page is refused without a request, though the server has it. */
  method LaterPageRefused(dir: string, pages: seq<seq<Listed>>, name: string, probe: nat -> RangeReply)
    returns (result: Opened, ghost net: (nat, nat) -> PageReply)
    requires RemoteOf(dir).Some? && PlainDir(dir) && |pages| == 2
    requires forall j :: 0 <= j < |pages[0]| ==> Plain(pages[0][j])
    requires Lists(pages[1..], Prefix(RemoteOf(dir).value), name)
    requires !Lists(pages[..1], Prefix(RemoteOf(dir).value), name)
    ensures Answers(net, pages) && Walk(net, 1, Missing)
    ensures result == NotListed && Lists(pages, Prefix(RemoteOf(dir).value), name)
  {
    hide Lists, RemoteOf, PlainDir, Recorded, DirectOnes, Replay, Refused, Render, Cached, Flat;
    var answers := (url: string, page: nat, tries: nat) =>
      if page == 0 then PageReply(200, Render(pages[0]), "next") else PageReply(404, "", "");
    net := Along(answers, RemoteOf(dir).value.listUrl);
    TwoPages(net, pages);
    var b := new Browser();
    var ok, out, n, end := b.ListCached(dir, answers, _ => 0);
    WalkOnce(net, n, end, 1, Missing);
    PagesFaithful(net, Prefix(RemoteOf(dir).value), pages, 1);
    MissedIsRefused(dir, map[], b.listings.Keys, pages, 1, name);
    result := b.OpenRemote(dir + "/" + name, probe, _ => 0);
  }

  lemma TwoPages(net: (nat, nat) -> PageReply, pages: seq<seq<Listed>>)
    requires |pages| == 2 && forall j :: 0 <= j < |pages[0]| ==> Plain(pages[0][j])
    requires forall page, tries :: net(page, tries) ==
               if page == 0 then PageReply(200, Render(pages[0]), "next") else PageReply(404, "", "")
    ensures Answers(net, pages) && Walk(net, 1, Missing)
  {
    hide Render;
    assert Page(net, 0) == PageReply(200, Render(pages[0]), "next");
    forall i: nat | i > 0 ensures Page(net, i) == PageReply(404, "", "") { assert net(i, 0).status == 404; }
  }

  /** A file directly under d on a page not read, named by no page read and without a size, is refused. */
  lemma MissedIsRefused(d: string, before: map<string, nat>, dirs: set<string>, pages: seq<seq<Listed>>, n: nat,
                        name: string)
    requires RemoteOf(d).Some? && PlainDir(d) && d in dirs && n <= |pages| && d + "/" + name !in before
    requires Lists(pages[n..], Prefix(RemoteOf(d).value), name) && !Lists(pages[..n], Prefix(RemoteOf(d).value), name)
    ensures var r := RemoteOf(d).value;
            Refused(d + "/" + name, Recorded(before, r, DirectOnes(Flat(pages[..n]), Prefix(r))), dirs)
    ensures Lists(pages, Prefix(RemoteOf(d).value), name)
  {
    hide Recorded, DirectOnes, Flat, PlainDir, RemoteOf, Refused, Names;
    var r := RemoteOf(d).value;
    var read := DirectOnes(Flat(pages[..n]), Prefix(r));
    ListedName(Flat(pages[n..]), Prefix(r), name);
    ListsSplit(pages, n, Prefix(r), name);
    RefusedIs(d, name, Recorded(before, r, read), dirs);
    KeyLaw(d, name);
    RecordedHas(before, r, read, name);
  }

  /** A directory's URL with one more slash at its end is another cache key for the same listing. Listed under
      both, with the file changed between, the first listing keeps the old size and the file opens at the new. */
  method AliasedListing(dir: string, name: string, was: nat, now: nat, probe: nat -> RangeReply)
    returns (listed: seq<DirEntry>, result: Opened)
    requires RemoteOf(dir).Some? && PlainDir(dir) && was != now && was <= U64_MAX && now <= U64_MAX
    requires name != "" && '/' !in name && Plain(Listed(Prefix(RemoteOf(dir).value) + name, false, 0))
    ensures listed == [DirEntry(name, false, was)] && result == Source(now)
  {
    hide RemoteOf, PlainDir, Recorded, Replay, Cached, Render, AllowedUri, Refused, ReadPages, Key;
    var b := new Browser();
    var r := RemoteOf(dir).value;
    SlashSame(dir);
    var first, second := OnePage(Listed(Prefix(r) + name, false, was)), OnePage(Listed(Prefix(r) + name, false, now));
    OnePageRead(r.listUrl, Prefix(r), name, was);
    OnePageRead(r.listUrl, Prefix(r), name, now);
    var ok, out, n, end := b.ListCached(dir, first, _ => 0);
    WalkOnce(Along(first, r.listUrl), n, end, 1, Complete);
    ok, out, n, end := b.ListCached(dir + "/", second, _ => 0);
    WalkOnce(Along(second, r.listUrl), n, end, 1, Complete);
    RecordedOne(map[], r, name, was);
    RecordedOne(Recorded(map[], r, [DirEntry(name, false, was)]), r, name, now);
    KeyLaw(dir, name);
    UnderIsAllowed(dir, name);
    listed := b.listings[dir];
    result := b.OpenRemote(dir + "/" + name, probe, _ => 0);
  }

  function OnePage(e: Listed): Net {
    (url: string, page: nat, tries: nat) => PageReply(200, Render([e]), "")
  }

  lemma OnePageRead(url: string, prefix: string, name: string, size: nat)
    requires name != "" && '/' !in name && size <= U64_MAX && Plain(Listed(prefix + name, false, 0))
    ensures var net := Along(OnePage(Listed(prefix + name, false, size)), url);
            Walk(net, 1, Complete) && ReadPages(net, prefix, 1) == [DirEntry(name, false, size)]
  {
    hide Render, Entries;
    var e := Listed(prefix + name, false, size);
    var net := Along(OnePage(e), url);
    assert Page(net, 0) == PageReply(200, Render([e]), "");
    PageRoundTrip([e], prefix);
    assert (prefix + name)[|prefix|..] == name;
    assert Direct(e, prefix) == Some(DirEntry(name, false, size));
    assert DirectOnes([e], prefix) == [DirEntry(name, false, size)] by { assert [e][1..] == []; }
    assert ReadPages(net, prefix, 0) == [];
  }

  lemma RecordedOne(sizes: map<string, nat>, r: Remote, name: string, size: nat)
    ensures Recorded(sizes, r, [DirEntry(name, false, size)]) == sizes[Key(r, name) := size]
  {
    hide Key;
    assert [DirEntry(name, false, size)][..0] == [];
  }
}
