/** The pages of a directory listing as wasm/weblance_glue.cpp walks them (`list_remote`), and what the walk says
    about the server's listing. */
module Pages {
  import opened Listing

  /** A listing page: status, entries, and the next page's URL. */
  datatype PageReply = PageReply(status: int, body: string, next: string)

  /** How a walk over listing pages ends. */
  datatype WalkEnd = Complete | Missing | Capped | Failed

  const MAX_PAGES := 10000
  const PAGE_TRIES := 6

  /** A page's answer: the first with a status, or the sixth. */
  function Settled(net: (nat, nat) -> PageReply, page: nat, tries: nat): PageReply
    requires tries < 6
    decreases 6 - tries
  {
    if net(page, tries).status > 0 || tries + 1 == 6 then net(page, tries)
    else Settled(net, page, tries + 1)
  }

  function Page(net: (nat, nat) -> PageReply, page: nat): PageReply {
    Settled(net, page, 0)
  }

  /** The network: its answer to a URL that is asked for as the page-th of a walk, for the tries-th time. */
  type Net = (string, nat, nat) -> PageReply

  /** A URL's answer, asked for until there is a status or six times. */
  function Asked(net: Net, url: string, page: nat, tries: nat): PageReply
    requires tries < 6
    decreases 6 - tries
  {
    if net(url, page, tries).status > 0 || tries + 1 == 6 then net(url, page, tries)
    else Asked(net, url, page, tries + 1)
  }

  /** A walk asks for the first URL, and then for the one each page names. */
  function UrlAt(net: Net, first: string, page: nat): string {
    if page == 0 then first else Asked(net, UrlAt(net, first, page - 1), page - 1, 0).next
  }

  /** What a walk from this URL is answered. */
  function Along(net: Net, first: string): (nat, nat) -> PageReply {
    (page: nat, tries: nat) => net(UrlAt(net, first, page), page, tries)
  }

  lemma {:induction false} AlongSettled(net: Net, first: string, page: nat, tries: nat)
    requires tries < 6
    ensures Settled(Along(net, first), page, tries) == Asked(net, UrlAt(net, first, page), page, tries)
    decreases 6 - tries
  {
    hide UrlAt;
    if tries + 1 < 6 { AlongSettled(net, first, page, tries + 1); }
  }

  lemma AlongPage(net: Net, first: string, page: nat)
    ensures Page(Along(net, first), page) == Asked(net, UrlAt(net, first, page), page, 0)
    ensures UrlAt(net, first, page + 1) == Page(Along(net, first), page).next
  {
    hide Asked, Settled, Along;
    AlongSettled(net, first, page, 0);
  }

  /** The entries directly under the directory on the first n pages. */
  ghost function ReadPages(net: (nat, nat) -> PageReply, prefix: string, n: nat): seq<DirEntry> {
    if n == 0 then [] else ReadPages(net, prefix, n - 1) + Entries(Page(net, n - 1).body, 0, prefix)
  }

  ghost predicate Followed(net: (nat, nat) -> PageReply, n: nat) {
    && (forall i :: 0 <= i < n ==> Page(net, i).status == 200)
    && (forall i :: 0 <= i < n - 1 ==> Page(net, i).next != "")
  }

  /** The first n pages were read, and why the walk stopped there. */
  ghost predicate Walk(net: (nat, nat) -> PageReply, n: nat, end: WalkEnd) {
    Followed(net, n) &&
    match end
    case Complete => 1 <= n <= 10000 && Page(net, n - 1).next == ""
    case Capped => n == 10000 && Page(net, n - 1).next != ""
    case Missing => n < 10000 && (n > 0 ==> Page(net, n - 1).next != "") && Page(net, n).status == 404
    case Failed => n < 10000 && (n > 0 ==> Page(net, n - 1).next != "") && Page(net, n).status !in {200, 404}
  }

  /** What the network answers fixes where the walk stops and why. */
  lemma WalkOnce(net: (nat, nat) -> PageReply, n: nat, end: WalkEnd, m: nat, end': WalkEnd)
    requires Walk(net, n, end) && Walk(net, m, end')
    ensures n == m && end == end'
  {
    hide Page;
  }

  // ---- against the server's own pages --------------------------------------------------------------

  /** What the server lists on these pages. */
  ghost function Flat(pages: seq<seq<Listed>>): seq<Listed> {
    if pages == [] then [] else Flat(pages[..|pages| - 1]) + pages[|pages| - 1]
  }

  /** A server with these pages: a page it answers with is the one asked for, and names a next one exactly when
      there is one. It may answer any request otherwise: not found, refused, or not at all. */
  ghost predicate Answers(net: (nat, nat) -> PageReply, pages: seq<seq<Listed>>) {
    forall i :: 0 <= i && Page(net, i).status == 200 ==>
      && i < |pages| && Page(net, i).body == Render(pages[i]) && (Page(net, i).next == "" <==> i == |pages| - 1)
      && forall j :: 0 <= j < |pages[i]| ==> Plain(pages[i][j])
  }

  /** How many of the pages a walk has read: all of them when it is complete, some but not all otherwise. */
  lemma WalkReads(net: (nat, nat) -> PageReply, pages: seq<seq<Listed>>, n: nat, end: WalkEnd)
    requires Answers(net, pages) && Walk(net, n, end)
    ensures n <= |pages| && (end == Complete ==> n == |pages|) && (n > 0 && end != Complete ==> n < |pages|)
  {
    hide Page, Render;
    if n > 0 { assert Page(net, n - 1).status == 200; }
  }

  lemma {:induction false} DirectAppend(a: seq<Listed>, b: seq<Listed>, prefix: string)
    ensures DirectOnes(a + b, prefix) == DirectOnes(a, prefix) + DirectOnes(b, prefix)
    decreases |a|
  {
    hide Direct;
    if a == [] {
      assert a + b == b;
    } else {
      assert (a + b)[1..] == a[1..] + b;
      DirectAppend(a[1..], b, prefix);
    }
  }

  lemma {:induction false} FlatSplit(pages: seq<seq<Listed>>, n: nat)
    requires n <= |pages|
    ensures Flat(pages) == Flat(pages[..n]) + Flat(pages[n..])
    decreases |pages|
  {
    if n == |pages| {
      assert pages[..n] == pages && pages[n..] == [];
    } else {
      var m := |pages| - 1;
      FlatSplit(pages[..m], n);
      assert pages[..m][..n] == pages[..n] && pages[n..][..m - n] == pages[..m][n..];
    }
  }

  /** What a walk has read is exactly what the server lists directly under the directory on the pages read. */
  lemma {:induction false} PagesFaithful(net: (nat, nat) -> PageReply, prefix: string, pages: seq<seq<Listed>>, n: nat)
    requires Answers(net, pages) && Followed(net, n) && n <= |pages|
    ensures ReadPages(net, prefix, n) == DirectOnes(Flat(pages[..n]), prefix)
    decreases n
  {
    hide Direct, Entries, Page, Render, DirectOnes;
    if n == 0 {
      DirectNone(prefix);
    } else {
      var m := n - 1;
      PagesFaithful(net, prefix, pages, m);
      assert pages[..n][..m] == pages[..m];
      assert Page(net, m).status == 200;
      PageRoundTrip(pages[m], prefix);
      DirectAppend(Flat(pages[..m]), pages[m], prefix);
    }
  }

  lemma DirectNone(prefix: string)
    ensures DirectOnes([], prefix) == []
  {
  }

  /** The listing names a file. */
  ghost predicate Names(es: seq<DirEntry>, name: string) {
    exists i :: 0 <= i < |es| && !es[i].isDir && es[i].name == name
  }

  /** The server lists this file directly under the directory on one of these pages. */
  ghost predicate Lists(pages: seq<seq<Listed>>, prefix: string, name: string) {
    Names(DirectOnes(Flat(pages), prefix), name)
  }

  lemma NamesAppend(a: seq<DirEntry>, b: seq<DirEntry>, name: string)
    ensures Names(a + b, name) <==> Names(a, name) || Names(b, name)
  {
    if Names(a, name) {
      var i :| 0 <= i < |a| && !a[i].isDir && a[i].name == name;
      assert (a + b)[i] == a[i];
    }
    if Names(b, name) {
      var i :| 0 <= i < |b| && !b[i].isDir && b[i].name == name;
      assert (a + b)[|a| + i] == b[i];
    }
  }

  lemma ListsSplit(pages: seq<seq<Listed>>, n: nat, prefix: string, name: string)
    requires n <= |pages|
    ensures Lists(pages, prefix, name) <==> Lists(pages[..n], prefix, name) || Lists(pages[n..], prefix, name)
  {
    hide DirectOnes, Flat, Names;
    FlatSplit(pages, n);
    DirectAppend(Flat(pages[..n]), Flat(pages[n..]), prefix);
    NamesAppend(DirectOnes(Flat(pages[..n]), prefix), DirectOnes(Flat(pages[n..]), prefix), name);
  }

  /** No name directly under a directory holds a slash. */
  lemma {:induction false} ListedName(es: seq<Listed>, prefix: string, name: string)
    requires Names(DirectOnes(es, prefix), name)
    ensures '/' !in name
    decreases |es|
  {
    var ds := DirectOnes(es, prefix);
    var i :| 0 <= i < |ds| && !ds[i].isDir && ds[i].name == name;
    var first := Maybe(Direct(es[0], prefix));
    if i >= |first| {
      assert DirectOnes(es[1..], prefix)[i - |first|] == ds[i];
      ListedName(es[1..], prefix, name);
    }
  }
}
