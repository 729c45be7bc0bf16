/** Which directory a listing URL of wasm/weblance_glue.cpp (`remote_for`) is of: the URLs from the parts of a
    directory, when two directories share one, and what a complete walk of a directory's own listing says. */
module Directories {
  import opened Options
  import opened Text
  import opened Remote
  import opened Listing
  import opened Pages
  import opened Sizes

  const API := "https://huggingface.co/api/datasets/"
  const TREE := "/tree/"
  const QUERY := "?recursive=false"

  // ---- words ---------------------------------------------------------------------------------------

  ghost predicate Occurs(s: string, word: string, k: nat) {
    k + |word| <= |s| && s[k..k + |word|] == word
  }

  ghost predicate Has(s: string, word: string) {
    exists k: nat :: Occurs(s, word, k)
  }

  ghost predicate OccursFirst(s: string, word: string, k: nat) {
    Occurs(s, word, k) && forall j: nat :: j < k ==> !Occurs(s, word, j)
  }

  lemma {:induction false} FindsFirst(s: string, word: string)
    ensures match FindWord(s, word)
            case None => !Has(s, word)
            case Some(k) => OccursFirst(s, word, k)
    decreases |s|
  {
    if |word| <= |s| && !(word <= s) {
      FindsFirst(s[1..], word);
      forall j: nat | Occurs(s, word, j) ensures j > 0 && Occurs(s[1..], word, j - 1) {
        Later(s, word, j);
      }
      if FindWord(s[1..], word).Some? {
        var k := FindWord(s[1..], word).value;
        assert s[1..][k..k + |word|] == s[k + 1..k + 1 + |word|];
      }
    } else if word <= s {
      assert s[0..|word|] == word;
    }
  }

  lemma Later(s: string, word: string, j: nat)
    requires Occurs(s, word, j) && !(word <= s)
    ensures j > 0 && Occurs(s[1..], word, j - 1)
  {
    assert s[0..|word|] == s[..|word|];
    assert !Occurs(s, word, 0);
    assert s[1..][j - 1..j - 1 + |word|] == s[j..j + |word|];
  }

  lemma FirstOnce(s: string, word: string, j: nat, k: nat)
    requires OccursFirst(s, word, j) && OccursFirst(s, word, k)
    ensures j == k
  {
  }

  /** A word that begins and ends with a slash and has no other: no occurrence overlaps another by more. */
  ghost predicate Slashed(word: string) {
    |word| >= 2 && word[0] == '/' && word[|word| - 1] == '/' && forall i :: 0 < i < |word| - 1 ==> word[i] != '/'
  }

  lemma Words()
    ensures Slashed(RESOLVE) && Slashed(TREE) && |RESOLVE| == 9 && |TREE| == 6
  {
    assert |RESOLVE| == 9 && |TREE| == 6;
    assert RESOLVE[0] == '/' && RESOLVE[8] == '/' && TREE[0] == '/' && TREE[5] == '/';
    assert forall i :: 0 < i < 8 ==> RESOLVE[i] in "resolve";
    assert forall i :: 0 < i < 5 ==> TREE[i] in "tree";
    assert '/' !in "resolve" && '/' !in "tree";
  }

  /** After a text that does not have the word even with a slash more, the word occurs there first. */
  lemma FirstAfter(a: string, word: string, rest: string)
    requires Slashed(word) && !Has(a + "/", word)
    ensures OccursFirst(a + word + rest, word, |a|)
  {
    var s := a + word + rest;
    assert s[|a|..|a| + |word|] == word;
    forall j: nat | j < |a| ensures !Occurs(s, word, j) {
      if j + |word| <= |a| + 1 {
        assert !Occurs(a + "/", word, j);
        assert (a + "/")[j..j + |word|] == s[j..j + |word|];
      } else if j + |word| <= |s| {
        assert s[j..j + |word|][|a| - j] == s[|a|] == word[0];
      }
    }
  }

  /** And before the first occurrence it does not have it. */
  lemma NotBefore(s: string, word: string, k: nat)
    requires Slashed(word) && OccursFirst(s, word, k)
    ensures !Has(s[..k] + "/", word)
  {
    assert s[k] == s[k..k + |word|][0];
    var t := s[..k + 1];
    assert s[..k] + "/" == t;
    forall j: nat ensures !Occurs(t, word, j) {
      if j + |word| <= k + 1 {
        assert !Occurs(s, word, j);
        assert t[j..j + |word|] == s[j..j + |word|];
      }
    }
  }

  // ---- directories by their parts ------------------------------------------------------------------

  /** A directory of a repository's revision on the hub, or of the local server. */
  datatype Directory = Hosted(repo: string, rev: string, path: string) | Served(origin: string, path: string)

  predicate PlainPath(path: string) {
    path == "" || path[|path| - 1] != '/'
  }

  /** This machine's own server, with or without a port. */
  predicate LocalOrigin(origin: string) {
    || origin == "http://localhost" || origin == "http://127.0.0.1"
    || "http://localhost:" <= origin || "http://127.0.0.1:" <= origin
  }

  lemma LocalOrigins(origin: string)
    requires |origin| >= 7 && forall i :: 7 <= i < |origin| ==> origin[i] != '/'
    ensures LocalOrigin(origin) <==> IsLocalHttp(origin)
  {
    HostIsOrigin(origin, LOCALHOST);
    HostIsOrigin(origin, LOOPBACK);
    assert LOCALHOST + ":" == "http://localhost:" && LOOPBACK + ":" == "http://127.0.0.1:";
  }

  lemma HostIsOrigin(origin: string, p: string)
    requires |p| == 16 && forall i :: 7 <= i < |origin| ==> origin[i] != '/'
    ensures HostIs(origin, p) <==> origin == p || p + ":" <= origin
  {
    if HostIs(origin, p) {
      assert origin[..16] == p;
      if |origin| > 16 { assert origin[..17] == p + [origin[16]]; }
    }
    if p + ":" <= origin {
      assert origin[..17] == p + ":" && p == origin[..17][..16] == origin[..16];
    }
  }

  ghost predicate DirOk(x: Directory) {
    match x
    case Hosted(repo, rev, path) => !Has(repo + "/", RESOLVE) && '/' !in rev && PlainPath(path)
    case Served(origin, path) =>
      LocalOrigin(origin) && (forall i :: 7 <= i < |origin| ==> origin[i] != '/') && PlainPath(path)
  }

  /** A revision, and a path in it if there is one. */
  function Joined(rev: string, path: string): string {
    if path == "" then rev else rev + "/" + path
  }

  function UrlOf(x: Directory): string {
    match x
    case Hosted(repo, rev, path) => "https://huggingface.co/datasets/" + repo + "/resolve/" + Joined(rev, path)
    case Served(origin, path) => Joined(origin, path)
  }

  function ListingUrl(x: Directory): string {
    match x
    case Hosted(repo, rev, path) => API + (repo + TREE + Joined(rev, path)) + QUERY
    case Served(origin, path) => origin + "/__tree/" + path
  }

  function BaseOf(x: Directory): string {
    match x
    case Hosted(repo, rev, _) => "https://huggingface.co/datasets/" + repo + "/resolve/" + rev + "/"
    case Served(origin, _) => origin + "/"
  }

  lemma JoinedParts(rev: string, path: string, from: nat)
    requires from <= |rev| && (forall i :: from <= i < |rev| ==> rev[i] != '/') && PlainPath(path)
    ensures var s := Joined(rev, path);
            var slash := Find(s, '/', from);
            Before(s, slash) == rev && Trimmed(Under(s, slash)) == path
            && (slash.Some? ==> slash.value == |rev|)
  {
    var s := Joined(rev, path);
    if path == "" {
      assert Find(s, '/', from) == None;
    } else {
      assert s[|rev|] == '/' && forall i :: from <= i < |rev| ==> s[i] == rev[i];
      assert Find(s, '/', from) == Some(|rev|);
      assert s[..|rev|] == rev && s[|rev| + 1..] == path;
    }
  }

  lemma HostedIs(repo: string, rev: string, path: string)
    requires DirOk(Hosted(repo, rev, path))
    ensures ResolveSplit(repo + RESOLVE + Joined(rev, path)) == Some((repo, Joined(rev, path)))
    ensures ResolveRemote(repo, Joined(rev, path))
         == Remote(ListingUrl(Hosted(repo, rev, path)), BaseOf(Hosted(repo, rev, path)), path)
  {
    hide Find, FindWord, Joined, Trimmed, Occurs;
    Words();
    var rest := repo + RESOLVE + Joined(rev, path);
    FirstAfter(repo, RESOLVE, Joined(rev, path));
    FindsFirst(rest, RESOLVE);
    assert rest[..|repo|] == repo && rest[|repo| + 9..] == Joined(rev, path);
    assert FindWord(rest, RESOLVE) == Some(|repo|) by {
      assert Has(rest, RESOLVE);
      if FindWord(rest, RESOLVE).Some? { FirstOnce(rest, RESOLVE, FindWord(rest, RESOLVE).value, |repo|); }
    }
    JoinedParts(rev, path, 0);
    TailIs(repo, rev, path);
  }

  lemma TailIs(repo: string, rev: string, path: string)
    ensures var tail := if path == "" then "" else "/" + path;
            "https://huggingface.co/api/datasets/" + repo + "/tree/" + rev + tail + "?recursive=false"
            == API + (repo + TREE + Joined(rev, path)) + QUERY
  {
    var tail := if path == "" then "" else "/" + path;
    assert Joined(rev, path) == rev + tail;
  }

  lemma NotHosted(uri: string)
    requires IsLocalHttp(uri)
    ensures !(HF <= uri) && |uri| >= 16 && uri[4] == ':'
  {
    assert LOCALHOST[4] == ':' && LOOPBACK[4] == ':' && HF[4] == 's' && |LOCALHOST| == 16 && |LOOPBACK| == 16;
  }

  lemma LocalIs(origin: string, path: string)
    requires DirOk(Served(origin, path))
    ensures IsLocalHttp(Joined(origin, path)) && !(HF <= Joined(origin, path))
    ensures LocalRemote(Joined(origin, path)) == Remote(origin + "/__tree/" + path, origin + "/", path)
  {
    hide Find, Trimmed;
    LocalOrigins(origin);
    NotHosted(origin);
    assert IsLocalHttp(Joined(origin, path)) by {
      assert path != "" ==> Joined(origin, path)[|origin|] == '/';
    }
    NotHosted(Joined(origin, path));
    JoinedParts(origin, path, 7);
  }

  /** The listing asked for is the one built from the directory's own parts, and so are its base and its path. */
  lemma ListingUrlIs(x: Directory)
    requires DirOk(x)
    ensures RemoteOf(UrlOf(x)) == Some(Remote(ListingUrl(x), BaseOf(x), x.path)) && PlainDir(UrlOf(x))
  {
    hide Joined, ResolveSplit, ResolveRemote, LocalRemote, ListingUrl, BaseOf, Has;
    match x
    case Hosted(repo, rev, path) =>
      var rest := repo + RESOLVE + Joined(rev, path);
      assert UrlOf(x) == HF + rest && UrlOf(x)[|HF|..] == rest;
      HostedIs(repo, rev, path);
      EndsPlain(HF + repo + RESOLVE, rev, path);
    case Served(origin, path) =>
      LocalIs(origin, path);
      EndsPlain("", origin, path);
      assert "" + Joined(origin, path) == Joined(origin, path);
      ServedIs(origin, path);
      NotHosted(origin);
  }

  lemma ServedIs(origin: string, path: string)
    ensures ListingUrl(Served(origin, path)) == origin + "/__tree/" + path
    ensures BaseOf(Served(origin, path)) == origin + "/"
  {
  }

  lemma EndsPlain(start: string, rev: string, path: string)
    requires PlainPath(path) && (path == "" && rev != "" ==> rev[|rev| - 1] != '/')
    ensures var s := start + Joined(rev, path);
            if rev == "" && path == "" then s == start else s != "" && s[|s| - 1] != '/'
  {
  }

  /** Every plain directory there is a listing for has such parts. */
  lemma PartsOf(d: string) returns (x: Directory)
    requires RemoteOf(d).Some? && PlainDir(d)
    ensures DirOk(x) && UrlOf(x) == d
  {
    hide Has, ResolveRemote, LocalRemote, ResolveSplit, PlainDir, Joined;
    if HF <= d {
      x := HostedParts(d);
    } else {
      NotHosted(d);
      LocalPlain(d);
      var origin, path := PathParts(d, 7);
      x := Served(origin, path);
      OriginLocal(d, origin, path);
      LocalOrigins(origin);
    }
  }

  lemma LocalPlain(d: string)
    requires !(HF <= d) && PlainDir(d) && d != ""
    ensures d[|d| - 1] != '/'
  {
    hide ResolveSplit;
  }

  lemma HostedParts(d: string) returns (x: Directory)
    requires HF <= d && ResolveSplit(d[|HF|..]).Some? && PlainDir(d)
    ensures DirOk(x) && UrlOf(x) == d
  {
    hide Has, ResolveSplit, Joined;
    var rest := d[|HF|..];
    var repo, after := ResolveSplit(rest).value.0, ResolveSplit(rest).value.1;
    RepoParts(rest);
    Rejoined(d, repo, after);
    var rev, path := PathParts(after, 0);
    x := Hosted(repo, rev, path);
  }

  lemma Rejoined(d: string, repo: string, after: string)
    requires HF <= d && d[|HF|..] == repo + (RESOLVE + after)
    ensures d == HF + repo + RESOLVE + after && (after != "" ==> d[|d| - 1] == after[|after| - 1])
  {
    assert d == HF + d[|HF|..];
  }

  lemma RepoParts(rest: string)
    requires ResolveSplit(rest).Some?
    ensures !Has(ResolveSplit(rest).value.0 + "/", RESOLVE)
  {
    hide Has, OccursFirst;
    Words();
    FindsFirst(rest, RESOLVE);
    NotBefore(rest, RESOLVE, FindWord(rest, RESOLVE).value);
  }

  lemma PathParts(s: string, from: nat) returns (rev: string, path: string)
    requires from <= |s| && (s == "" || s[|s| - 1] != '/')
    ensures Joined(rev, path) == s && from <= |rev| && PlainPath(path)
    ensures forall i :: from <= i < |rev| ==> rev[i] != '/'
  {
    match Find(s, '/', from)
    case None => rev, path := s, "";
    case Some(k) =>
      rev, path := s[..k], s[k + 1..];
      assert path[|path| - 1] == s[|s| - 1];
      assert s == s[..k] + "/" + s[k + 1..];
  }

  lemma OriginLocal(d: string, origin: string, path: string)
    requires IsLocalHttp(d) && Joined(origin, path) == d && 7 <= |origin|
    requires forall i :: 7 <= i < |origin| ==> origin[i] != '/'
    ensures IsLocalHttp(origin)
  {
    assert |LOCALHOST| == 16 && |LOOPBACK| == 16;
    assert forall i :: 0 <= i < |origin| ==> d[i] == origin[i];
    assert path != "" ==> d[|origin|] == '/';
    forall p | p in {LOCALHOST, LOOPBACK} && HostIs(d, p) ensures HostIs(origin, p) {
      assert forall i :: 7 <= i < 16 ==> p[i] != '/' by { HostsPlain(); }
      assert d[..16] == p;
      assert |origin| >= 16;
      assert origin[..16] == d[..16];
    }
  }

  lemma HostsPlain()
    ensures forall i :: 7 <= i < 16 ==> LOCALHOST[i] != '/' && LOOPBACK[i] != '/'
  {
    assert LOCALHOST[7..] == "localhost" && LOOPBACK[7..] == "127.0.0.1";
    assert forall i :: 7 <= i < 16 ==> LOCALHOST[i] == "localhost"[i - 7] && LOOPBACK[i] == "127.0.0.1"[i - 7];
    assert '/' !in "localhost" && '/' !in "127.0.0.1";
  }

  // ---- whose listing a URL is ----------------------------------------------------------------------

  /** What a hub URL says between its fixed ends. */
  function Core(x: Directory): string
    requires x.Hosted?
  {
    x.repo + TREE + Joined(x.rev, x.path)
  }

  /** The repository's name has no "/tree/" in it, and does not end with one that lacks its last slash. */
  ghost predicate Tame(x: Directory) {
    x.Hosted? ==> !Has(x.repo + "/", TREE)
  }

  lemma SameCore(x: Directory, y: Directory)
    requires x.Hosted? && y.Hosted?
    ensures ListingUrl(x) == ListingUrl(y) <==> Core(x) == Core(y)
  {
    hide Joined;
    SameMiddle(API, Core(x), Core(y), QUERY);
  }

  lemma SameMiddle(a: string, x: string, y: string, z: string)
    ensures a + x + z == a + y + z <==> x == y
  {
    if a + x + z == a + y + z {
      assert x == (a + x + z)[|a|..|a| + |x|] && y == (a + y + z)[|a|..|a| + |y|];
    }
  }

  lemma SameParts(rev: string, path: string, rev': string, path': string, from: nat)
    requires Joined(rev, path) == Joined(rev', path') && from <= |rev| && from <= |rev'|
    requires PlainPath(path) && PlainPath(path')
    requires (forall i :: from <= i < |rev| ==> rev[i] != '/') && (forall i :: from <= i < |rev'| ==> rev'[i] != '/')
    ensures rev == rev' && path == path'
  {
    hide Joined, Find, Trimmed;
    JoinedParts(rev, path, from);
    JoinedParts(rev', path', from);
  }

  lemma SameSplit(x: Directory, y: Directory)
    requires x.Hosted? && y.Hosted? && DirOk(x) && DirOk(y) && Core(x) == Core(y) && |x.repo| == |y.repo|
    ensures x == y
  {
    hide Joined, Has;
    assert Core(x)[..|x.repo|] == x.repo && Core(y)[..|y.repo|] == y.repo;
    assert Core(x)[|x.repo| + |TREE|..] == Joined(x.rev, x.path);
    assert Core(y)[|y.repo| + |TREE|..] == Joined(y.rev, y.path);
    SameParts(x.rev, x.path, y.rev, y.path, 0);
  }

  lemma SchemesDiffer(x: Directory, y: Directory)
    requires x.Hosted? && y.Served? && DirOk(y)
    ensures ListingUrl(x) != ListingUrl(y)
  {
    hide Joined;
    NotHosted(y.origin);
    assert ListingUrl(x)[4] == API[4] == 's';
    assert ListingUrl(y)[4] == y.origin[4];
  }

  lemma SameServed(x: Directory, y: Directory)
    requires x.Served? && y.Served? && DirOk(x) && DirOk(y) && ListingUrl(x) == ListingUrl(y)
    ensures x == y
  {
    hide IsLocalHttp;
    var n, m, s := |x.origin|, |y.origin|, ListingUrl(x);
    LongOrigin(x);
    LongOrigin(y);
    assert s[n] == '/' && s[m] == '/' && (forall i :: 0 <= i < n ==> s[i] == x.origin[i]);
    assert forall i :: 0 <= i < m ==> s[i] == y.origin[i];
    assert n == m;
    assert s[..n] == x.origin && s[..n] == y.origin && s[n + 8..] == x.path && s[n + 8..] == y.path;
  }

  lemma LongOrigin(x: Directory)
    requires x.Served? && DirOk(x)
    ensures |x.origin| >= 16
  {
    NotHosted(x.origin);
  }

  /** Different plain directories have different listing URLs, when the repositories' names are tame. */
  lemma DifferentListings(x: Directory, y: Directory)
    requires DirOk(x) && DirOk(y) && Tame(x) && Tame(y) && ListingUrl(x) == ListingUrl(y)
    ensures x == y
  {
    hide Joined, ListingUrl, Occurs, Has;
    if x.Hosted? && y.Hosted? {
      SameCore(x, y);
      Words();
      FirstAfter(x.repo, TREE, Joined(x.rev, x.path));
      FirstAfter(y.repo, TREE, Joined(y.rev, y.path));
      FirstOnce(Core(x), TREE, |x.repo|, |y.repo|);
      SameSplit(x, y);
    } else if x.Hosted? {
      SchemesDiffer(x, y);
    } else if y.Hosted? {
      SchemesDiffer(y, x);
    } else {
      SameServed(x, y);
    }
  }

  /** In general they do not: a directory of one repository shares its listing URL with another repository. */
  lemma TreeShared(a: string, b: string, c: string)
    requires !Has(a + TREE + b + "/", RESOLVE) && '/' !in b && '/' !in c && c != ""
    ensures var x, y := Hosted(a, b, "tree/" + c), Hosted(a + TREE + b, c, "");
            DirOk(x) && DirOk(y) && UrlOf(x) != UrlOf(y) && ListingUrl(x) == ListingUrl(y)
  {
    hide ListingUrl, UrlOf, BaseOf, RemoteOf, Has, PlainDir;
    var x, y := Hosted(a, b, "tree/" + c), Hosted(a + TREE + b, c, "");
    assert a + (TREE + b) == a + TREE + b && TREE[0] == '/';
    PrefixHasNot(a, TREE + b);
    SharedCore(a, b, c);
    SameCore(x, y);
    ListingUrlIs(x);
    ListingUrlIs(y);
  }

  lemma SharedCore(a: string, b: string, c: string)
    ensures Core(Hosted(a, b, "tree/" + c)) == Core(Hosted(a + TREE + b, c, ""))
  {
    assert "/" + ("tree/" + c) == TREE + c;
    assert a + TREE + (b + ("/" + ("tree/" + c))) == a + TREE + b + TREE + c;
    assert b + "/" + ("tree/" + c) == b + ("/" + ("tree/" + c));
  }

  /** What a text with a slash has not, a part of it before a slash has not. */
  lemma PrefixHasNot(a: string, rest: string)
    requires !Has(a + rest + "/", RESOLVE) && "/" <= rest
    ensures !Has(a + "/", RESOLVE)
  {
    var long := a + rest + "/";
    assert long[|a|] == rest[0] == '/';
    forall k: nat ensures !Occurs(a + "/", RESOLVE, k) {
      assert !Occurs(long, RESOLVE, k);
      if k + |RESOLVE| <= |a| + 1 {
        assert (a + "/")[k..k + |RESOLVE|] == long[k..k + |RESOLVE|];
      }
    }
  }

  lemma SharedInput()
    ensures ListingUrl(Hosted("o/r", "x", "tree/y")) == ListingUrl(Hosted("o/r/tree/x", "y", ""))
    ensures UrlOf(Hosted("o/r", "x", "tree/y")) != UrlOf(Hosted("o/r/tree/x", "y", ""))
  {
    hide ListingUrl, UrlOf, Has;
    NoResolveIn();
    assert "o/r" + TREE + "x" == "o/r/tree/x" && "o/r/tree/x" + "/" == "o/r/tree/x/" && "tree/" + "y" == "tree/y";
    TreeShared("o/r", "x", "y");
  }

  lemma NoResolveIn()
    ensures !Has("o/r/tree/x/", RESOLVE)
  {
    var s := "o/r/tree/x/";
    assert |RESOLVE| == 9 && RESOLVE[1] == 'r' && RESOLVE[0] == '/' && RESOLVE[8] == '/';
    forall k: nat ensures !Occurs(s, RESOLVE, k) {
      if k + 9 <= |s| {
        assert s[k..k + 9][8] == s[k + 8] && s[k..k + 9][0] == s[k];
      }
    }
  }

  /** A repository's name can end there, and the listing URL goes on with "/tree/". */
  ghost predicate SplitsAt(x: Directory, k: nat)
    requires x.Hosted?
  {
    Occurs(Core(x), TREE, k) && !Has(Core(x)[..k] + "/", RESOLVE)
  }

  /** Exactly: a directory's listing URL is no other directory's if and only if "/tree/" stands in it only where the
      revision begins, but for places after "/resolve/", which no repository's name reaches. */
  lemma OwnListingIff(x: Directory)
    requires DirOk(x) && x.Hosted? && (x.rev != "" || x.path != "")
    ensures (forall y :: DirOk(y) && ListingUrl(y) == ListingUrl(x) ==> y == x)
       <==> (forall k: nat :: SplitsAt(x, k) ==> k == |x.repo|)
  {
    hide ListingUrl, Core, Has, SplitsAt;
    if forall k: nat :: SplitsAt(x, k) ==> k == |x.repo| {
      forall y | DirOk(y) && ListingUrl(y) == ListingUrl(x) ensures y == x {
        if y.Served? {
          SchemesDiffer(x, y);
        } else {
          SameCore(x, y);
          TreeAt(x, y);
          SameSplit(x, y);
        }
      }
    }
    forall k: nat | SplitsAt(x, k) && k != |x.repo|
      ensures exists y :: DirOk(y) && ListingUrl(y) == ListingUrl(x) && y != x
    {
      var y := Other(x, k);
      SameCore(x, y);
    }
  }

  lemma TreeAt(x: Directory, y: Directory)
    requires x.Hosted? && y.Hosted? && DirOk(y) && Core(x) == Core(y)
    ensures SplitsAt(x, |y.repo|)
  {
    hide Joined, Has;
    assert Core(y)[..|y.repo|] == y.repo;
  }

  /** The directory that another place of "/tree/" makes of a listing URL. */
  lemma Other(x: Directory, k: nat) returns (y: Directory)
    requires DirOk(x) && x.Hosted? && (x.rev != "" || x.path != "")
    requires SplitsAt(x, k)
    ensures y.Hosted? && DirOk(y) && Core(y) == Core(x) && |y.repo| == k
  {
    hide Joined, Has;
    var core := Core(x);
    var rest := core[k + |TREE|..];
    CoreEnds(x);
    assert rest != "" ==> rest[|rest| - 1] == core[|core| - 1];
    var rev, path := PathParts(rest, 0);
    y := Hosted(core[..k], rev, path);
    assert core == core[..k] + core[k..k + |TREE|] + rest;
  }

  lemma CoreEnds(x: Directory)
    requires DirOk(x) && x.Hosted? && (x.rev != "" || x.path != "")
    ensures Core(x)[|Core(x)| - 1] != '/'
  {
    hide Has;
    EndsPlain(x.repo + TREE, x.rev, x.path);
  }

  // ---- a server of directories ---------------------------------------------------------------------

  /** At every directory's listing URL the server has that directory's pages. */
  ghost predicate Serves(net: Net, site: Directory -> seq<seq<Listed>>) {
    forall x :: DirOk(x) && Tame(x) ==> Answers(Along(net, ListingUrl(x)), site(x))
  }

  /** After a complete walk no file is refused that the server has in the directory asked for. */
  lemma NoneOfDirectoryRefused(x: Directory, before: map<string, nat>, dirs: set<string>, net: Net,
                               site: Directory -> seq<seq<Listed>>, n: nat)
    requires DirOk(x) && Tame(x) && Serves(net, site) && UrlOf(x) in dirs && RemoteOf(UrlOf(x)).Some?
    requires Walk(Along(net, RemoteOf(UrlOf(x)).value.listUrl), n, Complete)
    ensures var r := RemoteOf(UrlOf(x)).value;
            RefusalsTrue(UrlOf(x), Recorded(before, r, ReadPages(Along(net, r.listUrl), Prefix(r), n)), dirs, site(x))
            && Prefix(r) == if x.path == "" then "" else x.path + "/"
  {
    hide RemoteOf, UrlOf, ListingUrl, Recorded, ReadPages, Along, Walk, Answers, RefusalsTrue, PlainDir;
    ListingUrlIs(x);
    CompleteRefusalsTrue(UrlOf(x), before, dirs, Along(net, ListingUrl(x)), site(x), n);
  }
}
