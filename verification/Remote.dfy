/** How wasm/weblance_glue.cpp finds a directory's listing and names the files in it (`remote_for`), and how it
    reads one page of a listing. */
module Remote {
  import opened Options
  import opened Text

  const HF := "https://huggingface.co/datasets/"
  const RESOLVE := "/resolve/"
  const LOCALHOST := "http://localhost"
  const LOOPBACK := "http://127.0.0.1"

  predicate HostIs(uri: string, p: string) {
    p <= uri && (|uri| == |p| || uri[|p|] == ':' || uri[|p|] == '/')
  }

  predicate IsLocalHttp(uri: string) {
    HostIs(uri, LOCALHOST) || HostIs(uri, LOOPBACK)
  }

  predicate AllowedUri(uri: string) {
    "https://" <= uri || IsLocalHttp(uri)
  }

  /** The first listing page, what a file's path is appended to, and the directory's path. */
  datatype Remote = Remote(listUrl: string, base: string, dirRel: string)

  function Trimmed(s: string): (t: string)
    ensures t <= s && (t == [] || t[|t| - 1] != '/')
    ensures |t| == |s| <==> s == [] || s[|s| - 1] != '/'
  {
    if s != [] && s[|s| - 1] == '/' then Trimmed(s[..|s| - 1]) else s
  }

  method TrimSlashes(s: string) returns (t: string)
    ensures t == Trimmed(s)
  {
    t := s;
    while t != [] && t[|t| - 1] == '/'
      invariant Trimmed(t) == Trimmed(s)
      decreases |t|
    {
      t := t[..|t| - 1];
    }
  }

  /** What follows the revision or the origin, after its slash; nothing when there is no slash. */
  function Under(s: string, slash: Option<nat>): string
    requires slash.Some? ==> slash.value < |s|
  {
    if slash.None? then "" else s[slash.value + 1..]
  }

  function Before(s: string, slash: Option<nat>): string
    requires slash.Some? ==> slash.value < |s|
  {
    if slash.None? then s else s[..slash.value]
  }

  /** Repository and what follows "/resolve/", of a Hugging Face URL after its fixed start. */
  function ResolveSplit(rest: string): (r: Option<(string, string)>)
    ensures r.Some? ==> rest == r.value.0 + (RESOLVE + r.value.1)
  {
    match FindWord(rest, RESOLVE)
    case None => None
    case Some(k) =>
      assert rest == rest[..k] + (rest[k..k + |RESOLVE|] + rest[k + |RESOLVE|..]);
      Some((rest[..k], rest[k + |RESOLVE|..]))
  }

  function ResolveRemote(repo: string, after: string): Remote {
    var slash := Find(after, '/', 0);
    var rev, dirRel := Before(after, slash), Trimmed(Under(after, slash));
    var tail := if dirRel == "" then "" else "/" + dirRel;
    Remote("https://huggingface.co/api/datasets/" + repo + "/tree/" + rev + tail + "?recursive=false",
           HF + repo + RESOLVE + rev + "/", dirRel)
  }

  function LocalRemote(dir: string): Remote {
    var slash := Find(dir, '/', 7);
    var origin, dirRel := Before(dir, slash), Trimmed(Under(dir, slash));
    Remote(origin + "/__tree/" + dirRel, origin + "/", dirRel)
  }

  function RemoteOf(dir: string): Option<Remote> {
    if HF <= dir then
      match ResolveSplit(dir[|HF|..])
      case None => None
      case Some(parts) => Some(ResolveRemote(parts.0, parts.1))
    else if IsLocalHttp(dir) then Some(LocalRemote(dir))
    else None
  }

  method RemoteFor(dir: string) returns (r: Option<Remote>)
    ensures r == RemoteOf(dir)
  {
    if HF <= dir {
      var rest := dir[|HF|..];
      var resolve := FindWord(rest, RESOLVE);
      if resolve.None? {
        return None;
      }
      var repo, after := rest[..resolve.value], rest[resolve.value + |RESOLVE|..];
      var slash := Find(after, '/', 0);
      var rev := Before(after, slash);
      var dirRel := TrimSlashes(Under(after, slash));
      var tail := if dirRel == "" then "" else "/" + dirRel;
      return Some(Remote("https://huggingface.co/api/datasets/" + repo + "/tree/" + rev + tail + "?recursive=false",
                         HF + repo + RESOLVE + rev + "/", dirRel));
    }
    if IsLocalHttp(dir) {
      var slash := Find(dir, '/', 7);
      var origin := Before(dir, slash);
      var dirRel := TrimSlashes(Under(dir, slash));
      return Some(Remote(origin + "/__tree/" + dirRel, origin + "/", dirRel));
    }
    return None;
  }

  function Prefix(r: Remote): string {
    if r.dirRel == "" then "" else r.dirRel + "/"
  }

  /** The key a listed file's size is recorded under. */
  function Key(r: Remote, name: string): string {
    r.base + (Prefix(r) + name)
  }

  /** A directory URL that does not end with a slash, or ends with the one of "/resolve/". */
  predicate PlainDir(dir: string) {
    dir == "" || dir[|dir| - 1] != '/'
    || (HF <= dir && ResolveSplit(dir[|HF|..]).Some? && ResolveSplit(dir[|HF|..]).value.1 == "")
  }

  /** A root followed by a path: the base and the prefix the two branches of `remote_for` build. */
  lemma RootKey(root: string, slash: Option<nat>, name: string)
    requires slash.Some? ==> slash.value < |root| && root[slash.value] == '/'
    ensures var dirRel := Trimmed(Under(root, slash));
            var prefix := if dirRel == "" then "" else dirRel + "/";
            Before(root, slash) + "/" + (prefix + name) == root + "/" + name
            <==> slash.None? || root[|root| - 1] != '/'
  {
    if slash.Some? {
      var under := Under(root, slash);
      var dirRel := Trimmed(under);
      assert root == root[..slash.value] + "/" + under;
      if root[|root| - 1] != '/' {
        assert dirRel == under;
      }
    }
  }

  lemma SameHead(head: string, x: string, y: string)
    ensures head + x == head + y <==> x == y
  {
    assert (head + x)[|head|..] == x && (head + y)[|head|..] == y;
  }

  lemma HeadKey(head: string, root: string, before: string, prefix: string, name: string)
    ensures head + before + "/" + (prefix + name) == head + root + "/" + name
       <==> before + "/" + (prefix + name) == root + "/" + name
  {
    SameHead(head, before + "/" + (prefix + name), root + "/" + name);
    assert head + before + "/" + (prefix + name) == head + (before + "/" + (prefix + name));
    assert head + root + "/" + name == head + (root + "/" + name);
  }

  lemma ShapedKey(head: string, after: string, r: Remote, name: string)
    requires var slash := Find(after, '/', 0);
      r.base == head + Before(after, slash) + "/" && r.dirRel == Trimmed(Under(after, slash))
    ensures Key(r, name) == head + after + "/" + name <==> after == "" || after[|after| - 1] != '/'
  {
    hide Trimmed;
    var slash := Find(after, '/', 0);
    RootKey(after, slash, name);
    HeadKey(head, after, Before(after, slash), Prefix(r), name);
  }

  lemma Joined(dir: string, h: string, repo: string, w: string, after: string)
    requires h <= dir && dir[|h|..] == repo + (w + after)
    ensures dir == h + repo + w + after
  {
    assert dir == h + dir[|h|..];
  }

  lemma ResolveKey(dir: string, name: string)
    requires HF <= dir && RemoteOf(dir).Some?
    ensures Key(RemoteOf(dir).value, name) == dir + "/" + name <==> PlainDir(dir)
  {
    hide Key, Find, ResolveSplit, Trimmed;
    var parts := ResolveSplit(dir[|HF|..]).value;
    var head, after := HF + parts.0 + RESOLVE, parts.1;
    Joined(dir, HF, parts.0, RESOLVE, after);
    ShapedKey(head, after, ResolveRemote(parts.0, after), name);
    if after != "" {
      assert dir[|dir| - 1] == after[|after| - 1];
    }
  }

  lemma LocalKey(dir: string, name: string)
    requires !(HF <= dir) && IsLocalHttp(dir)
    ensures Key(RemoteOf(dir).value, name) == dir + "/" + name <==> dir[|dir| - 1] != '/'
  {
    hide Trimmed;
    RootKey(dir, Find(dir, '/', 7), name);
  }

  /** Every listed file's key is dir + "/" + name, exactly when the directory's URL is plain. */
  lemma KeyLaw(dir: string, name: string)
    requires RemoteOf(dir).Some?
    ensures Key(RemoteOf(dir).value, name) == dir + "/" + name <==> PlainDir(dir)
  {
    hide Trimmed, FindWord, Key, Find;
    if HF <= dir {
      ResolveKey(dir, name);
    } else {
      LocalKey(dir, name);
    }
  }

  lemma TrimmedSlash(s: string)
    ensures Trimmed(s + "/") == Trimmed(s)
  {
    assert (s + "/")[..|s|] == s;
  }

  /** One more slash at the end of a root changes neither what is before its first slash nor what is under it. */
  lemma RootSlash(root: string, from: nat)
    requires from <= |root|
    ensures var a, b := Find(root, '/', from), Find(root + "/", '/', from);
            Before(root + "/", b) == Before(root, a) && Trimmed(Under(root + "/", b)) == Trimmed(Under(root, a))
  {
    var a, b := Find(root, '/', from), Find(root + "/", '/', from);
    var more := root + "/";
    assert more[|root|] == '/';
    if a.Some? {
      assert more[a.value] == '/';
      assert b == a;
      assert Under(more, b) == Under(root, a) + "/";
      TrimmedSlash(Under(root, a));
    } else {
      assert b == Some(|root|);
      assert Under(more, b) == "" && Before(more, b) == root;
    }
  }

  lemma SplitSlash(rest: string)
    requires ResolveSplit(rest).Some?
    ensures ResolveSplit(rest + "/") == Some((ResolveSplit(rest).value.0, ResolveSplit(rest).value.1 + "/"))
  {
    hide FindWord;
    FirstWordStays(rest, RESOLVE);
    var k := FindWord(rest, RESOLVE).value;
    assert (rest + "/")[..k] == rest[..k] && (rest + "/")[k + |RESOLVE|..] == rest[k + |RESOLVE|..] + "/";
  }

  lemma ResolveSlash(repo: string, after: string)
    ensures ResolveRemote(repo, after + "/") == ResolveRemote(repo, after)
  {
    hide Trimmed, Find, Before, Under;
    RootSlash(after, 0);
  }

  /** A directory's URL with one more slash names the same remote. */
  lemma SlashSame(dir: string)
    requires RemoteOf(dir).Some?
    ensures RemoteOf(dir + "/") == RemoteOf(dir)
  {
    hide ResolveSplit, ResolveRemote, LocalRemote;
    if HF <= dir {
      var rest := dir[|HF|..];
      assert HF <= dir + "/" && (dir + "/")[|HF|..] == rest + "/";
      SplitSlash(rest);
      ResolveSlash(ResolveSplit(rest).value.0, ResolveSplit(rest).value.1);
    } else {
      SlashLocal(dir);
    }
  }

  /** So its keys are those of the plain directory, not the given URL followed by a slash and the name. */
  lemma SlashedKey(dir: string, name: string)
    requires RemoteOf(dir).Some? && PlainDir(dir)
    ensures RemoteOf(dir + "/").Some? && Key(RemoteOf(dir + "/").value, name) == dir + "/" + name
    ensures Key(RemoteOf(dir + "/").value, name) != dir + "/" + "/" + name
  {
    hide RemoteOf, Key, PlainDir;
    SlashSame(dir);
    KeyLaw(dir, name);
    assert |dir + "/" + name| < |dir + "/" + "/" + name|;
  }

  lemma SlashLocal(dir: string)
    requires !(HF <= dir) && IsLocalHttp(dir)
    ensures RemoteOf(dir + "/") == RemoteOf(dir)
  {
    hide Trimmed;
    var more := dir + "/";
    assert forall p :: HostIs(dir, p) ==> p <= more;
    assert IsLocalHttp(more);
    assert more[4] == ':' && HF[4] == 's';
    RootSlash(dir, 7);
  }

  lemma {:induction false} FirstWordStays(s: string, w: string)
    requires FindWord(s, w).Some?
    ensures FindWord(s + "/", w) == FindWord(s, w)
    decreases |s|
  {
    if w <= s {
      assert w <= s + "/";
    } else {
      assert (s + "/")[1..] == s[1..] + "/";
      FirstWordStays(s[1..], w);
      assert (s + "/")[..|w|] == s[..|w|];
    }
  }
}
